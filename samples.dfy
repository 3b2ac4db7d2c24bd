/**
 * The sample lines of the source's unit tests, worked through the model.
 * Each sample is a parameter fixed by `requires`, so that the verifier
 * reasons about it as a value rather than unfolding every function on it.
 */
module Samples {
  import opened Wrappers
  import opened Text
  import opened XmlProc

  /** The sample prolog is recognised as one. */
  lemma PrologSample(p: string)
    requires p == "<?xml version=\"1.0\" encoding=\"UTF-8\"?>"
    ensures IsProlog(p)
  {
    assert p[0] == '<' && p[1] == '?';
    assert p[0..2] == "<?";
    assert p[|p| - 2] == '?' && p[|p| - 1] == '>';
    assert p[|p| - 2..|p|] == "?>";
    assert OccursAt(p, "<?", 0);
    assert OccursAt(p, "?>", |p| - 2);
  }

  /** A comment line is recognised as one. */
  lemma CommentSample(c: string)
    requires c == "<!-- This is the root node -->"
    ensures IsComment(c)
  {
    assert c[0] == '<' && c[1] == '!' && c[2] == '-' && c[3] == '-';
    assert c[0..4] == "<!--";
    assert c[|c| - 3] == '-' && c[|c| - 2] == '-' && c[|c| - 1] == '>';
    assert c[|c| - 3..|c|] == "-->";
    assert OccursAt(c, "<!--", 0);
    assert OccursAt(c, "-->", |c| - 3);
  }

  /** Plain words are bare text. */
  lemma WordsAreBareText(s: string)
    requires s == "Main Chapter"
    ensures IsNewlineInnerElement(s)
  {
  }

  /** A tag line is not bare text. */
  lemma TagIsNotBareText(s: string)
    requires s == "<root>"
    ensures !IsNewlineInnerElement(s)
  {
    assert s[0] == '<';
  }

  /** Text followed by a closing tag is not bare text. */
  lemma CloserIsNotBareText(s: string)
    requires s == "Main Chapter</title>"
    ensures !IsNewlineInnerElement(s)
  {
    assert s[12] == '<';
  }

  /** The name of a tag with attributes is the word before the first space. */
  lemma NameOfSection(line: string)
    requires line == "section id=\"1\" name=\"Introduction\""
    ensures FindName(line) == "section"
  {
    assert line == line[..7] + " " + line[8..];
    assert line[..7] == "section";
    NameBeforeSpace(line[..7], line[8..]);
  }

  /** A lone word is its own name. */
  lemma NameOfWord(line: string)
    requires line == "root"
    ensures FindName(line) == "root"
  {
    KeepNonDelimitersIdempotent(line);
  }

  /** Nothing to name gives the error marker. */
  lemma NameOfNothing(line: string)
    requires line == ""
    ensures FindName(line) == "ERROR!"
  {
  }

  /** The inner element of a same-line element is the text before its closing tag. */
  lemma TitleInnerElement(line: string)
    requires line == "Main Chapter</title>"
    ensures GetInnerElement(line) == "Main Chapter"
  {
    assert OccursAt(line, "</", 12) by { assert line[12..14] == "</"; }
    forall j: nat | j < 12 ensures !OccursAt(line, "</", j) {
      assert line[j..j + 2][0] == line[j] != '<';
    }
    assert Find(line, "</") == Some(12);
    assert line[..12] == "Main Chapter";
  }

  /**
   * The prolog's attributes: cutting the name `xml` out of the trimmed tag
   * leaves ` version="1.0" encoding="UTF-8"`, since no other `x` occurs,
   * and the scanner finds its two pairs.
   */
  lemma PrologAttributes(n: string, k1: string, v1: string, k2: string, v2: string)
    requires n == "xml" && k1 == "version" && v1 == "1.0" && k2 == "encoding" && v2 == "UTF-8"
    ensures var tail := " " + k1 + "=\"" + v1 + "\" " + k2 + "=\"" + v2 + "\"";
      RemoveAll(n + " " + k1 + "=\"" + v1 + "\" " + k2 + "=\"" + v2 + "\"", n) == tail &&
      Attributes(tail) == Ok(map["version" := "1.0", "encoding" := "UTF-8"])
  {
    var tail := " " + k1 + "=\"" + v1 + "\" " + k2 + "=\"" + v2 + "\"";
    assert n + " " + k1 + "=\"" + v1 + "\" " + k2 + "=\"" + v2 + "\"" == n + tail;
    assert RemoveAll(n + tail, n) == tail by {
      assert n[0] == 'x' && 'x' !in k1 && 'x' !in v1 && 'x' !in k2 && 'x' !in v2;
      RemoveLeadingOnly(n, tail);
    }
    assert Attributes(tail) == Ok(map["version" := "1.0", "encoding" := "UTF-8"]) by {
      TwoAttributes(k1, v1, k2, v2);
    }
  }

  /** The first tag of a line with attributes and same-line text is the opening tag alone. */
  lemma TitleFirstTag(m: string, rest: string)
    requires m == "title author=\"John Doe\" version=\"1.0\"" && rest == "Main Chapter</title>"
    ensures GetFirstTag("<" + m + ">" + rest) == Ok("<" + m + ">")
  {
    assert "" + "<" + m + ">" + rest == "<" + m + ">" + rest;
    assert '>' !in m;
    FirstTagOf("", m, rest);
  }

  /** A prolog tag around text without `>` is its own first tag. */
  lemma PrologFirstTag(body: string)
    requires '>' !in body
    ensures GetFirstTag("<?" + body + "?>") == Ok("<?" + body + "?>")
  {
    var line := "<?" + body + "?>";
    var m := "?" + body + "?";
    assert '>' !in m;
    assert line == "<" + m + ">";
    assert "" + "<" + m + ">" + "" == "<" + m + ">";
    FirstTagOf("", m, "");
  }

  /** Trimming a prolog tag around text without delimiters leaves that text. */
  lemma PrologTrimmed(body: string)
    requires forall x :: x in body ==> !IsDelimiter(x)
    ensures TrimLine("<?" + body + "?>") == body
  {
    assert KeepNonDelimiters("<?") == [] && KeepNonDelimiters("?>") == [];
    KeepNonDelimitersIdempotent(body);
    KeepNonDelimitersAppend("<?", body);
    KeepNonDelimitersAppend("<?" + body, "?>");
  }

  /**
   * The sample prolog, `<?xml version="1.0" encoding="UTF-8"?>`, assembled
   * from its pieces: it is its own first tag, trimming leaves the text
   * between `<?` and `?>`, and the name found in that text is `xml`.
   */
  lemma PrologTag(n: string, k1: string, v1: string, k2: string, v2: string)
    requires n == "xml" && k1 == "version" && v1 == "1.0" && k2 == "encoding" && v2 == "UTF-8"
    ensures var body := n + " " + k1 + "=\"" + v1 + "\" " + k2 + "=\"" + v2 + "\"";
      GetFirstTag("<?" + body + "?>") == Ok("<?" + body + "?>") &&
      TrimLine("<?" + body + "?>") == body &&
      FindName(body) == "xml"
  {
    var rest := k1 + "=\"" + v1 + "\" " + k2 + "=\"" + v2 + "\"";
    var body := n + " " + rest;
    assert body == n + " " + k1 + "=\"" + v1 + "\" " + k2 + "=\"" + v2 + "\"";
    PrologPiecesPlain(n, k1, v1, k2, v2);
    assert FindName(body) == "xml" by { NameBeforeSpace(n, rest); }
    assert GetFirstTag("<?" + body + "?>") == Ok("<?" + body + "?>") by { PrologFirstTag(body); }
    assert TrimLine("<?" + body + "?>") == body by { PrologTrimmed(body); }
  }

  /** The pieces of the sample prolog hold no delimiter. */
  lemma PrologPiecesPlain(n: string, k1: string, v1: string, k2: string, v2: string)
    requires n == "xml" && k1 == "version" && v1 == "1.0" && k2 == "encoding" && v2 == "UTF-8"
    ensures forall x :: x in n + " " + (k1 + "=\"" + v1 + "\" " + k2 + "=\"" + v2 + "\"") ==> !IsDelimiter(x)
  {
    assert forall x :: x in n ==> !IsDelimiter(x);
    assert forall x :: x in k1 ==> !IsDelimiter(x);
    assert forall x :: x in v1 ==> !IsDelimiter(x);
    assert forall x :: x in k2 ==> !IsDelimiter(x);
    assert forall x :: x in v2 ==> !IsDelimiter(x);
  }
}
