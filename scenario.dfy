/**
 * A whole document worked through `Parse`: a root element `a` whose first
 * child `b` has its text on the same line as its tags, and whose second
 * child `c` has its text on a line of its own; then both closing tags.
 * The names are any words of letters and the texts any letters and spaces,
 * so one lemma covers every document of this shape.
 */
module Scenario {
  import opened Wrappers
  import opened Text
  import opened TreeStruct
  import opened XmlProc
  import opened XmlBuild

  predicate IsLetter(c: char)
  {
    'a' <= c <= 'z' || 'A' <= c <= 'Z'
  }

  /** A tag name: a non-empty word of letters. */
  predicate IsName(s: string)
  {
    s != [] && forall i :: 0 <= i < |s| ==> IsLetter(s[i])
  }

  /** Inner text: letters and spaces. */
  predicate IsText(s: string)
  {
    forall i :: 0 <= i < |s| ==> IsLetter(s[i]) || s[i] == ' '
  }

  /** A pattern one of whose chars is missing from `s` does not occur in it. */
  lemma MissingCharNoOccurrence(s: string, pat: string, k: nat)
    requires k < |pat| && pat[k] !in s
    ensures !Occurs(s, pat)
  {
  }

  /** `trim_start` leaves a line that does not start with whitespace as it is. */
  lemma TrimNothing(x: string)
    requires x != [] && !IsWhitespace(x[0])
    ensures TrimStart(x) == x
  {
  }

  /** The name inside a tag is the name, whatever delimiters surround it. */
  lemma NameOfTag(pre: string, a: string, post: string)
    requires IsName(a)
    requires forall i :: 0 <= i < |pre| ==> IsDelimiter(pre[i])
    requires forall i :: 0 <= i < |post| ==> IsDelimiter(post[i])
    ensures FindName(pre + a + post) == a
  {
    assert ' ' !in a && KeepNonDelimiters(a) == a by {
      assert forall x :: x in a ==> !IsDelimiter(x) && x != ' ';
      KeepNonDelimitersIdempotent(a);
    }
    assert TrimLine(pre + a + post) == a by {
      AllDelimiters(pre);
      AllDelimiters(post);
      KeepNonDelimitersAppend(pre, a);
      KeepNonDelimitersAppend(pre + a, post);
    }
  }

  lemma {:induction false} AllDelimiters(s: string)
    requires forall i :: 0 <= i < |s| ==> IsDelimiter(s[i])
    ensures KeepNonDelimiters(s) == []
    decreases |s|
  {
    if s != [] {
      AllDelimiters(s[1..]);
    }
  }

  /** A lone tag is its own first tag. */
  lemma LoneTag(m: string)
    requires '>' !in m
    ensures GetFirstTag("<" + m + ">") == Ok("<" + m + ">")
  {
    assert "" + "<" + m + ">" + "" == "<" + m + ">";
    FirstTagOf("", m, "");
  }

  /** The tag of an opening tag, with its name cut out and trimmed, holds no attributes. */
  lemma NoAttributes(a: string)
    requires IsName(a)
    ensures Attributes(TrimLine(RemoveAll("<" + a + ">", a))) == Ok(map[])
  {
    var s := "<" + a + ">";
    assert RemoveAll(s, a) == "<>" by {
      assert s[..|a|] != a by { assert s[..|a|][0] == '<' && IsLetter(a[0]); }
      assert s[1..] == a + ">";
      RemoveLeading(a, ">");
      MissingCharNoOccurrence(">", a, 0);
      RemoveAbsent(">", a);
    }
    assert TrimLine("<>") == [] by {
      AllDelimiters("<>");
    }
  }

  function Open(a: string): string { "<" + a + ">" }

  function Close(a: string): string { "</" + a + ">" }

  /** An element whose text and closing tag follow its opening tag on the same line. */
  function Inline(b: string, t: string): string { Open(b) + (t + Close(b)) }

  /** The first tag of an inline element is its opening tag. */
  lemma InlineFirstTag(b: string, t: string)
    requires IsName(b) && IsText(t)
    ensures GetFirstTag(Inline(b, t)) == Ok(Open(b))
  {
    assert '>' !in b;
    FirstTagOf("", b, t + Close(b));
    assert "" + "<" + b + ">" + (t + Close(b)) == Inline(b, t);
  }

  /** What follows the opening tag of an inline element never holds that tag again. */
  lemma InlineRemainder(b: string, t: string)
    requires IsName(b) && IsText(t)
    ensures RemoveAll(Inline(b, t), Open(b)) == t + Close(b)
  {
    var rest := t + Close(b);
    var tag := Open(b);
    RemoveLeading(tag, rest);
    forall i: nat ensures !OccursAt(rest, tag, i) {
      if i + |tag| <= |rest| {
        assert rest[i..i + |tag|][0] == rest[i] && rest[i..i + |tag|][1] == rest[i + 1];
        assert tag[0] == '<' && tag[1] == b[0];
        if i < |t| {
          assert rest[i] == t[i];
        } else if i == |t| {
          assert rest[i + 1] == '/';
        } else {
          assert rest[i] == Close(b)[i - |t|];
        }
      }
    }
    RemoveAbsent(rest, tag);
  }

  /** The text of an inline element is what precedes its closing tag. */
  lemma InlineText(b: string, t: string)
    requires IsName(b) && IsText(t)
    ensures ExtractInnerElement(t + Close(b)) == Some(t)
  {
    var rest := t + Close(b);
    assert OccursAt(rest, "</", |t|) by { assert rest[|t|..|t| + 2] == "</"; }
    forall j: nat | j < |t| ensures !OccursAt(rest, "</", j) {
      assert rest[j..j + 2][0] == rest[j] == t[j];
    }
    assert Find(rest, "</") == Some(|t|);
    assert rest[..|t|] == t;
  }

  /** A line that starts with `<` and holds no `?` or `!` is a tag line. */
  lemma TagLine(b: Builder, line: string, id: nat)
    requires line != [] && line[0] == '<' && '?' !in line && '!' !in line
    ensures LineStep(b, line, id) == NodeStep(b, line, id)
  {
    MissingCharNoOccurrence(line, "<?", 1);
    MissingCharNoOccurrence(line, "<!--", 1);
  }

  /** An unindented opening line without attributes or `/>` opens an element, by `OpenElement`. */
  lemma PlainOpen(b: Builder, line: string, id: nat, tag: string, name: string, remaining: string)
    requires GetFirstTag(TrimStart(line)) == Ok(tag) && FindName(tag) == name
    requires !(b.stack != [] && Top(b.stack).name == name)
    requires Attributes(TrimLine(RemoveAll(tag, name))) == Ok(map[])
    requires RemoveAll(TrimStart(line), tag) == remaining && !Contains(tag, "/>")
    requires CalculateIndentation(line) == 0
    ensures NodeStep(b, line, id) == Ok(OpenElement(b, name, remaining, false, map[], 0, id))
  {
    NodeStepOpens(b, line, id, tag);
  }

  /** An opening tag line is its own first tag. */
  lemma OpenTagFirst(a: string)
    requires IsName(a)
    ensures GetFirstTag(TrimStart(Open(a))) == Ok(Open(a))
  {
    TrimNothing(Open(a));
    LoneTag(a);
  }

  /** An opening tag names its element. */
  lemma OpenTagName(a: string)
    requires IsName(a)
    ensures FindName(Open(a)) == a
  {
    NameOfTag("<", a, ">");
  }

  /** Nothing is left of an opening tag line once its tag is cut out, and it is not self-closing. */
  lemma OpenTagRest(a: string)
    requires IsName(a)
    ensures RemoveAll(TrimStart(Open(a)), Open(a)) == [] && !Contains(Open(a), "/>")
  {
    var line := Open(a);
    TrimNothing(line);
    RemoveLeading(line, "");
    assert line + "" == line;
    NotInTag("<", a, ">", '/');
    MissingCharNoOccurrence(line, "/>", 0);
  }

  /** A line that starts with its tag has indentation 0. */
  lemma Unindented(line: string)
    requires line != [] && line[0] == '<'
    ensures CalculateIndentation(line) == 0
  {
    assert FindChar(line, '<') == Some(0);
  }

  /** A char that is neither a letter nor in the delimiters around a name is not in the tag. */
  lemma NotInTag(pre: string, a: string, post: string, c: char)
    requires IsName(a) && !IsLetter(c) && c !in pre && c !in post
    ensures c !in pre + a + post
  {
    assert c !in a;
  }

  /** The first line opens the root element. */
  lemma OpenRoot(a: string)
    requires IsName(a)
    ensures NodeStep(Builder([], []), Open(a), 0) ==
      Ok(Builder([Entry(a, 0)], [Record(a, true, false, [], None, map[], "", 0, 0)]))
  {
    assert NodeStep(Builder([], []), Open(a), 0) == Ok(OpenElement(Builder([], []), a, [], false, map[], 0, 0)) by {
      OpenTagFirst(a);
      OpenTagName(a);
      NoAttributes(a);
      OpenTagRest(a);
      Unindented(Open(a));
      PlainOpen(Builder([], []), Open(a), 0, Open(a), a, []);
    }
    RootElement(a);
  }

  lemma RootElement(a: string)
    ensures OpenElement(Builder([], []), a, [], false, map[], 0, 0) ==
      Builder([Entry(a, 0)], [Record(a, true, false, [], None, map[], "", 0, 0)])
  {
    var node := Record(a, true, false, [], None, map[], "", 0, 0);
    assert Relation([Entry(a, 0)], [], node) == ([], node);
  }

  // ---------------------------------------------------------------------
  // The document, line by line

  /**
   * Root `a`; child `b` with its text `t` on the same line; child `c`
   * with its text `u` on a line of its own; then the closing tags. As in
   * the source, each record's id is its line's index.
   */
  function Document(a: string, b: string, t: string, c: string, u: string): seq<string>
  {
    [Open(a), Inline(b, t), Open(c), u, Close(c), Close(a)]
  }

  function RootRecord(a: string, children: seq<nat>): Record
  {
    Record(a, true, false, children, None, map[], "", 0, 0)
  }

  function ChildRecord(name: string, inner: string, id: nat): Record
  {
    Record(name, false, false, [], Some(0), map[], inner, 0, id)
  }

  /** The same-line child: its record gets text `t` and parent 0, and the root gets child 1. */
  lemma InlineChild(a: string, b: string, t: string)
    requires IsName(a) && IsName(b) && IsText(t) && a != b
    ensures NodeStep(Builder([Entry(a, 0)], [RootRecord(a, [])]), Inline(b, t), 1) ==
      Ok(Builder([Entry(a, 0)], [RootRecord(a, [1]), ChildRecord(b, t, 1)]))
  {
    var b0 := Builder([Entry(a, 0)], [RootRecord(a, [])]);
    assert NodeStep(b0, Inline(b, t), 1) == Ok(OpenElement(b0, b, t + Close(b), false, map[], 0, 1)) by {
      TrimNothing(Inline(b, t));
      InlineFirstTag(b, t);
      OpenTagName(b);
      NoAttributes(b);
      InlineRemainder(b, t);
      OpenTagRest(b);
      Unindented(Inline(b, t));
      PlainOpen(b0, Inline(b, t), 1, Open(b), b, t + Close(b));
    }
    InlineElement(a, b, t);
  }

  lemma InlineElement(a: string, b: string, t: string)
    requires IsName(b) && IsText(t)
    ensures OpenElement(Builder([Entry(a, 0)], [RootRecord(a, [])]), b, t + Close(b), false, map[], 0, 1) ==
      Builder([Entry(a, 0)], [RootRecord(a, [1]), ChildRecord(b, t, 1)])
  {
    InlineText(b, t);
    var node := Record(b, false, false, [], None, map[], t, 0, 1);
    var records := [RootRecord(a, [])];
    assert FirstWithId(records, 0) == Some(0);
    assert RootRecord(a, []).(child := [] + [1]) == RootRecord(a, [1]);
    assert records[0 := RootRecord(a, [1])] == [RootRecord(a, [1])];
    assert Relation([Entry(a, 0)], records, node) == ([RootRecord(a, [1])], ChildRecord(b, t, 1));
  }

  /** The child opened on a line of its own stays open, and its parent is the root, below it on the stack. */
  lemma OpenNested(a: string, b: string, t: string, c: string)
    requires IsName(a) && IsName(c) && a != c
    ensures NodeStep(Builder([Entry(a, 0)], [RootRecord(a, [1]), ChildRecord(b, t, 1)]), Open(c), 2) ==
      Ok(Builder([Entry(a, 0), Entry(c, 2)], [RootRecord(a, [1, 2]), ChildRecord(b, t, 1), ChildRecord(c, "", 2)]))
  {
    var b0 := Builder([Entry(a, 0)], [RootRecord(a, [1]), ChildRecord(b, t, 1)]);
    assert NodeStep(b0, Open(c), 2) == Ok(OpenElement(b0, c, [], false, map[], 0, 2)) by {
      OpenTagFirst(c);
      OpenTagName(c);
      NoAttributes(c);
      OpenTagRest(c);
      Unindented(Open(c));
      PlainOpen(b0, Open(c), 2, Open(c), c, []);
    }
    NestedElement(a, b, t, c);
  }

  lemma NestedElement(a: string, b: string, t: string, c: string)
    ensures OpenElement(Builder([Entry(a, 0)], [RootRecord(a, [1]), ChildRecord(b, t, 1)]), c, [], false, map[], 0, 2) ==
      Builder([Entry(a, 0), Entry(c, 2)], [RootRecord(a, [1, 2]), ChildRecord(b, t, 1), ChildRecord(c, "", 2)])
  {
    var stack := [Entry(a, 0), Entry(c, 2)];
    var records := [RootRecord(a, [1]), ChildRecord(b, t, 1)];
    var node := Record(c, false, false, [], None, map[], "", 0, 2);
    assert WantedId(stack, 2) == Some(0);
    assert FirstWithId(records, 0) == Some(0);
    assert RootRecord(a, [1]).(child := [1] + [2]) == RootRecord(a, [1, 2]);
    assert records[0 := RootRecord(a, [1, 2])] == [RootRecord(a, [1, 2]), ChildRecord(b, t, 1)];
    assert Relation(stack, records, node) == ([RootRecord(a, [1, 2]), ChildRecord(b, t, 1)], ChildRecord(c, "", 2));
  }

  /** A closing tag line is its own first tag. */
  lemma CloseTagFirst(x: string)
    requires IsName(x)
    ensures GetFirstTag(TrimStart(Close(x))) == Ok(Close(x))
  {
    var m := "/" + x;
    assert Close(x) == "<" + m + ">";
    assert '>' !in m by { assert '>' !in x; }
    LoneTag(m);
    TrimNothing(Close(x));
  }

  /** A closing tag names its element. */
  lemma CloseTagName(x: string)
    requires IsName(x)
    ensures FindName(Close(x)) == x
  {
    NameOfTag("</", x, ">");
  }

  /** A closing tag line for the innermost open element pops it. */
  lemma CloseLine(b: Builder, x: string, id: nat)
    requires IsName(x) && b.stack != [] && Top(b.stack).name == x
    ensures NodeStep(b, Close(x), id) == Ok(Builder(b.stack[..|b.stack| - 1], b.records))
  {
    CloseTagFirst(x);
    CloseTagName(x);
    CloserPops(b, Close(x), id, Close(x));
  }

  /** A bare-text line of letters and spaces, starting with a letter, becomes the last record's text. */
  lemma BareLine(b: Builder, u: string, id: nat)
    requires u != [] && IsText(u) && IsLetter(u[0])
    ensures LineStep(b, u, id) == Ok(b.(records := InnerElementStep(b.records, u)))
    ensures TrimStart(u) == u
  {
    assert '<' !in u && '>' !in u && '/' !in u;
    BareTextIsNotMarkup(u);
    TrimNothing(u);
  }

  /** Tag lines built from names and text hold neither `?` nor `!`. */
  lemma NoMarkupChars(a: string, b: string, t: string)
    requires IsName(a) && IsName(b) && IsText(t)
    ensures '?' !in Open(a) && '!' !in Open(a) && '?' !in Close(a) && '!' !in Close(a)
    ensures '?' !in Inline(b, t) && '!' !in Inline(b, t)
  {
    NotInTag("<", a, ">", '?');
    NotInTag("<", a, ">", '!');
    NotInTag("</", a, ">", '?');
    NotInTag("</", a, ">", '!');
    NotInTag("<", b, ">", '?');
    NotInTag("<", b, ">", '!');
    NotInTag("</", b, ">", '?');
    NotInTag("</", b, ">", '!');
    assert '?' !in t && '!' !in t;
  }

  /** One successful step of the fold. */
  lemma RunFromStep(step: (Builder, string, nat) -> Result<Builder, BuildError>,
                    lines: seq<string>, i: nat, b: Builder, b': Builder)
    requires i < |lines| && step(b, lines[i], i) == Ok(b')
    ensures RunFrom(step, lines, i, b) == RunFrom(step, lines, i + 1, b')
  {
  }

  // ---------------------------------------------------------------------
  // The whole run

  /** Two children of the root with names other than the root's, and texts of letters and spaces. */
  predicate Words(a: string, b: string, t: string, c: string, u: string)
  {
    IsName(a) && IsName(b) && IsName(c) && a != b && a != c &&
    IsText(t) && u != [] && IsText(u) && IsLetter(u[0])
  }

  /** The records once every line has been read: the root with children 1 and 2, both with parent 0. */
  function FinalRecords(a: string, b: string, t: string, c: string, u: string): seq<Record>
  {
    [RootRecord(a, [1, 2]), ChildRecord(b, t, 1), ChildRecord(c, u, 2)]
  }

  lemma RunLine0(a: string, b: string, t: string, c: string, u: string)
    requires Words(a, b, t, c, u)
    ensures RunFrom(LineStep, Document(a, b, t, c, u), 0, Builder([], [])) ==
      RunFrom(LineStep, Document(a, b, t, c, u), 1, Builder([Entry(a, 0)], [RootRecord(a, [])]))
  {
    var d := Document(a, b, t, c, u);
    var s := Builder([], []);
    assert d[0] == Open(a);
    assert LineStep(s, Open(a), 0) == Ok(Builder([Entry(a, 0)], [RootRecord(a, [])])) by {
      NoMarkupChars(a, b, t);
      TagLine(s, Open(a), 0);
      OpenRoot(a);
    }
    RunFromStep(LineStep, d, 0, s, Builder([Entry(a, 0)], [RootRecord(a, [])]));
  }

  lemma RunLine1(a: string, b: string, t: string, c: string, u: string)
    requires Words(a, b, t, c, u)
    ensures RunFrom(LineStep, Document(a, b, t, c, u), 1, Builder([Entry(a, 0)], [RootRecord(a, [])])) ==
      RunFrom(LineStep, Document(a, b, t, c, u), 2,
              Builder([Entry(a, 0)], [RootRecord(a, [1]), ChildRecord(b, t, 1)]))
  {
    var d := Document(a, b, t, c, u);
    var s := Builder([Entry(a, 0)], [RootRecord(a, [])]);
    var s' := Builder([Entry(a, 0)], [RootRecord(a, [1]), ChildRecord(b, t, 1)]);
    assert d[1] == Inline(b, t);
    assert LineStep(s, Inline(b, t), 1) == Ok(s') by {
      NoMarkupChars(a, b, t);
      TagLine(s, Inline(b, t), 1);
      InlineChild(a, b, t);
    }
    RunFromStep(LineStep, d, 1, s, s');
  }

  lemma RunLine2(a: string, b: string, t: string, c: string, u: string)
    requires Words(a, b, t, c, u)
    ensures RunFrom(LineStep, Document(a, b, t, c, u), 2,
                    Builder([Entry(a, 0)], [RootRecord(a, [1]), ChildRecord(b, t, 1)])) ==
      RunFrom(LineStep, Document(a, b, t, c, u), 3,
              Builder([Entry(a, 0), Entry(c, 2)], [RootRecord(a, [1, 2]), ChildRecord(b, t, 1), ChildRecord(c, "", 2)]))
  {
    var d := Document(a, b, t, c, u);
    var s := Builder([Entry(a, 0)], [RootRecord(a, [1]), ChildRecord(b, t, 1)]);
    var s' := Builder([Entry(a, 0), Entry(c, 2)], [RootRecord(a, [1, 2]), ChildRecord(b, t, 1), ChildRecord(c, "", 2)]);
    assert d[2] == Open(c);
    assert LineStep(s, Open(c), 2) == Ok(s') by {
      NoMarkupChars(c, b, t);
      TagLine(s, Open(c), 2);
      OpenNested(a, b, t, c);
    }
    RunFromStep(LineStep, d, 2, s, s');
  }

  lemma RunLine3(a: string, b: string, t: string, c: string, u: string)
    requires Words(a, b, t, c, u)
    ensures RunFrom(LineStep, Document(a, b, t, c, u), 3,
                    Builder([Entry(a, 0), Entry(c, 2)], [RootRecord(a, [1, 2]), ChildRecord(b, t, 1), ChildRecord(c, "", 2)])) ==
      RunFrom(LineStep, Document(a, b, t, c, u), 4, Builder([Entry(a, 0), Entry(c, 2)], FinalRecords(a, b, t, c, u)))
  {
    var d := Document(a, b, t, c, u);
    var s := Builder([Entry(a, 0), Entry(c, 2)], [RootRecord(a, [1, 2]), ChildRecord(b, t, 1), ChildRecord(c, "", 2)]);
    assert d[3] == u;
    OwnLineText(a, b, t, c, u);
    RunFromStep(LineStep, d, 3, s, Builder([Entry(a, 0), Entry(c, 2)], FinalRecords(a, b, t, c, u)));
  }

  /** The text on a line of its own becomes the inner text of the child opened just before. */
  lemma OwnLineText(a: string, b: string, t: string, c: string, u: string)
    requires Words(a, b, t, c, u)
    ensures LineStep(Builder([Entry(a, 0), Entry(c, 2)], [RootRecord(a, [1, 2]), ChildRecord(b, t, 1), ChildRecord(c, "", 2)]), u, 3) ==
      Ok(Builder([Entry(a, 0), Entry(c, 2)], FinalRecords(a, b, t, c, u)))
  {
    var records := [RootRecord(a, [1, 2]), ChildRecord(b, t, 1), ChildRecord(c, "", 2)];
    var s := Builder([Entry(a, 0), Entry(c, 2)], records);
    BareLine(s, u, 3);
    assert ChildRecord(c, "", 2).(innerElement := u) == ChildRecord(c, u, 2);
    assert records[2 := ChildRecord(c, u, 2)] == FinalRecords(a, b, t, c, u);
  }

  lemma RunLine4(a: string, b: string, t: string, c: string, u: string)
    requires Words(a, b, t, c, u)
    ensures RunFrom(LineStep, Document(a, b, t, c, u), 4, Builder([Entry(a, 0), Entry(c, 2)], FinalRecords(a, b, t, c, u))) ==
      RunFrom(LineStep, Document(a, b, t, c, u), 5, Builder([Entry(a, 0)], FinalRecords(a, b, t, c, u)))
  {
    var d := Document(a, b, t, c, u);
    var s := Builder([Entry(a, 0), Entry(c, 2)], FinalRecords(a, b, t, c, u));
    var s' := Builder([Entry(a, 0)], FinalRecords(a, b, t, c, u));
    assert d[4] == Close(c);
    assert LineStep(s, Close(c), 4) == Ok(s') by {
      NoMarkupChars(c, b, t);
      TagLine(s, Close(c), 4);
      CloseLine(s, c, 4);
      assert s.stack[..1] == [Entry(a, 0)];
    }
    RunFromStep(LineStep, d, 4, s, s');
  }

  lemma RunLine5(a: string, b: string, t: string, c: string, u: string)
    requires Words(a, b, t, c, u)
    ensures RunFrom(LineStep, Document(a, b, t, c, u), 5, Builder([Entry(a, 0)], FinalRecords(a, b, t, c, u))) ==
      Ok(Builder([], FinalRecords(a, b, t, c, u)))
  {
    var d := Document(a, b, t, c, u);
    var s := Builder([Entry(a, 0)], FinalRecords(a, b, t, c, u));
    var s' := Builder([], FinalRecords(a, b, t, c, u));
    assert d[5] == Close(a);
    assert LineStep(s, Close(a), 5) == Ok(s') by {
      NoMarkupChars(a, b, t);
      TagLine(s, Close(a), 5);
      CloseLine(s, a, 5);
    }
    RunFromStep(LineStep, d, 5, s, s');
    assert |d| == 6;
  }

  /**
   * The whole document: three records with the line indices as ids; the
   * root has children 1 and 2 and no parent; the same-line text and the
   * own-line text both land in their element; every element is closed.
   */
  lemma DocumentParse(a: string, b: string, t: string, c: string, u: string)
    requires Words(a, b, t, c, u)
    ensures Parse(Document(a, b, t, c, u)) == Ok(FinalRecords(a, b, t, c, u))
    ensures RunFrom(LineStep, Document(a, b, t, c, u), 0, Builder([], [])) ==
      Ok(Builder([], FinalRecords(a, b, t, c, u)))
  {
    RunLine0(a, b, t, c, u);
    RunLine1(a, b, t, c, u);
    RunLine2(a, b, t, c, u);
    RunLine3(a, b, t, c, u);
    RunLine4(a, b, t, c, u);
    RunLine5(a, b, t, c, u);
  }
}
