/**
 * Line classification and tag extraction: the string helpers of the parser
 * and the attribute scanner.
 */
module XmlProc {
  import opened Wrappers
  import opened Text

  /** Why a line aborts the parse: the places where the source would panic. */
  datatype ParseError =
    | MalformedTag         // no `<`, no `>`, or the first `>` lies well before the first `<`
    | MalformedAttributes  // an attribute without `=` where one is needed, or without a closing `"`

  // ---------------------------------------------------------------------
  // Classifiers

  /** A prolog line holds both `<?` and `?>`. */
  function IsProlog(prolog: string): (r: bool)
    ensures r <==> Occurs(prolog, "<?") && Occurs(prolog, "?>")
  {
    Contains(prolog, "<?") && Contains(prolog, "?>")
  }

  /** A comment line holds both `<!--` and `-->`. */
  function IsComment(comment: string): (r: bool)
    ensures r <==> Occurs(comment, "<!--") && Occurs(comment, "-->")
  {
    Contains(comment, "<!--") && Contains(comment, "-->")
  }

  /** A bare-text line is non-empty and holds no `<`, `>` or `/`. */
  function IsNewlineInnerElement(line: string): (r: bool)
    ensures r <==> |line| > 0 && '<' !in line && '>' !in line && '/' !in line
  {
    SingleOccurs(line, '<');
    SingleOccurs(line, '>');
    SingleOccurs(line, '/');
    |line| > 0 && !(Contains(line, "<") || Contains(line, ">") || Contains(line, "/"))
  }

  /** A pattern that starts with `c` can only occur where `c` is. */
  lemma OccursFirstChar(s: string, pat: string)
    requires pat != [] && Occurs(s, pat)
    ensures pat[0] in s
  {
    var i: nat :| OccursAt(s, pat, i);
    assert s[i] == s[i..i + |pat|][0];
  }

  /**
   * Bare text is never a prolog or a comment, so testing those two first
   * takes nothing away from bare-text lines.
   */
  lemma BareTextIsNotMarkup(line: string)
    requires IsNewlineInnerElement(line)
    ensures !IsProlog(line) && !IsComment(line)
  {
    if Occurs(line, "<?") { OccursFirstChar(line, "<?"); }
    if Occurs(line, "<!--") { OccursFirstChar(line, "<!--"); }
  }

  // ---------------------------------------------------------------------
  // String helpers

  /**
   * `get_first_tag`: the text from the first `<` through the first `>`.
   * The slice panics when it would start after it ends.
   */
  function GetFirstTag(line: string): (r: Result<string, ParseError>)
    ensures r.Ok? && r.value != [] ==>
      r.value[0] == '<' && r.value[|r.value| - 1] == '>' && '>' !in r.value[..|r.value| - 1]
    ensures r.Ok? ==>
      exists k :: (0 <= k <= |line| - |r.value| && line[k..k + |r.value|] == r.value &&
                   (r.value != [] ==> '<' !in line[..k]))
  {
    match (FindChar(line, '<'), FindChar(line, '>'))
    case (Some(f), Some(g)) =>
      if f <= g + 1 then
        var t := line[f..g + 1];
        assert line[f..f + |t|] == t;
        if t != [] then
          assert t[..|t| - 1] == line[f..g];
          assert '>' !in line[f..g] by {
            forall j | f <= j < g ensures line[j] != '>' { assert line[..g][j] == line[j]; }
          }
          Ok(t)
        else Ok(t)
      else Err(MalformedTag)
    case _ => Err(MalformedTag)
  }

  /**
   * When `get_first_tag` fails with both delimiters present: exactly when
   * the first `<` lies more than one char after the first `>`. The tag is
   * empty exactly when the first `<` directly follows the first `>`.
   */
  lemma GetFirstTagCases(line: string)
    ensures GetFirstTag(line).Err? <==>
      ('<' !in line || '>' !in line || FindChar(line, '<').value > FindChar(line, '>').value + 1)
    ensures GetFirstTag(line).Ok? ==>
      (GetFirstTag(line).value == [] <==> FindChar(line, '<').value == FindChar(line, '>').value + 1)
  {
  }

  /** A tag preceded by text without `<` or `>` is the first tag of the line. */
  lemma FirstTagOf(pre: string, mid: string, post: string)
    requires '<' !in pre && '>' !in pre && '>' !in mid
    ensures GetFirstTag(pre + "<" + mid + ">" + post) == Ok("<" + mid + ">")
  {
    var line := pre + "<" + mid + ">" + post;
    assert line[|pre|] == '<';
    assert line[..|pre|] == pre;
    assert line[|pre| + 1 + |mid|] == '>';
    assert line[..|pre| + 1 + |mid|] == pre + "<" + mid;
    assert line[|pre|..|pre| + |mid| + 2] == "<" + mid + ">";
  }

  /** A `>` right before the first `<` gives the empty tag instead of a panic. */
  lemma EmptyFirstTag()
    ensures GetFirstTag("><") == Ok("")
  {
    assert "><"[0] == '>' && "><"[1] == '<' && "><"[..1] == ">";
  }

  /**
   * `get_inner_element`: the text before the first `</`, or the whole line
   * when there is none.
   */
  function GetInnerElement(line: string): (r: string)
    ensures r <= line
    ensures forall j: nat :: j < |r| ==> !OccursAt(line, "</", j)
    ensures r == line || OccursAt(line, "</", |r|)
  {
    match Find(line, "</")
    case Some(index) => line[..index]
    case None => line
  }

  /** `extract_inner_element`: the text before the first `</`, if there is one. */
  function ExtractInnerElement(line: string): (r: Option<string>)
    ensures r.None? <==> !Occurs(line, "</")
    ensures r.Some? ==> r.value == GetInnerElement(line) && OccursAt(line, "</", |r.value|)
  {
    match Find(line, "</")
    case Some(index) => Some(line[..index])
    case None => None
  }

  /** The four characters `trim_line` deletes. */
  predicate IsDelimiter(c: char)
  {
    c == '?' || c == '<' || c == '>' || c == '/'
  }

  /** Reference definition of `trim_line`: the non-delimiter chars, in order. */
  function KeepNonDelimiters(s: string): (r: string)
  {
    if s == [] then []
    else (if IsDelimiter(s[0]) then [] else [s[0]]) + KeepNonDelimiters(s[1..])
  }

  /**
   * `trim_line`: the four successive `replace` calls, which delete every
   * `?`, `<`, `>` and `/` and keep the rest in order.
   */
  function TrimLine(line: string): (r: string)
    ensures r == KeepNonDelimiters(line)
  {
    var a := RemoveAll(line, "?");
    var b := RemoveAll(a, "<");
    var c := RemoveAll(b, ">");
    RemoveCharIsDrop(line, '?');
    RemoveCharIsDrop(a, '<');
    RemoveCharIsDrop(b, '>');
    RemoveCharIsDrop(c, '/');
    DropDelimitersInTurn(line);
    RemoveAll(c, "/")
  }

  lemma {:induction false} DropDelimitersInTurn(s: string)
    ensures DropChar(DropChar(DropChar(DropChar(s, '?'), '<'), '>'), '/') == KeepNonDelimiters(s)
    decreases |s|
  {
    if s != [] {
      DropDelimitersInTurn(s[1..]);
      var h := [s[0]];
      assert s == h + s[1..];
      DropCharAppend(h, s[1..], '?');
      var a := DropChar(s[1..], '?');
      DropCharAppend(DropChar(h, '?'), a, '<');
      var b := DropChar(a, '<');
      DropCharAppend(DropChar(DropChar(h, '?'), '<'), b, '>');
      var c := DropChar(b, '>');
      DropCharAppend(DropChar(DropChar(DropChar(h, '?'), '<'), '>'), c, '/');
    }
  }

  lemma {:induction false} KeepNonDelimitersMembers(s: string)
    ensures forall x :: x in KeepNonDelimiters(s) <==> x in s && !IsDelimiter(x)
    decreases |s|
  {
    if s != [] {
      KeepNonDelimitersMembers(s[1..]);
      assert s == [s[0]] + s[1..];
    }
  }

  lemma {:induction false} KeepNonDelimitersIdempotent(s: string)
    requires forall x :: x in s ==> !IsDelimiter(x)
    ensures KeepNonDelimiters(s) == s
    decreases |s|
  {
    if s != [] {
      assert s[0] in s;
      KeepNonDelimitersIdempotent(s[1..]);
      assert s == [s[0]] + s[1..];
    }
  }

  /** What `trim_line` leaves holds no delimiter, and trimming it again changes nothing. */
  lemma TrimLineResult(line: string)
    ensures forall x :: x in TrimLine(line) <==> x in line && !IsDelimiter(x)
    ensures TrimLine(TrimLine(line)) == TrimLine(line)
  {
    KeepNonDelimitersMembers(line);
    KeepNonDelimitersIdempotent(TrimLine(line));
  }

  /**
   * `find_name`: the trimmed tag text up to its first space, or `"ERROR!"`
   * when nothing is left after trimming.
   */
  function FindName(line: string): (r: string)
    ensures ' ' !in r
    ensures TrimLine(line) == [] ==> r == "ERROR!"
    ensures TrimLine(line) != [] ==>
      r <= TrimLine(line) && (r == TrimLine(line) || TrimLine(line)[|r|] == ' ')
    ensures forall x :: x in r ==> !IsDelimiter(x) || TrimLine(line) == []
  {
    var trimmed := TrimLine(line);
    TrimLineResult(line);
    match FindChar(trimmed, ' ')
    case Some(nameEnd) => trimmed[0..nameEnd]
    case None =>
      if |trimmed| > 0 then TrimLine(trimmed) else "ERROR!"
  }

  lemma {:induction false} KeepNonDelimitersAppend(a: string, b: string)
    ensures KeepNonDelimiters(a + b) == KeepNonDelimiters(a) + KeepNonDelimiters(b)
    decreases |a|
  {
    if a != [] {
      KeepNonDelimitersAppend(a[1..], b);
      assert (a + b)[1..] == a[1..] + b;
    } else {
      assert a + b == b;
    }
  }

  /** The name ends at the first space, whatever follows it. */
  lemma NameBeforeSpace(name: string, rest: string)
    requires name != [] && ' ' !in name && forall x :: x in name ==> !IsDelimiter(x)
    ensures FindName(name + " " + rest) == name
  {
    var s := name + " " + rest;
    KeepNonDelimitersIdempotent(name + " ");
    KeepNonDelimitersAppend(name + " ", rest);
    var t := TrimLine(s);
    assert t == name + " " + KeepNonDelimiters(rest);
    assert t[..|name|] == name;
    assert t[|name|] == ' ';
  }

  /** `find_attributes`, as a sequence of scanning steps on the remaining text. */
  function AttributesFrom(proc: string, acc: map<string, string>): (r: Result<map<string, string>, ParseError>)
    decreases |proc|
  {
    if |proc| < 5 then Ok(acc)
    else match FindChar(proc, '=')
      case None => Err(MalformedAttributes)
      case Some(equalI) =>
        if equalI < 1 || equalI + 2 > |proc| then Err(MalformedAttributes)
        else
          var key := RemoveAll(proc[1..equalI], " ");
          var rest := proc[equalI + 2..];
          match FindChar(rest, '"')
          case None => Err(MalformedAttributes)
          case Some(valueI) => AttributesFrom(rest[valueI..], acc[key := rest[..valueI]])
  }

  /** The attribute map `find_attributes` builds, or why it would panic. */
  function Attributes(line: string): (r: Result<map<string, string>, ParseError>)
    ensures |line| < 5 ==> r == Ok(map[])
  {
    AttributesFrom(line, map[])
  }

  /** A key stored by the scanner holds no space and no `=`; a value holds no `"`. */
  ghost predicate WellFormedAttributes(m: map<string, string>)
  {
    forall k :: k in m ==> ' ' !in k && '=' !in k && '"' !in m[k]
  }

  lemma RemoveSpacesKeepsOut(s: string, c: char)
    requires c !in s
    ensures ' ' !in RemoveAll(s, " ") && c !in RemoveAll(s, " ")
  {
    RemoveCharIsDrop(s, ' ');
  }

  /** One stored pair keeps the map well formed. */
  lemma StoredPairWellFormed(proc: string, acc: map<string, string>, equalI: nat, rest: string, valueI: nat)
    requires WellFormedAttributes(acc)
    requires 1 <= equalI <= |proc| && '=' !in proc[..equalI]
    requires valueI <= |rest| && '"' !in rest[..valueI]
    ensures WellFormedAttributes(acc[RemoveAll(proc[1..equalI], " ") := rest[..valueI]])
  {
    assert '=' !in proc[1..equalI] by {
      forall j | 1 <= j < equalI ensures proc[j] != '=' { assert proc[..equalI][j] == proc[j]; }
    }
    RemoveSpacesKeepsOut(proc[1..equalI], '=');
  }

  /** A key and a value found: the scan goes on after the value with the pair stored. */
  lemma AttributesFromStored(proc: string, acc: map<string, string>, equalI: nat, valueI: nat)
    requires |proc| >= 5 && FindChar(proc, '=') == Some(equalI) && 1 <= equalI && equalI + 2 <= |proc|
    requires FindChar(proc[equalI + 2..], '"') == Some(valueI)
    ensures AttributesFrom(proc, acc) ==
      AttributesFrom(proc[equalI + 2..][valueI..], acc[RemoveAll(proc[1..equalI], " ") := proc[equalI + 2..][..valueI]])
  {
  }

  lemma {:induction false} AttributesFromWellFormed(proc: string, acc: map<string, string>)
    requires WellFormedAttributes(acc)
    ensures AttributesFrom(proc, acc).Ok? ==> WellFormedAttributes(AttributesFrom(proc, acc).value)
    decreases |proc|
  {
    if |proc| >= 5 {
      var equal := FindChar(proc, '=');
      if equal.Some? && 1 <= equal.value && equal.value + 2 <= |proc| {
        var rest := proc[equal.value + 2..];
        var value := FindChar(rest, '"');
        if value.Some? {
          var acc' := acc[RemoveAll(proc[1..equal.value], " ") := rest[..value.value]];
          StoredPairWellFormed(proc, acc, equal.value, rest, value.value);
          AttributesFromWellFormed(rest[value.value..], acc');
          AttributesFromStored(proc, acc, equal.value, value.value);
        }
      }
    }
  }

  /** Keys the scanner stores contain no space; values contain no `"`. */
  lemma AttributesWellFormed(line: string)
    ensures Attributes(line).Ok? ==> WellFormedAttributes(Attributes(line).value)
  {
    AttributesFromWellFormed(line, map[]);
  }

  /**
   * One `key="value"` pair after any char but `=`: the value is stored under
   * the key without its spaces, and scanning resumes at the closing quote.
   */
  lemma AttributePair(c: char, k: string, value: string, tail: string, acc: map<string, string>)
    requires c != '=' && k != [] && '=' !in k && '"' !in value && tail != [] && tail[0] == '"'
    ensures AttributesFrom([c] + k + "=\"" + value + tail, acc) ==
      AttributesFrom(tail, acc[RemoveAll(k, " ") := value])
  {
    var proc := [c] + k + "=\"" + value + tail;
    var e := 1 + |k|;
    assert proc[e] == '=' && proc[..e] == [c] + k;
    assert FindChar(proc, '=') == Some(e);
    var rest := proc[e + 2..];
    assert rest == value + tail;
    assert rest[|value|] == '"' && rest[..|value|] == value;
    assert FindChar(rest, '"') == Some(|value|);
    assert proc[1..e] == k;
    AttributesFromStored(proc, acc, e, |value|);
    assert rest[|value|..] == tail;
  }

  /** Two pairs separated by a space give both; a repeated key keeps the later value. */
  lemma TwoAttributes(k1: string, v1: string, k2: string, v2: string)
    requires k1 != [] && k2 != [] && ' ' !in k1 && ' ' !in k2 && '=' !in k1 && '=' !in k2
    requires '"' !in v1 && '"' !in v2
    ensures Attributes(" " + k1 + "=\"" + v1 + "\" " + k2 + "=\"" + v2 + "\"") == Ok(map[k1 := v1, k2 := v2])
  {
    var tail := "\"" + (" " + k2) + "=\"" + v2 + "\"";
    assert " " + k1 + "=\"" + v1 + "\" " + k2 + "=\"" + v2 + "\"" == [' '] + k1 + "=\"" + v1 + tail;
    assert tail == ['"'] + (" " + k2) + "=\"" + v2 + "\"";
    RemoveAbsentSpace(k1);
    RemoveLeading(" ", k2);
    RemoveAbsentSpace(k2);
    assert '=' !in " " + k2;
    AttributePair('"', " " + k2, v2, "\"", map[k1 := v1]);
    AttributePair(' ', k1, v1, tail, map[]);
  }

  lemma RemoveAbsentSpace(s: string)
    requires ' ' !in s
    ensures RemoveAll(s, " ") == s
  {
    SingleOccurs(s, ' ');
    RemoveAbsent(s, " ");
  }
  /**
   * `find_attributes`: eats a working copy of the text one `key="value"`
   * at a time until fewer than five chars are left.
   */
  method FindAttributes(line: string) returns (r: Result<map<string, string>, ParseError>)
    ensures r == Attributes(line)
  {
    var result: map<string, string> := map[];
    var procString := line;
    while true
      invariant AttributesFrom(procString, result) == Attributes(line)
      decreases |procString|
    {
      if |procString| < 5 {
        break;
      }
      var equalI := FindChar(procString, '=');
      if equalI.None? || equalI.value < 1 || equalI.value + 2 > |procString| {
        return Err(MalformedAttributes);
      }
      var key := RemoveAll(procString[1..equalI.value], " ");
      procString := procString[equalI.value + 2..];
      var valueI := FindChar(procString, '"');
      if valueI.None? {
        return Err(MalformedAttributes);
      }
      var value := procString[..valueI.value];
      procString := procString[valueI.value..];
      result := result[key := value];
    }
    return Ok(result);
  }

  /**
   * `calculate_indentation`: the spaces before the first `<` of the line
   * (not only the leading ones), or 0 when there is no `<`.
   */
  function CalculateIndentation(line: string): (n: nat)
    ensures '<' !in line ==> n == 0
    ensures '<' in line ==> n <= FindChar(line, '<').value
  {
    match FindChar(line, '<')
    case Some(index) => CountChar(line[..index], ' ')
    case None => 0
  }

  /** The indentation is the number of spaces before the first `<`, wherever they stand. */
  lemma IndentationCountsSpaces(line: string)
    ensures '<' in line ==> CalculateIndentation(line) == multiset(line[..FindChar(line, '<').value])[' ']
  {
  }

  /**
   * Spaces after other text still count: `n` spaces, a word without `<`
   * or spaces, and `m` more spaces before the tag give indentation `n + m`.
   */
  lemma InnerSpacesCount(n: nat, w: string, m: nat, rest: string)
    requires '<' !in w && ' ' !in w
    ensures CalculateIndentation(Spaces(n) + w + Spaces(m) + "<" + rest) == n + m
  {
    var pre := Spaces(n) + w + Spaces(m);
    var line := pre + "<" + rest;
    assert line[|pre|] == '<';
    assert line[..|pre|] == pre;
    assert '<' !in pre;
    assert FindChar(line, '<') == Some(|pre|);
    CountSpaces(n);
    CountSpaces(m);
    assert multiset(pre) == multiset(Spaces(n)) + multiset(w) + multiset(Spaces(m));
    assert multiset(w)[' '] == 0;
  }

  /** A tag indented by `n` spaces has indentation `n`. */
  lemma IndentedTag(n: nat, rest: string)
    ensures CalculateIndentation(Spaces(n) + "<" + rest) == n
  {
    var line := Spaces(n) + "<" + rest;
    assert line[n] == '<';
    assert line[..n] == Spaces(n);
    CountSpaces(n);
  }
}
