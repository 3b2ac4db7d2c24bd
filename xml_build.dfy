/**
 * The tree builder: a line-by-line state machine over a stack of open
 * elements and a growing list of records, and the id index built from it.
 *
 * The behaviour is first given by functions on values (`LineStep`, `RunFrom`,
 * `Parse`); the methods, which work on `Node` objects in place as the
 * source does, are proved to produce exactly those values.
 */
module XmlBuild {
  import opened Wrappers
  import opened Text
  import opened TreeStruct
  import opened XmlProc

  /** An open element on the nesting stack: its name and its record's id. */
  datatype Entry = Entry(name: string, id: nat)

  /** The builder's state: the open elements, outermost first, and the records so far. */
  datatype Builder = Builder(stack: seq<Entry>, records: seq<Record>)

  /** A parse aborts at the first line the source would panic on. */
  datatype BuildError = BuildError(reason: ParseError, line: nat)

  /** `Vec::pop` with its result dropped: nothing happens on an empty stack. */
  function Pop(stack: seq<Entry>): seq<Entry>
  {
    if stack == [] then [] else stack[..|stack| - 1]
  }

  function Top(stack: seq<Entry>): Entry
    requires stack != []
  {
    stack[|stack| - 1]
  }

  // ---------------------------------------------------------------------
  // The steps, on values

  /**
   * The id `set_relation` looks for: the entry below the top when the top
   * is the new element itself and there is one below it, else the top.
   */
  function WantedId(stack: seq<Entry>, curId: nat): (r: Option<nat>)
    ensures r.None? <==> stack == []
    ensures r.Some? && r.value != Top(stack).id ==>
      |stack| > 1 && Top(stack).id == curId && r.value == stack[|stack| - 2].id
    ensures r.Some? && (|stack| == 1 || Top(stack).id != curId) ==> r.value == Top(stack).id
    ensures |stack| > 1 && Top(stack).id == curId ==> r == Some(stack[|stack| - 2].id)
  {
    if stack == [] then None
    else if |stack| > 1 && Top(stack).id == curId then Some(stack[|stack| - 2].id)
    else Some(Top(stack).id)
  }

  /** The index of the first record with the given id. */
  function FirstWithId(records: seq<Record>, id: nat): (r: Option<nat>)
    ensures r.Some? ==> r.value < |records| && records[r.value].id == id
    ensures r.Some? ==> forall j :: 0 <= j < r.value ==> records[j].id != id
    ensures r.None? ==> forall j :: 0 <= j < |records| ==> records[j].id != id
  {
    if records == [] then None
    else if records[0].id == id then Some(0)
    else match FirstWithId(records[1..], id)
      case None => None
      case Some(k) => Some(k + 1)
  }

  /**
   * `set_relation`: the first record with the wanted id gets the new id
   * appended to its children and becomes the new record's parent.
   */
  function Relation(stack: seq<Entry>, records: seq<Record>, cur: Record): (r: (seq<Record>, Record))
    ensures |r.0| == |records| && r.1 == cur.(parent := r.1.parent)
    ensures r.1.parent != cur.parent ==> r.1.parent == WantedId(stack, cur.id)
  {
    match WantedId(stack, cur.id)
    case None => (records, cur)
    case Some(wanted) =>
      match FirstWithId(records, wanted)
      case None => (records, cur)
      case Some(i) =>
        (records[i := records[i].(child := records[i].child + [cur.id])],
         cur.(parent := Some(records[i].id)))
  }

  /** `handle_inner_element`: the last record's inner text becomes the line without its indentation. */
  function InnerElementStep(records: seq<Record>, line: string): (r: seq<Record>)
    ensures |r| == |records| && forall i :: 0 <= i < |records| - 1 ==> r[i] == records[i]
    ensures records != [] ==> r[|r| - 1] == records[|records| - 1].(innerElement := TrimStart(line))
  {
    if records == [] then records
    else records[|records| - 1 := records[|records| - 1].(innerElement := TrimStart(line))]
  }

  /**
   * The opening branch of `process_node`, once the tag has been taken
   * apart: push the new element, pop it again for same-line text and once
   * more for `/>`, then make its record and link it to its parent.
   */
  function OpenElement(b: Builder, nodeName: string, lineRemaining: string, selfClosing: bool,
                       attributes: map<string, string>, indentation: nat, nodeId: nat): (r: Builder)
    ensures |r.records| == |b.records| + 1
    ensures r.records[|b.records|].id == nodeId && r.records[|b.records|].name == nodeName
  {
    var root := b.stack == [];
    var pushed := b.stack + [Entry(nodeName, nodeId)];
    var innerElement := if lineRemaining != [] then ExtractInnerElement(lineRemaining) else None;
    var once := if lineRemaining != [] then Pop(pushed) else pushed;
    var stack := if selfClosing then Pop(once) else once;
    var node := Record(nodeName, root, false, [], None, attributes,
                       innerElement.GetOr(""), indentation, nodeId);
    var (records, node') := Relation(stack, b.records, node);
    Builder(stack, records + [node'])
  }

  /** `process_node` on the builder's state. */
  function NodeStep(b: Builder, line: string, nodeId: nat): (r: Result<Builder, BuildError>)
    ensures r.Err? ==> r.error.line == nodeId
    ensures r.Ok? ==> |r.value.records| == |b.records| || |r.value.records| == |b.records| + 1
    ensures r.Ok? && |r.value.records| == |b.records| ==> r.value == Builder(Pop(b.stack), b.records)
  {
    var indentation := CalculateIndentation(line);
    var trimmedLine := TrimStart(line);
    match GetFirstTag(trimmedLine)
    case Err(e) => Err(BuildError(e, nodeId))
    case Ok(firstTag) =>
      var nodeName := FindName(firstTag);
      if b.stack != [] && Top(b.stack).name == nodeName then
        Ok(b.(stack := Pop(b.stack)))
      else
        match Attributes(TrimLine(RemoveAll(firstTag, nodeName)))
        case Err(e) => Err(BuildError(e, nodeId))
        case Ok(attributes) =>
          Ok(OpenElement(b, nodeName, RemoveAll(trimmedLine, firstTag), Contains(firstTag, "/>"),
                         attributes, indentation, nodeId))
  }

  /** One line of `process_line_list`: prolog, comment, bare text or tag, checked in that order. */
  function LineStep(b: Builder, line: string, id: nat): (r: Result<Builder, BuildError>)
    ensures r.Err? ==> r.error.line == id
    ensures r.Ok? ==> |b.records| <= |r.value.records| <= |b.records| + 1
  {
    if IsProlog(line) then Ok(b)
    else if IsComment(line) then Ok(b)
    else if IsNewlineInnerElement(line) then Ok(b.(records := InnerElementStep(b.records, line)))
    else NodeStep(b, line, id)
  }

  /**
   * The lines from index `i` on, each applied in order to the state by
   * `step` (with its own index): the final state, or the first line that
   * aborts the parse.
   */
  function RunFrom(step: (Builder, string, nat) -> Result<Builder, BuildError>,
                   lines: seq<string>, i: nat, b: Builder): Result<Builder, BuildError>
    requires i <= |lines|
    decreases |lines| - i
  {
    if i == |lines| then Ok(b)
    else match step(b, lines[i], i)
      case Err(e) => Err(e)
      case Ok(next) => RunFrom(step, lines, i + 1, next)
  }

  /** `process_line_list`: the records of the whole file. */
  function Parse(lines: seq<string>): (r: Result<seq<Record>, BuildError>)
    ensures r.Err? ==> r.error.line < |lines|
    ensures r.Ok? ==> |r.value| <= |lines|
  {
    RunFromBounds(LineStep, lines, 0, Builder([], []));
    match RunFrom(LineStep, lines, 0, Builder([], []))
    case Err(e) => Err(e)
    case Ok(b) => Ok(b.records)
  }

  /**
   * With a step that reports errors at its own line and adds at most one
   * record, a run aborts only at one of the remaining lines and adds at
   * most one record per line.
   */
  lemma {:induction false} RunFromBounds(step: (Builder, string, nat) -> Result<Builder, BuildError>,
                                         lines: seq<string>, i: nat, b: Builder)
    requires forall b', line, n: nat :: step(b', line, n).Err? ==> step(b', line, n).error.line == n
    requires forall b', line, n: nat :: step(b', line, n).Ok? ==> |step(b', line, n).value.records| <= |b'.records| + 1
    requires i <= |lines|
    ensures RunFrom(step, lines, i, b).Err? ==> i <= RunFrom(step, lines, i, b).error.line < |lines|
    ensures RunFrom(step, lines, i, b).Ok? ==> |RunFrom(step, lines, i, b).value.records| <= |b.records| + |lines| - i
    decreases |lines| - i
  {
    if i < |lines| {
      var next := step(b, lines[i], i);
      if next.Ok? {
        RunFromBounds(step, lines, i + 1, next.value);
      }
    }
  }

  // ---------------------------------------------------------------------
  // What one line does

  /** Prolog and comment lines leave the stack and the records as they are. */
  lemma MarkupLineIsIgnored(b: Builder, line: string, id: nat)
    requires IsProlog(line) || IsComment(line)
    ensures LineStep(b, line, id) == Ok(b)
  {
  }

  /**
   * A bare-text line gives the last record the line without its leading
   * whitespace as inner text; no other field and no other record changes,
   * and without records nothing happens.
   */
  lemma BareTextLine(b: Builder, line: string, id: nat)
    requires IsNewlineInnerElement(line)
    ensures LineStep(b, line, id).Ok?
    ensures var b' := LineStep(b, line, id).value;
      b'.stack == b.stack && |b'.records| == |b.records| &&
      (b.records == [] ==> b' == b) &&
      (b.records != [] ==>
         b'.records[|b.records| - 1] == b.records[|b.records| - 1].(innerElement := TrimStart(line)) &&
         forall i :: 0 <= i < |b.records| - 1 ==> b'.records[i] == b.records[i])
  {
    BareTextIsNotMarkup(line);
  }

  /** A line whose first tag cannot be cut out aborts the parse at that line. */
  lemma MalformedTagAborts(b: Builder, line: string, id: nat)
    requires GetFirstTag(TrimStart(line)).Err?
    ensures NodeStep(b, line, id) == Err(BuildError(GetFirstTag(TrimStart(line)).error, id))
  {
  }

  /** An opening tag whose attributes the scanner rejects aborts the parse at that line. */
  lemma MalformedAttributesAbort(b: Builder, line: string, id: nat, firstTag: string)
    requires GetFirstTag(TrimStart(line)) == Ok(firstTag)
    requires !(b.stack != [] && Top(b.stack).name == FindName(firstTag))
    requires Attributes(TrimLine(RemoveAll(firstTag, FindName(firstTag)))).Err?
    ensures NodeStep(b, line, id) ==
      Err(BuildError(Attributes(TrimLine(RemoveAll(firstTag, FindName(firstTag)))).error, id))
  {
  }

  /** A tag line whose name is that of the innermost open element closes it and makes no record. */
  lemma CloserPops(b: Builder, line: string, id: nat, firstTag: string)
    requires GetFirstTag(TrimStart(line)) == Ok(firstTag)
    requires b.stack != [] && Top(b.stack).name == FindName(firstTag)
    ensures NodeStep(b, line, id) == Ok(Builder(b.stack[..|b.stack| - 1], b.records))
  {
  }

  /** A tag line that does not close the innermost element opens one. */
  lemma NodeStepOpens(b: Builder, line: string, id: nat, firstTag: string)
    requires GetFirstTag(TrimStart(line)) == Ok(firstTag)
    requires !(b.stack != [] && Top(b.stack).name == FindName(firstTag))
    requires Attributes(TrimLine(RemoveAll(firstTag, FindName(firstTag)))).Ok?
    ensures NodeStep(b, line, id) ==
      Ok(OpenElement(b, FindName(firstTag), RemoveAll(TrimStart(line), firstTag), Contains(firstTag, "/>"),
                     Attributes(TrimLine(RemoveAll(firstTag, FindName(firstTag)))).value,
                     CalculateIndentation(line), id))
  {
  }

  /** `set_relation` keeps the number of records and changes the new record's parent only. */
  lemma RelationShape(stack: seq<Entry>, records: seq<Record>, cur: Record)
    ensures var (rs, c) := Relation(stack, records, cur);
      |rs| == |records| && c == cur.(parent := c.parent) &&
      forall i :: 0 <= i < |rs| ==> rs[i] == records[i].(child := rs[i].child)
    ensures cur.parent.None? ==>
      (Relation(stack, records, cur).1.parent.Some? <==>
       WantedId(stack, cur.id).Some? && WantedId(stack, cur.id).value in Ids(records))
    ensures cur.parent.None? && Relation(stack, records, cur).1.parent.None? ==>
      Relation(stack, records, cur) == (records, cur)
  {
    if cur.parent.None? && WantedId(stack, cur.id).Some? && WantedId(stack, cur.id).value in Ids(records) {
      var i :| 0 <= i < |records| && records[i].id == WantedId(stack, cur.id).value;
    }
  }

  /**
   * Any other tag line opens an element: exactly one record is appended,
   * with the line index as id, the root flag set iff nothing was open, the
   * tag's name, attributes and indentation, and the same-line text as
   * inner text. The element stays open unless the line has text after the
   * tag or a `/>`, which close it; when it has both, the enclosing element
   * is closed as well.
   */
  lemma OpenerAppendsRecord(b: Builder, line: string, id: nat, firstTag: string)
    requires GetFirstTag(TrimStart(line)) == Ok(firstTag)
    requires !(b.stack != [] && Top(b.stack).name == FindName(firstTag))
    requires Attributes(TrimLine(RemoveAll(firstTag, FindName(firstTag)))).Ok?
    ensures NodeStep(b, line, id).Ok?
    ensures var b' := NodeStep(b, line, id).value;
      var r := b'.records[|b.records|];
      var remaining := RemoveAll(TrimStart(line), firstTag);
      var selfClosing := Contains(firstTag, "/>");
      |b'.records| == |b.records| + 1 &&
      r.id == id && r.root == (b.stack == []) && !r.leaf && r.child == [] &&
      r.name == FindName(firstTag) &&
      r.attribute == Attributes(TrimLine(RemoveAll(firstTag, FindName(firstTag)))).value &&
      r.indentation == CalculateIndentation(line) &&
      r.innerElement == (if remaining != [] && ExtractInnerElement(remaining).Some?
                         then ExtractInnerElement(remaining).value else "") &&
      (remaining == [] && !selfClosing ==> b'.stack == b.stack + [Entry(r.name, id)]) &&
      ((remaining != []) != selfClosing ==> b'.stack == b.stack) &&
      (remaining != [] && selfClosing ==> b'.stack == Pop(b.stack))
  {
    var name := FindName(firstTag);
    var remaining := RemoveAll(TrimStart(line), firstTag);
    var selfClosing := Contains(firstTag, "/>");
    var attributes := Attributes(TrimLine(RemoveAll(firstTag, name))).value;
    OpenElementRecord(b, name, remaining, selfClosing, attributes, CalculateIndentation(line), id);
  }

  lemma OpenElementRecord(b: Builder, nodeName: string, lineRemaining: string, selfClosing: bool,
                          attributes: map<string, string>, indentation: nat, nodeId: nat)
    ensures var b' := OpenElement(b, nodeName, lineRemaining, selfClosing, attributes, indentation, nodeId);
      var r := b'.records[|b.records|];
      |b'.records| == |b.records| + 1 &&
      r.id == nodeId && r.root == (b.stack == []) && !r.leaf && r.child == [] &&
      r.name == nodeName && r.attribute == attributes && r.indentation == indentation &&
      r.innerElement == (if lineRemaining != [] && ExtractInnerElement(lineRemaining).Some?
                         then ExtractInnerElement(lineRemaining).value else "") &&
      (lineRemaining == [] && !selfClosing ==> b'.stack == b.stack + [Entry(nodeName, nodeId)]) &&
      ((lineRemaining != []) != selfClosing ==> b'.stack == b.stack) &&
      (lineRemaining != [] && selfClosing ==> b'.stack == Pop(b.stack))
  {
    var pushed := b.stack + [Entry(nodeName, nodeId)];
    var innerElement := if lineRemaining != [] then ExtractInnerElement(lineRemaining) else None;
    var once := if lineRemaining != [] then Pop(pushed) else pushed;
    var stack := if selfClosing then Pop(once) else once;
    var node := Record(nodeName, b.stack == [], false, [], None, attributes,
                       innerElement.GetOr(""), indentation, nodeId);
    RelationShape(stack, b.records, node);
    var rc := Relation(stack, b.records, node);
    assert (rc.0 + [rc.1])[|b.records|] == rc.1;
    assert Pop(pushed) == b.stack;
  }

  // ---------------------------------------------------------------------
  // What every prefix of the file builds

  /** The ids of the records. */
  function Ids(records: seq<Record>): set<nat>
  {
    set i | 0 <= i < |records| :: records[i].id
  }

  /** Record ids grow strictly along the list. */
  ghost predicate Increasing(records: seq<Record>)
  {
    forall i, j :: 0 <= i < j < |records| ==> records[i].id < records[j].id
  }

  /**
   * Parent and child links agree: a record names another as its parent
   * exactly when it is among that one's children. Every link points at a
   * record that exists, a parent comes earlier in the file than its child,
   * and a root has no parent.
   */
  ghost predicate Linked(rs: seq<Record>)
  {
    (forall i :: 0 <= i < |rs| && rs[i].parent.Some? ==>
       rs[i].parent.value in Ids(rs) && rs[i].parent.value < rs[i].id) &&
    (forall i, c :: 0 <= i < |rs| && c in rs[i].child ==> c in Ids(rs)) &&
    (forall i, j :: 0 <= i < |rs| && 0 <= j < |rs| ==>
       (rs[i].parent == Some(rs[j].id) <==> rs[i].id in rs[j].child)) &&
    (forall i :: 0 <= i < |rs| && rs[i].root ==> rs[i].parent.None?)
  }

  /**
   * The state after `n` lines: at most one record per line, ids below `n`
   * and increasing, every open element has its record, and the links agree.
   */
  ghost predicate WellFormed(b: Builder, n: nat)
  {
    |b.records| <= n && Increasing(b.records) &&
    (forall i :: 0 <= i < |b.records| ==> b.records[i].id < n) &&
    (forall k :: 0 <= k < |b.stack| ==> b.stack[k].id in Ids(b.records)) &&
    Linked(b.records)
  }

  lemma IdsAppend(records: seq<Record>, r: Record)
    ensures Ids(records + [r]) == Ids(records) + {r.id}
  {
    var all := records + [r];
    assert all[|records|] == r;
    forall x | x in Ids(all) ensures x in Ids(records) + {r.id} {
      var i :| 0 <= i < |all| && all[i].id == x;
      if i < |records| { assert all[i] == records[i]; }
    }
    forall x | x in Ids(records) ensures x in Ids(all) {
      var i :| 0 <= i < |records| && records[i].id == x;
      assert all[i] == records[i];
    }
  }

  lemma IdsBelow(records: seq<Record>, bound: nat)
    requires forall i :: 0 <= i < |records| ==> records[i].id < bound
    ensures forall x :: x in Ids(records) ==> x < bound
  {
  }

  /** A stack holding only the new element makes it look for itself. */
  lemma RootWantsItself(stack: seq<Entry>, curId: nat)
    ensures (forall k :: 0 <= k < |stack| ==> stack[k].id == curId) ==>
      WantedId(stack, curId).Some? ==> WantedId(stack, curId).value == curId
  {
  }

  lemma PopPrefix(stack: seq<Entry>)
    ensures |Pop(stack)| <= |stack| && forall k :: 0 <= k < |Pop(stack)| ==> Pop(stack)[k] == stack[k]
  {
  }

  /** Records that agree on ids, roots and links are linked alike. */
  lemma LinkedByShape(rs: seq<Record>, rs': seq<Record>)
    requires Linked(rs) && |rs| == |rs'|
    requires forall i :: 0 <= i < |rs| ==>
      rs'[i].id == rs[i].id && rs'[i].parent == rs[i].parent &&
      rs'[i].child == rs[i].child && rs'[i].root == rs[i].root
    ensures Linked(rs') && Ids(rs') == Ids(rs)
  {
    assert Ids(rs') == Ids(rs) by {
      forall x | x in Ids(rs) ensures x in Ids(rs') {
        var i :| 0 <= i < |rs| && rs[i].id == x;
        assert rs'[i].id == x;
      }
    }
  }

  /** The records once record `i` is made the parent of `cur` and `cur` is appended. */
  ghost function LinkedUnder(records: seq<Record>, cur: Record, i: nat): seq<Record>
    requires i < |records|
  {
    records[i := records[i].(child := records[i].child + [cur.id])] + [cur.(parent := Some(records[i].id))]
  }

  /** In `LinkedUnder`, a record names another as parent exactly when it is that one's child. */
  lemma LinkedUnderAgrees(records: seq<Record>, cur: Record, i: nat)
    requires Linked(records) && Increasing(records) && i < |records|
    requires forall k :: 0 <= k < |records| ==> records[k].id < cur.id
    requires cur.child == [] && cur.parent == None
    ensures var all := LinkedUnder(records, cur, i);
      forall x, y :: 0 <= x < |all| && 0 <= y < |all| ==>
        (all[x].parent == Some(all[y].id) <==> all[x].id in all[y].child)
  {
    var w := records[i].id;
    var c := cur.(parent := Some(w));
    var all := LinkedUnder(records, cur, i);
    var n := |records|;
    IdsBelow(records, cur.id);
    forall x, y | 0 <= x < |all| && 0 <= y < |all|
      ensures all[x].parent == Some(all[y].id) <==> all[x].id in all[y].child
    {
      if x < n && y < n {
        assert all[x].parent == records[x].parent && all[y].id == records[y].id;
        assert cur.id != records[x].id;
        if y == i {
          assert all[y].child == records[i].child + [cur.id];
        } else {
          assert all[y].child == records[y].child;
        }
      } else if x < n {
        assert all[y] == c;
        if records[x].parent.Some? { assert records[x].parent.value in Ids(records); }
      } else if y < n {
        assert all[x] == c;
        if y != i {
          assert records[y].id != w by { if y < i { } else { } }
          assert all[y].child == records[y].child;
          forall ch | ch in records[y].child ensures ch < cur.id { assert ch in Ids(records); }
        } else {
          assert all[y].child == records[i].child + [cur.id];
        }
      } else {
        assert all[x] == c && all[y] == c;
      }
    }
  }

  /**
   * Making record `i` the parent of a new unlinked, non-root record with a
   * larger id than all others keeps the links in agreement.
   */
  lemma LinkedAfterLink(records: seq<Record>, cur: Record, i: nat)
    requires Linked(records) && Increasing(records) && i < |records|
    requires forall k :: 0 <= k < |records| ==> records[k].id < cur.id
    requires cur.child == [] && cur.parent == None && !cur.root
    ensures Linked(LinkedUnder(records, cur, i))
  {
    var rs := records[i := records[i].(child := records[i].child + [cur.id])];
    var c := cur.(parent := Some(records[i].id));
    var all := LinkedUnder(records, cur, i);
    var n := |records|;
    IdsBelow(records, cur.id);
    assert Ids(rs) == Ids(records) by {
      forall x | x in Ids(records) ensures x in Ids(rs) {
        var k :| 0 <= k < n && records[k].id == x;
        assert rs[k].id == x;
      }
    }
    IdsAppend(rs, c);
    LinkedUnderAgrees(records, cur, i);
    forall x | 0 <= x < |all| && all[x].parent.Some?
      ensures all[x].parent.value in Ids(all) && all[x].parent.value < all[x].id
    {
      if x < n { assert all[x].parent == records[x].parent; }
    }
    forall x, ch | 0 <= x < |all| && ch in all[x].child ensures ch in Ids(all) {
      if x < n && x != i { assert all[x].child == records[x].child; }
      else if x == i { assert ch in records[i].child || ch == cur.id; }
    }
    forall x | 0 <= x < |all| && all[x].root ensures all[x].parent.None? {
      if x < n { assert all[x].root == records[x].root && all[x].parent == records[x].parent; }
    }
  }

  /**
   * Linking a new record (no children, no parent yet, a larger id than all
   * others) keeps the links in agreement.
   */
  lemma RelationKeepsLinked(stack: seq<Entry>, records: seq<Record>, cur: Record)
    requires Linked(records) && Increasing(records)
    requires forall i :: 0 <= i < |records| ==> records[i].id < cur.id
    requires cur.child == [] && cur.parent == None
    requires forall k :: 0 <= k < |stack| ==> stack[k].id in Ids(records) || stack[k].id == cur.id
    requires cur.root ==> forall k :: 0 <= k < |stack| ==> stack[k].id == cur.id
    ensures Linked(Relation(stack, records, cur).0 + [Relation(stack, records, cur).1])
    ensures Ids(Relation(stack, records, cur).0) == Ids(records)
  {
    RelationShape(stack, records, cur);
    var (rs, c) := Relation(stack, records, cur);
    assert Ids(rs) == Ids(records) by {
      forall x | x in Ids(records) ensures x in Ids(rs) {
        var i :| 0 <= i < |records| && records[i].id == x;
        assert rs[i].id == x;
      }
    }
    var found := match WantedId(stack, cur.id)
      case None => None
      case Some(w) => FirstWithId(records, w);
    if found.None? {
      assert rs == records && c == cur;
      LinkedAppend(records, cur);
    } else {
      RootWantsItself(stack, cur.id);
      LinkedAfterLink(records, cur, found.value);
    }
  }

  /** Appending a fresh unlinked record with a new id keeps the links in agreement. */
  lemma LinkedAppend(records: seq<Record>, cur: Record)
    requires Linked(records)
    requires forall i :: 0 <= i < |records| ==> records[i].id < cur.id
    requires cur.child == [] && cur.parent == None
    ensures Linked(records + [cur])
  {
    var all := records + [cur];
    var n := |records|;
    IdsBelow(records, cur.id);
    IdsAppend(records, cur);
    forall x, y | 0 <= x < |all| && 0 <= y < |all|
      ensures all[x].parent == Some(all[y].id) <==> all[x].id in all[y].child
    {
      if x < n && y == n {
        if records[x].parent.Some? { assert records[x].parent.value in Ids(records); }
      } else if x == n && y < n {
        forall ch | ch in records[y].child ensures ch < cur.id { assert ch in Ids(records); }
      }
    }
  }

  /** The stack after an opening line is a prefix of the stack with the new element pushed. */
  lemma OpenedStack(stack: seq<Entry>, entry: Entry, lineRemaining: string, selfClosing: bool)
    ensures var pushed := stack + [entry];
      var once := if lineRemaining != [] then Pop(pushed) else pushed;
      var stack' := if selfClosing then Pop(once) else once;
      |stack'| <= |pushed| && forall k :: 0 <= k < |stack'| ==> stack'[k] == pushed[k]
  {
    var pushed := stack + [entry];
    PopPrefix(pushed);
    var once := if lineRemaining != [] then Pop(pushed) else pushed;
    PopPrefix(once);
  }

  /** Linking and appending a new record keeps the state well formed. */
  lemma RelationKeepsWellFormed(b: Builder, stack: seq<Entry>, node: Record, n: nat)
    requires WellFormed(b, n)
    requires node.id == n && node.child == [] && node.parent == None
    requires forall k :: 0 <= k < |stack| ==> stack[k].id in Ids(b.records) || stack[k].id == n
    requires node.root ==> forall k :: 0 <= k < |stack| ==> stack[k].id == n
    ensures WellFormed(Builder(stack, Relation(stack, b.records, node).0 + [Relation(stack, b.records, node).1]), n + 1)
  {
    RelationShape(stack, b.records, node);
    var (rs, c) := Relation(stack, b.records, node);
    var all := rs + [c];
    assert Linked(all) && Ids(rs) == Ids(b.records) by {
      RelationKeepsLinked(stack, b.records, node);
    }
    IdsAppend(rs, c);
    IncreasingAppend(b.records, rs, c);
    assert forall k :: 0 <= k < |stack| ==> stack[k].id in Ids(all);
  }

  /** Records with the same ids as an increasing list, followed by a larger id, are increasing. */
  lemma IncreasingAppend(records: seq<Record>, rs: seq<Record>, c: Record)
    requires Increasing(records) && |rs| == |records|
    requires forall i :: 0 <= i < |rs| ==> rs[i].id == records[i].id && records[i].id < c.id
    ensures Increasing(rs + [c]) && forall i :: 0 <= i < |rs + [c]| ==> (rs + [c])[i].id <= c.id
  {
    var all := rs + [c];
    forall i, j | 0 <= i < j < |all| ensures all[i].id < all[j].id {
      if j < |rs| { assert all[i].id == records[i].id && all[j].id == records[j].id; }
      else { assert all[i].id == records[i].id; }
    }
    forall i | 0 <= i < |all| ensures all[i].id <= c.id {
      if i < |rs| { assert all[i].id == records[i].id; }
    }
  }

  /** Opening an element keeps the state well formed. */
  lemma OpenElementKeepsWellFormed(b: Builder, nodeName: string, lineRemaining: string, selfClosing: bool,
                                   attributes: map<string, string>, indentation: nat, n: nat)
    requires WellFormed(b, n)
    ensures WellFormed(OpenElement(b, nodeName, lineRemaining, selfClosing, attributes, indentation, n), n + 1)
  {
    var pushed := b.stack + [Entry(nodeName, n)];
    var innerElement := if lineRemaining != [] then ExtractInnerElement(lineRemaining) else None;
    var once := if lineRemaining != [] then Pop(pushed) else pushed;
    var stack := if selfClosing then Pop(once) else once;
    var node := Record(nodeName, b.stack == [], false, [], None, attributes,
                       innerElement.GetOr(""), indentation, n);
    OpenedStack(b.stack, Entry(nodeName, n), lineRemaining, selfClosing);
    assert forall k :: 0 <= k < |stack| ==> stack[k] == pushed[k];
    RelationKeepsWellFormed(b, stack, node, n);
  }

  /** The state a result carries, if any, is well formed. */
  ghost predicate WellFormedIfOk(r: Result<Builder, BuildError>, n: nat)
  {
    r.Ok? ==> WellFormed(r.value, n)
  }

  /** Every tag line keeps the state well formed. */
  lemma NodeStepKeepsWellFormed(b: Builder, line: string, n: nat)
    requires WellFormed(b, n)
    ensures WellFormedIfOk(NodeStep(b, line, n), n + 1)
  {
    match GetFirstTag(TrimStart(line))
    case Err(_) =>
    case Ok(firstTag) =>
      var nodeName := FindName(firstTag);
      if b.stack != [] && Top(b.stack).name == nodeName {
        PopPrefix(b.stack);
      } else {
        match Attributes(TrimLine(RemoveAll(firstTag, nodeName)))
        case Err(_) =>
        case Ok(attributes) =>
          OpenElementKeepsWellFormed(b, nodeName, RemoveAll(TrimStart(line), firstTag),
                                     Contains(firstTag, "/>"), attributes, CalculateIndentation(line), n);
      }
  }

  /** Every line keeps the state well formed. */
  lemma LineStepKeepsWellFormed(b: Builder, line: string, n: nat)
    requires WellFormed(b, n)
    ensures WellFormedIfOk(LineStep(b, line, n), n + 1)
  {
    if IsProlog(line) || IsComment(line) {
    } else if IsNewlineInnerElement(line) {
      LinkedByShape(b.records, InnerElementStep(b.records, line));
    } else {
      NodeStepKeepsWellFormed(b, line, n);
    }
  }

  /**
   * Running the remaining lines from a well-formed state, with a step that
   * keeps states well formed, ends well formed or aborts.
   */
  lemma {:induction false} RunFromWellFormed(step: (Builder, string, nat) -> Result<Builder, BuildError>,
                                             lines: seq<string>, i: nat, b: Builder)
    requires forall b', line, n: nat :: WellFormed(b', n) ==> WellFormedIfOk(step(b', line, n), n + 1)
    requires i <= |lines| && WellFormed(b, i)
    ensures WellFormedIfOk(RunFrom(step, lines, i, b), |lines|)
    decreases |lines| - i
  {
    if i < |lines| {
      var next := step(b, lines[i], i);
      if next.Ok? {
        RunFromWellFormed(step, lines, i + 1, next.value);
      }
    }
  }

  /**
   * A finished parse has at most one record per line, ids that are line
   * indices in increasing order, and parent and child links that agree.
   */
  lemma ParseWellFormed(lines: seq<string>)
    ensures Parse(lines).Ok? ==>
      var rs := Parse(lines).value;
      |rs| <= |lines| && Increasing(rs) &&
      (forall i :: 0 <= i < |rs| ==> rs[i].id < |lines|) &&
      Linked(rs)
  {
    forall b, line, n: nat | WellFormed(b, n) ensures WellFormedIfOk(LineStep(b, line, n), n + 1) {
      LineStepKeepsWellFormed(b, line, n);
    }
    RunFromWellFormed(LineStep, lines, 0, Builder([], []));
  }

  /**
   * When the stack names a record, exactly one record changes: the first
   * with that id becomes the parent and gets the new id as last child.
   */
  lemma RelationLinksTo(stack: seq<Entry>, records: seq<Record>, cur: Record, w: nat)
    requires WantedId(stack, cur.id) == Some(w) && w in Ids(records)
    ensures var (rs, c) := Relation(stack, records, cur);
      |rs| == |records| && c == cur.(parent := Some(w)) &&
      exists i :: 0 <= i < |records| && records[i].id == w &&
        (forall j :: 0 <= j < i ==> records[j].id != w) &&
        rs[i] == records[i].(child := records[i].child + [cur.id]) &&
        forall j :: 0 <= j < |records| && j != i ==> rs[j] == records[j]
  {
    var i := FirstWithId(records, w).value;
    assert records[i].id == w;
  }

  /** The stack `OpenElement` links with, when the new element stays open or is closed only once. */
  lemma NestedStack(stack: seq<Entry>, entry: Entry, lineRemaining: string, selfClosing: bool)
    requires stack != [] && (lineRemaining == [] || !selfClosing) && Top(stack).id < entry.id
    ensures var pushed := stack + [entry];
      var once := if lineRemaining != [] then Pop(pushed) else pushed;
      var stack' := if selfClosing then Pop(once) else once;
      WantedId(stack', entry.id) == Some(Top(stack).id)
  {
    assert Pop(stack + [entry]) == stack;
  }

  /**
   * When the new element stays open or is closed only once, the element
   * innermost before it becomes its parent, and that record gets it as
   * last child.
   */
  lemma NestedOpen(b: Builder, nodeName: string, lineRemaining: string, selfClosing: bool,
                   attributes: map<string, string>, indentation: nat, n: nat)
    requires WellFormed(b, n) && b.stack != []
    requires lineRemaining == [] || !selfClosing
    ensures var rs := OpenElement(b, nodeName, lineRemaining, selfClosing, attributes, indentation, n).records;
      |rs| == |b.records| + 1 && rs[|b.records|].parent == Some(Top(b.stack).id) &&
      exists i :: 0 <= i < |b.records| && b.records[i].id == Top(b.stack).id &&
                  rs[i].child == b.records[i].child + [n]
  {
    var pushed := b.stack + [Entry(nodeName, n)];
    var innerElement := if lineRemaining != [] then ExtractInnerElement(lineRemaining) else None;
    var once := if lineRemaining != [] then Pop(pushed) else pushed;
    var stack := if selfClosing then Pop(once) else once;
    assert Top(b.stack).id in Ids(b.records);
    IdsBelow(b.records, n);
    NestedStack(b.stack, Entry(nodeName, n), lineRemaining, selfClosing);
    var node := Record(nodeName, false, false, [], None, attributes, innerElement.GetOr(""), indentation, n);
    RelationLinksTo(stack, b.records, node, Top(b.stack).id);
    var (rs, c) := Relation(stack, b.records, node);
    assert OpenElement(b, nodeName, lineRemaining, selfClosing, attributes, indentation, n).records == rs + [c];
    assert forall k :: 0 <= k < |rs| ==> (rs + [c])[k] == rs[k];
  }

  /**
   * An element opened inside another gets as parent the element that was
   * innermost when its line was read, and that record gets it as last
   * child, unless the line both carries text and a `/>`.
   */
  lemma NestedParent(b: Builder, line: string, n: nat, firstTag: string)
    requires WellFormed(b, n)
    requires GetFirstTag(TrimStart(line)) == Ok(firstTag)
    requires b.stack != [] && Top(b.stack).name != FindName(firstTag)
    requires Attributes(TrimLine(RemoveAll(firstTag, FindName(firstTag)))).Ok?
    requires RemoveAll(TrimStart(line), firstTag) == [] || !Contains(firstTag, "/>")
    ensures NodeStep(b, line, n).Ok?
    ensures var rs := NodeStep(b, line, n).value.records;
      |rs| == |b.records| + 1 && rs[|b.records|].parent == Some(Top(b.stack).id) &&
      exists i :: 0 <= i < |b.records| && b.records[i].id == Top(b.stack).id &&
                  rs[i].child == b.records[i].child + [n]
  {
    NodeStepOpens(b, line, n, firstTag);
    NestedOpen(b, FindName(firstTag), RemoveAll(TrimStart(line), firstTag), Contains(firstTag, "/>"),
               Attributes(TrimLine(RemoveAll(firstTag, FindName(firstTag)))).value,
               CalculateIndentation(line), n);
  }
}
