/**
 * `process_line_list` and its helpers as the source runs them: a loop over
 * the lines that threads the stack of open elements and a list of `Node`
 * objects, changing one node at a time in place, and the id index built
 * from the finished list. Each method is proved to produce the values of
 * the step functions of `XmlBuild`.
 */
module TreeBuilder {
  import opened Wrappers
  import opened Text
  import opened TreeStruct
  import opened XmlProc
  import opened XmlBuild

  /** The values of a list of nodes. */
  function Snapshot(nodes: seq<Node>): (r: seq<Record>)
    reads nodes
    ensures |r| == |nodes| && forall i {:trigger r[i]} :: 0 <= i < |nodes| ==> r[i] == nodes[i].Value()
  {
    seq(|nodes|, i reads nodes requires 0 <= i < |nodes| => nodes[i].Value())
  }

  /** No node occurs twice in the list (the vector owns its nodes). */
  predicate Distinct(nodes: seq<Node>)
  {
    forall i, j :: 0 <= i < j < |nodes| ==> nodes[i] != nodes[j]
  }

  /** `handle_inner_element`: a bare-text line becomes the last node's inner text. */
  method HandleInnerElement(line: string, allNodes: seq<Node>)
    requires Distinct(allNodes)
    modifies allNodes
    ensures Snapshot(allNodes) == InnerElementStep(old(Snapshot(allNodes)), line)
  {
    ghost var before := Snapshot(allNodes);
    if |allNodes| > 0 {
      var parentNode := allNodes[|allNodes| - 1];
      var innerText := TrimStart(line);
      parentNode.SetInnerElement(innerText);
      assert Snapshot(allNodes) == InnerElementStep(before, line) by {
        ghost var after := Snapshot(allNodes);
        forall i | 0 <= i < |before| - 1 ensures after[i] == before[i] {
          assert allNodes[i] != parentNode;
        }
        assert after[|before| - 1] == parentNode.Value();
        assert before[|before| - 1] == old(parentNode.Value());
        LastUpdated(before, after, before[|before| - 1].(innerElement := innerText));
      }
    }
  }

  /** Two lists that agree except at the last index: the second is the first with that one replaced. */
  lemma LastUpdated(before: seq<Record>, after: seq<Record>, x: Record)
    requires |after| == |before| > 0
    requires forall i :: 0 <= i < |before| - 1 ==> after[i] == before[i]
    requires after[|before| - 1] == x
    ensures after == before[|before| - 1 := x]
  {
  }

  /**
   * `set_relation`: finds the parent's id on the stack, then the first
   * node with that id, and links the two in both directions.
   */
  method SetRelation(processingNodes: seq<Entry>, allNodes: seq<Node>, currentNode: Node)
    requires Distinct(allNodes) && currentNode !in allNodes
    modifies allNodes, currentNode
    ensures Snapshot(allNodes) == Relation(processingNodes, old(Snapshot(allNodes)), old(currentNode.Value())).0
    ensures currentNode.Value() == Relation(processingNodes, old(Snapshot(allNodes)), old(currentNode.Value())).1
  {
    var wantedId: nat := 0;
    if processingNodes == [] {
      return;
    }
    var aNode := processingNodes[|processingNodes| - 1];
    if |processingNodes| > 1 && aNode.id == currentNode.GetId() {
      wantedId := processingNodes[|processingNodes| - 2].id;
    } else {
      wantedId := aNode.id;
    }
    assert WantedId(processingNodes, currentNode.id) == Some(wantedId);
    ghost var records := Snapshot(allNodes);
    for i := 0 to |allNodes|
      invariant forall j :: 0 <= j < i ==> records[j].id != wantedId
      invariant Snapshot(allNodes) == records && currentNode.Value() == old(currentNode.Value())
    {
      var node := allNodes[i];
      if node.GetId() == wantedId {
        assert FirstWithId(records, wantedId) == Some(i) by {
          FirstWithIdIs(records, wantedId, i);
        }
        currentNode.SetParent(node.GetId());
        node.SetChild(currentNode.GetId());
        assert forall j :: 0 <= j < |allNodes| && j != i ==> allNodes[j] != node;
        return;
      }
    }
  }

  /** The first index with the given id is the one before which no record has it. */
  lemma FirstWithIdIs(records: seq<Record>, id: nat, i: nat)
    requires i < |records| && records[i].id == id
    requires forall j :: 0 <= j < i ==> records[j].id != id
    ensures FirstWithId(records, id) == Some(i)
  {
  }

  /**
   * `process_node`: a tag line either closes the innermost open element or
   * opens a new one, whose node is linked to its parent and appended.
   * Nothing changes when the line aborts the parse.
   */
  method ProcessNode(line: string, processingNodes: seq<Entry>, allNodes: seq<Node>, nodeId: nat)
      returns (r: Result<(seq<Entry>, seq<Node>), BuildError>)
    requires Distinct(allNodes)
    modifies allNodes
    ensures var spec := NodeStep(Builder(processingNodes, old(Snapshot(allNodes))), line, nodeId);
      (r.Ok? <==> spec.Ok?) &&
      (r.Err? ==> r.error == spec.error && Snapshot(allNodes) == old(Snapshot(allNodes))) &&
      (r.Ok? ==> r.value.0 == spec.value.stack && Snapshot(r.value.1) == spec.value.records)
    ensures r.Ok? ==> Distinct(r.value.1) && allNodes <= r.value.1 && |r.value.1| <= |allNodes| + 1
    ensures r.Ok? ==> forall k :: |allNodes| <= k < |r.value.1| ==> fresh(r.value.1[k])
  {
    ghost var b := Builder(processingNodes, Snapshot(allNodes));
    var trimmedLine := TrimStart(line);
    var firstTag := GetFirstTag(trimmedLine);
    if firstTag.Err? {
      MalformedTagAborts(b, line, nodeId);
      return Err(BuildError(firstTag.error, nodeId));
    }
    var nodeName := FindName(firstTag.value);
    if processingNodes != [] {
      var current := processingNodes[|processingNodes| - 1];
      if current.name == nodeName {
        CloserPops(b, line, nodeId, firstTag.value);
        return Ok((processingNodes[..|processingNodes| - 1], allNodes));
      }
    }
    r := OpenNode(line, processingNodes, allNodes, nodeId, firstTag.value);
  }

  /**
   * The opening branch of `process_node`: push the element, read its
   * attributes, and make, link and append its node.
   */
  method OpenNode(line: string, processingNodes: seq<Entry>, allNodes: seq<Node>, nodeId: nat, firstTag: string)
      returns (r: Result<(seq<Entry>, seq<Node>), BuildError>)
    requires Distinct(allNodes)
    requires GetFirstTag(TrimStart(line)) == Ok(firstTag)
    requires !(processingNodes != [] && Top(processingNodes).name == FindName(firstTag))
    modifies allNodes
    ensures var spec := NodeStep(Builder(processingNodes, old(Snapshot(allNodes))), line, nodeId);
      (r.Ok? <==> spec.Ok?) &&
      (r.Err? ==> r.error == spec.error && Snapshot(allNodes) == old(Snapshot(allNodes))) &&
      (r.Ok? ==> r.value.0 == spec.value.stack && Snapshot(r.value.1) == spec.value.records)
    ensures r.Ok? ==> Distinct(r.value.1) && allNodes <= r.value.1 && |r.value.1| <= |allNodes| + 1
    ensures r.Ok? ==> forall k :: |allNodes| <= k < |r.value.1| ==> fresh(r.value.1[k])
  {
    ghost var b := Builder(processingNodes, Snapshot(allNodes));
    var indentation := CalculateIndentation(line);
    var nodeName := FindName(firstTag);
    var root := processingNodes == [];
    var stack := processingNodes + [Entry(nodeName, nodeId)];
    var lineRemaining := RemoveAll(TrimStart(line), firstTag);
    var trimedFirstTag := TrimLine(RemoveAll(firstTag, nodeName));
    var attributes := FindAttributes(trimedFirstTag);
    if attributes.Err? {
      MalformedAttributesAbort(b, line, nodeId, firstTag);
      return Err(BuildError(attributes.error, nodeId));
    }
    NodeStepOpens(b, line, nodeId, firstTag);
    var stack', nodes := FinishNode(stack, allNodes, nodeName, root, lineRemaining,
                                    Contains(firstTag, "/>"), attributes.value, indentation, nodeId,
                                    processingNodes);
    return Ok((stack', nodes));
  }

  /**
   * The rest of `process_node` once the new element is pushed: pop it for
   * same-line text and again for `/>`, make its node, link it and append it.
   */
  method FinishNode(processingNodes: seq<Entry>, allNodes: seq<Node>, nodeName: string, root: bool,
                    lineRemaining: string, selfClosing: bool, attributes: map<string, string>,
                    indentation: nat, nodeId: nat, ghost before: seq<Entry>)
      returns (stack: seq<Entry>, nodes: seq<Node>)
    requires Distinct(allNodes)
    requires processingNodes == before + [Entry(nodeName, nodeId)] && root == (before == [])
    modifies allNodes
    ensures Builder(stack, Snapshot(nodes)) ==
      OpenElement(Builder(before, old(Snapshot(allNodes))), nodeName, lineRemaining, selfClosing,
                  attributes, indentation, nodeId)
    ensures Distinct(nodes) && allNodes <= nodes && |nodes| == |allNodes| + 1
    ensures forall k :: |allNodes| <= k < |nodes| ==> fresh(nodes[k])
  {
    var innerElement: Option<string> := None;
    stack := processingNodes;
    if lineRemaining != [] {
      innerElement := ExtractInnerElement(lineRemaining);
      stack := Pop(stack);
    }
    if selfClosing {
      stack := Pop(stack);
    }
    var node := new Node(nodeName, root, false, attributes, innerElement, Some(indentation), nodeId);
    assert node.Value() == Record(nodeName, root, false, [], None, attributes,
                                  innerElement.GetOr(""), indentation, nodeId);
    SetRelation(stack, allNodes, node);
    nodes := allNodes + [node];
    assert Snapshot(nodes) == Snapshot(allNodes) + [node.Value()];
  }

  /**
   * One pass of `process_line_list`'s loop: the line is dispatched as
   * prolog, comment, bare text or tag, with the effect `LineStep` gives it.
   */
  method ProcessLine(line: string, processingNodes: seq<Entry>, allNodes: seq<Node>, id: nat)
      returns (r: Result<(seq<Entry>, seq<Node>), BuildError>)
    requires Distinct(allNodes)
    modifies allNodes
    ensures var spec := LineStep(Builder(processingNodes, old(Snapshot(allNodes))), line, id);
      (r.Ok? <==> spec.Ok?) && (r.Err? ==> r.error == spec.error) &&
      (r.Ok? ==> spec.value == Builder(r.value.0, Snapshot(r.value.1)))
    ensures r.Ok? ==> Distinct(r.value.1) && allNodes <= r.value.1 && |r.value.1| <= |allNodes| + 1
    ensures r.Ok? ==> forall k :: |allNodes| <= k < |r.value.1| ==> fresh(r.value.1[k])
  {
    if IsProlog(line) {
      HandleProlog(line);
      r := Ok((processingNodes, allNodes));
    } else if IsComment(line) {
      HandleComment(line);
      r := Ok((processingNodes, allNodes));
    } else if IsNewlineInnerElement(line) {
      HandleInnerElement(line, allNodes);
      r := Ok((processingNodes, allNodes));
    } else {
      r := ProcessNode(line, processingNodes, allNodes, id);
    }
  }

  /**
   * `process_line_list`: every line in order; the nodes of the whole file,
   * or the first line that aborts the parse.
   */
  method ProcessLineList(lines: seq<string>) returns (r: Result<seq<Node>, BuildError>)
    ensures r.Ok? <==> Parse(lines).Ok?
    ensures r.Ok? ==> Snapshot(r.value) == Parse(lines).value && Distinct(r.value)
    ensures r.Err? ==> r.error == Parse(lines).error
  {
    var processingNodes: seq<Entry> := [];
    var allNodes: seq<Node> := [];
    for id := 0 to |lines|
      invariant RunFrom(LineStep, lines, id, Builder(processingNodes, Snapshot(allNodes))) ==
                RunFrom(LineStep, lines, 0, Builder([], []))
      invariant Distinct(allNodes)
      invariant forall k :: 0 <= k < |allNodes| ==> fresh(allNodes[k])
    {
      var outcome := ProcessLine(lines[id], processingNodes, allNodes, id);
      if outcome.Err? {
        return Err(outcome.error);
      }
      processingNodes, allNodes := outcome.value.0, outcome.value.1;
    }
    return Ok(allNodes);
  }

  /** `handle_prolog`: the source only logs the line. */
  method HandleProlog(line: string)
  {
  }

  /** `handle_comment`: the source only logs the line. */
  method HandleComment(line: string)
  {
  }

  /**
   * `tree_id_to_node`: maps every node's id to the node. Later nodes win
   * for a repeated id; an id no node has is absent.
   */
  method TreeIdToNode(allNodes: seq<Node>) returns (result: map<nat, Node>)
    ensures forall k :: k in result <==> exists i :: 0 <= i < |allNodes| && allNodes[i].id == k
    ensures forall i :: 0 <= i < |allNodes| ==>
      (forall j :: i < j < |allNodes| ==> allNodes[j].id != allNodes[i].id) ==>
        result[allNodes[i].id] == allNodes[i]
    ensures forall k :: k in result ==> result[k] in allNodes && result[k].id == k
  {
    result := map[];
    for i := 0 to |allNodes|
      invariant forall k :: k in result <==> exists j :: 0 <= j < i && allNodes[j].id == k
      invariant forall j :: 0 <= j < i ==>
        (forall l :: j < l < i ==> allNodes[l].id != allNodes[j].id) ==>
          result[allNodes[j].id] == allNodes[j]
      invariant forall k :: k in result ==> result[k] in allNodes[..i] && result[k].id == k
    {
      var node := allNodes[i];
      result := result[node.GetId() := node];
    }
  }
}
