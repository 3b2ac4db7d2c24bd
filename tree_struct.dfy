/** The element record of the tree: one `Node` per opened element. */
module TreeStruct {
  import opened Wrappers

  /** The value of a `Node` at one moment: all of its fields. */
  datatype Record = Record(
    name: string,
    root: bool,
    leaf: bool,
    child: seq<nat>,
    parent: Option<nat>,
    attribute: map<string, string>,
    innerElement: string,
    indentation: nat,
    id: nat)

  class Node {
    var name: string
    var root: bool
    var leaf: bool
    var child: seq<nat>
    var parent: Option<nat>
    var attribute: map<string, string>
    var innerElement: string
    var indentation: nat
    var id: nat

    /** All fields of this node, as a value. */
    function Value(): Record
      reads this
    {
      Record(name, root, leaf, child, parent, attribute, innerElement, indentation, id)
    }

    /**
     * `Node::new`: no children and no parent yet; a missing inner text is
     * the empty string and a missing indentation is 0.
     */
    constructor (name: string, root: bool, leaf: bool, attribute: map<string, string>,
                 innerElement: Option<string>, indentation: Option<nat>, id: nat)
      ensures GetChild() == [] && GetParent() == None
      ensures GetInnerElement() == (if innerElement.Some? then innerElement.value else "")
      ensures GetIndentation() == (if indentation.Some? then indentation.value else 0)
      ensures GetName() == name && IsRoot() == root && IsLeaf() == leaf
      ensures GetAllAttributes() == attribute && GetId() == id
    {
      this.name := name;
      this.root := root;
      this.leaf := leaf;
      this.child := [];
      this.parent := None;
      this.attribute := attribute;
      this.innerElement := innerElement.GetOr("");
      this.indentation := indentation.GetOr(0);
      this.id := id;
    }

    /** Overwrites the inner text and nothing else. */
    method SetInnerElement(innerElement: string)
      modifies this
      ensures GetInnerElement() == innerElement
      ensures Value() == old(Value()).(innerElement := innerElement)
    {
      this.innerElement := innerElement;
    }

    function GetInnerElement(): (r: string)
      reads this
      ensures r == Value().innerElement
    {
      innerElement
    }

    /** The value stored under `k`, or the error message naming the missing key. */
    function GetAttributeValue(k: string): (r: Result<string, string>)
      reads this
      ensures r.Ok? <==> k in attribute
      ensures r.Ok? ==> r.value == attribute[k]
      ensures r.Err? ==> r.error == "No such key: " + k + " present"
    {
      if k in attribute then Ok(attribute[k]) else Err("No such key: " + k + " present")
    }

    function GetAllAttributes(): (r: map<string, string>)
      reads this
      ensures r == Value().attribute
    {
      attribute
    }

    /** Appends `childId` after the children already recorded; nothing else changes. */
    method SetChild(childId: nat)
      modifies this
      ensures GetChild() == old(GetChild()) + [childId]
      ensures Value() == old(Value()).(child := old(child) + [childId])
    {
      child := child + [childId];
    }

    function GetChild(): (r: seq<nat>)
      reads this
      ensures r == Value().child
    {
      child
    }

    /** Records `parentId` as the parent; nothing else changes. */
    method SetParent(parentId: nat)
      modifies this
      ensures GetParent() == Some(parentId)
      ensures Value() == old(Value()).(parent := Some(parentId))
    {
      parent := Some(parentId);
    }

    function GetParent(): (r: Option<nat>)
      reads this
      ensures r == Value().parent
    {
      parent
    }

    function GetName(): (r: string)
      reads this
      ensures r == Value().name
    {
      name
    }

    function IsRoot(): (r: bool)
      reads this
      ensures r == Value().root
    {
      root
    }

    function IsLeaf(): (r: bool)
      reads this
      ensures r == Value().leaf
    {
      leaf
    }

    function GetIndentation(): (r: nat)
      reads this
      ensures r == Value().indentation
    {
      indentation
    }

    /** Overwrites the indentation and nothing else. */
    method SetIndentation(amount: nat)
      modifies this
      ensures GetIndentation() == amount
      ensures Value() == old(Value()).(indentation := amount)
    {
      indentation := amount;
    }

    function GetId(): (r: nat)
      reads this
      ensures r == Value().id
    {
      id
    }

    /** Overwrites the id and nothing else. */
    method SetId(newId: nat)
      modifies this
      ensures GetId() == newId
      ensures Value() == old(Value()).(id := newId)
    {
      id := newId;
    }
  }

  /** The tests' attributes: an `ID` and an `Author`. */
  function TestAttributes(id: string, author: string): (r: map<string, string>)
    ensures r.Keys == {"ID", "Author"} && r["ID"] == id && r["Author"] == author
  {
    map["ID" := id, "Author" := author]
  }

  /**
   * A new node's flags and name; a missing key gives the error naming it,
   * and present keys give their values.
   */
  method NodeAttributes(missing: string)
    requires missing != "ID" && missing != "Author"
  {
    var a := new Node("Some Node", true, false, TestAttributes("10533", "Bob Ross"), None, None, 0);
    assert a.IsRoot() && !a.IsLeaf() && a.GetName() == "Some Node";
    assert a.GetAttributeValue(missing) == Err("No such key: " + missing + " present");
    assert a.GetAttributeValue("ID") == Ok("10533");
    assert a.GetAttributeValue("Author") == Ok("Bob Ross");
  }

  /** Two children are kept in the order they were added, and a parent is recorded. */
  method NodeLinks()
  {
    var a := new Node("Parent Node", true, false, TestAttributes("10533", "Bob Ross"), None, None, 1);
    var b := new Node("Child Node", false, true, TestAttributes("10532", "Mike Ross"), None, None, 2);
    var c := new Node("Child Node 2", false, true, TestAttributes("10534", "DC"), None, None, 3);
    a.SetChild(b.GetId());
    a.SetChild(c.GetId());
    assert a.GetChild() == [2, 3];
    b.SetParent(a.GetId());
    assert b.GetParent() == Some(1) && a.GetParent() == None;
  }

  /** The inner text starts empty and reads back what was set. */
  method NodeInnerElement()
  {
    var a := new Node("Root Node", true, false, TestAttributes("10533", "Bob Ross"), None, None, 1);
    assert a.GetInnerElement() == "";
    a.SetInnerElement("This is the inner element.");
    assert a.GetInnerElement() == "This is the inner element.";
    assert a.GetChild() == [] && a.GetAttributeValue("ID") == Ok("10533");
  }
}
