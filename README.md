# xml_proc in Dafny

This project models the core of `xml_proc`, a small line-oriented XML reader written in Rust,
and proves properties of that model. The reader takes a document as a list of lines. It tells
apart four kinds of line:

- a prolog line (`<?…?>`);
- a comment line (`<!--…-->`);
- a bare-text line;
- a tag line.

A tag line either closes the innermost open element or opens a new one. Opening a new element
creates a `Node` record that holds:

- the record's name;
- its attributes (scanned from the tag);
- its same-line inner text;
- its indentation;
- its id, which is the line's index;
- its parent and child links, set by `set_relation`.

The nodes form a flat list, and `tree_id_to_node` indexes it by id.

Layout:

- `wrappers.dfy`: `Option` and `Result`.
- `text.dfy`: the Rust string primitives the code relies on. These are `find`, `contains`,
  `replace(pat, "")`, `trim_start` and counting a char. `find`, `contains`, `trim_start` and the
  count are specified by what they compute. `replace(pat, "")` is defined by its left-to-right
  removal; its lemmas give the bounds and the absent and leading cases.
- `xml_proc.dfy`: the line classifiers and the tag helpers. The helpers are `get_first_tag`,
  `get_inner_element`, `trim_line`, `find_name`, `extract_inner_element` and
  `calculate_indentation`. The file also holds the attribute scanner `find_attributes`, both as
  a method with the source's loop and as the function that loop is proved to compute.
- `tree_struct.dfy`: the `Node` class with its fields, its constructor, its getters and its
  setters. The datatype `Record` is a node's value at one moment.
- `xml_build.dfy`: the reader's line-by-line state machine, stated on values. The state is the
  stack of open elements plus the records so far. The functions that step through it are
  `NodeStep`, `LineStep`, `RunFrom` and `Parse`. The file also holds the lemmas about one
  line and the invariant every run keeps.
- `tree_builder.dfy`: `process_line_list`, `process_node`, `set_relation`,
  `handle_inner_element` and `tree_id_to_node`. These are methods over `Node` objects that are
  updated in place, as in the source. The line loop, `process_node`, `set_relation` and
  `handle_inner_element` are each proved to produce exactly the value the matching step
  function gives. `tree_id_to_node` is specified directly by the keys and nodes of the map it
  builds.
- `samples.dfy`: the sample lines of the unit tests in `src/xml_proc.rs`, worked through the
  model.
- `scenario.dfy`: a whole document of six lines worked through `Parse`. The root has one child
  with its text on the same line and one child with its text on a line of its own. The result
  holds for every choice of names and texts that `Scenario.Words` allows:
  - names are non-empty words of letters;
  - the root's name differs from both children's names;
  - texts are letters and spaces;
  - the own-line text is non-empty and starts with a letter.

Errors: wherever the source would panic on an `unwrap` or a slice, the model returns an error.
The error is `MalformedTag` or `MalformedAttributes`. At the builder level it also carries the
index of the line that aborts the parse.

Points where the code behaves in ways a reader of the XML format might not expect, all kept
as written:

- **Indentation.** `calculate_indentation` counts every space before the first `<`, not only
  the leading spaces (`src/xml_proc.rs:220-224`; lemmas `XmlProc.IndentationCountsSpaces`
  and `XmlProc.InnerSpacesCount`).
- **When `get_first_tag` fails.** It fails when `<` or `>` is missing, and also when the first
  `>` lies more than one character before the first `<`. A `>` immediately before the first
  `<` gives the empty tag, so `"><"` yields `""` (`src/xml_proc.rs:34-38`; lemmas
  `XmlProc.GetFirstTagCases` and `XmlProc.EmptyFirstTag`).
- **The double pop.** An opening tag with text after it pops the stack once, and a `/>` pops
  it again. When both are present, the element that enclosed the new one is closed too
  (`src/xml_proc.rs:168-175`; lemma `XmlBuild.OpenerAppendsRecord`).
- **`"ERROR!"`.** `find_name` yields `"ERROR!"` when nothing is left of the tag after
  trimming. A tag literally named `ERROR!` gives the same string, because `!` is not one of
  the trimmed delimiters, so the two cases cannot be told apart.
- **Closing tags and attributes.** A closing tag returns before `find_attributes` runs, so a
  malformed closing tag never raises an attribute error.

## Model

| member | source | states |
|---|---|---|
| Text.Find | src/xml_proc.rs:41 | the index of the first occurrence of the pattern, and `None` exactly when it does not occur |
| Text.FindChar | src/xml_proc.rs:78 | the first index holding the char, and `None` exactly when the char is absent |
| Text.Contains | src/xml_proc.rs:23 | true exactly when the pattern occurs somewhere in the text |
| Text.RemoveAbsent | src/xml_proc.rs:165 | removing every occurrence of a pattern that does not occur leaves the text unchanged |
| Text.RemoveLeading | src/xml_proc.rs:164 | removing every occurrence of a pattern from `pat + rest` is removing it from `rest` |
| Text.RemoveLeadingOnly | src/xml_proc.rs:342 | when the pattern's first char does not occur after a leading match, only that match is removed |
| Text.RemoveAll | src/xml_proc.rs:164-165 | `replace(pat, "")` never makes the text longer |
| Text.RemoveAllDeletesOnly | src/xml_proc.rs:164-165 | removing occurrences only deletes chars: no char appears more often than in the text |
| Text.RemoveCharIsDrop | src/xml_proc.rs:47-53 | removing a one-char pattern drops exactly that char, keeping the others in order |
| Text.TrimStart | src/xml_proc.rs:131 | the result is a suffix of the line; everything before it is whitespace, and it does not start with whitespace |
| Text.CountChar | src/xml_proc.rs:222 | exactly the number of occurrences of the char (`multiset(s)[c]`); so at most the length, and zero exactly when the char is absent |
| Text.CountSpaces | src/xml_proc.rs:222 | a run of `n` spaces counts `n` spaces |
| XmlProc.IsProlog | src/xml_proc.rs:22-24 | a line is a prolog exactly when both `<?` and `?>` occur in it |
| XmlProc.IsComment | src/xml_proc.rs:26-28 | a line is a comment exactly when both `<!--` and `-->` occur in it |
| XmlProc.IsNewlineInnerElement | src/xml_proc.rs:30-32 | a line is bare text exactly when it is non-empty and holds no `<`, `>` or `/` |
| XmlProc.BareTextIsNotMarkup | src/xml_proc.rs:95-101 | a bare-text line is never a prolog or a comment, so the order of the tests loses none |
| XmlProc.GetFirstTag | src/xml_proc.rs:34-38 | a tag it returns is a slice of the line; a non-empty one has no `<` before it, starts with `<`, ends with `>` and holds no other `>` (the error cases are stated by `GetFirstTagCases`) |
| XmlProc.GetFirstTagCases | src/xml_proc.rs:34-38 | it fails exactly when a delimiter is missing or the first `<` lies more than one char after the first `>`; the tag is empty exactly when the first `<` directly follows the first `>` |
| XmlProc.FirstTagOf | src/xml_proc.rs:34-38 | after a prefix without delimiters, the first tag is the first `<…>` |
| XmlProc.EmptyFirstTag | src/xml_proc.rs:34-38 | `"><"` gives the empty tag rather than an error |
| XmlProc.GetInnerElement | src/xml_proc.rs:40-45 | a prefix of the line before which `</` does not occur, ending at the first `</` or at the end of the line when there is none |
| XmlProc.ExtractInnerElement | src/xml_proc.rs:226-228 | `None` exactly when `</` does not occur; otherwise the text before the first `</` |
| XmlProc.TrimLine | src/xml_proc.rs:47-53 | the four `replace` calls give exactly the reference filter `KeepNonDelimiters`, which keeps every char other than `?`, `<`, `>` and `/`, in order |
| XmlProc.TrimLineResult | src/xml_proc.rs:47-53 | the trimmed line holds exactly the line's chars that are not `?`, `<`, `>` or `/`, and trimming twice is trimming once |
| XmlProc.KeepNonDelimitersAppend | src/xml_proc.rs:47-53 | trimming a concatenation is the concatenation of the trimmed parts |
| XmlProc.FindName | src/xml_proc.rs:56-68 | holds no space; is `"ERROR!"` when trimming leaves nothing; otherwise a prefix of the trimmed tag that reaches its first space or its end |
| XmlProc.NameBeforeSpace | src/xml_proc.rs:56-68 | a name of non-delimiters followed by a space is found whatever follows it |
| XmlProc.Attributes | src/xml_proc.rs:70-89 | a text shorter than five chars has no attributes |
| XmlProc.AttributesWellFormed | src/xml_proc.rs:79-86 | every stored key holds no space and no `=`, and every stored value holds no `"` |
| XmlProc.AttributePair | src/xml_proc.rs:78-86 | one `key="value"` pair stores the value under the key with its spaces removed, and scanning resumes at the closing quote |
| XmlProc.TwoAttributes | src/xml_proc.rs:70-89 | two space-separated `key="value"` pairs give exactly the map of those two keys |
| XmlProc.FindAttributes | src/xml_proc.rs:70-89 | the loop returns the attribute map, or the error at the first pair the code would panic on, as `Attributes` gives |
| XmlProc.CalculateIndentation | src/xml_proc.rs:220-224 | 0 when there is no `<`, and otherwise at most the index of the first `<` |
| XmlProc.IndentationCountsSpaces | src/xml_proc.rs:220-224 | with a `<` in the line, the indentation is the number of spaces anywhere before the first `<` |
| XmlProc.InnerSpacesCount | src/xml_proc.rs:220-224 | spaces after other text still count: `n` spaces, a word, then `m` spaces before the tag give `n + m` |
| XmlProc.IndentedTag | src/xml_proc.rs:220-224 | a tag after `n` spaces has indentation `n` |
| TreeStruct.Node.constructor | src/tree_struct.rs:17-29 | the new node has no children and no parent; a missing inner text becomes `""` and a missing indentation 0; every other field is as given |
| TreeStruct.Node.GetInnerElement | src/tree_struct.rs:37-39 | the inner text the node's value holds |
| TreeStruct.Node.GetAllAttributes | src/tree_struct.rs:49-51 | the attribute map the node's value holds |
| TreeStruct.Node.GetChild | src/tree_struct.rs:57-59 | the children the node's value holds |
| TreeStruct.Node.GetParent | src/tree_struct.rs:65-67 | the parent the node's value holds |
| TreeStruct.Node.GetName | src/tree_struct.rs:69-71 | the name the node's value holds |
| TreeStruct.Node.IsRoot | src/tree_struct.rs:73-75 | the root flag the node's value holds |
| TreeStruct.Node.IsLeaf | src/tree_struct.rs:77-79 | the leaf flag the node's value holds |
| TreeStruct.Node.GetIndentation | src/tree_struct.rs:81-83 | the indentation the node's value holds |
| TreeStruct.Node.GetId | src/tree_struct.rs:89-91 | the id the node's value holds |
| TreeStruct.Node.SetInnerElement | src/tree_struct.rs:32-34 | the inner text is replaced and no other field changes |
| TreeStruct.Node.GetAttributeValue | src/tree_struct.rs:41-47 | the value stored under the key, or, exactly when the key is absent, the error naming it |
| TreeStruct.Node.SetChild | src/tree_struct.rs:53-55 | the child id is appended after the existing children and no other field changes |
| TreeStruct.Node.SetParent | src/tree_struct.rs:61-63 | the parent becomes the given id and no other field changes |
| TreeStruct.Node.SetIndentation | src/tree_struct.rs:85-87 | the indentation is replaced and no other field changes |
| TreeStruct.Node.SetId | src/tree_struct.rs:93-95 | the id is replaced and no other field changes |
| XmlBuild.WantedId | src/xml_proc.rs:196-208 | no id exactly when the stack is empty; the entry below the top is chosen exactly when the top is the new element itself and something is below it; otherwise the top |
| XmlBuild.Relation | src/xml_proc.rs:194-218 | the number of records is kept; the new record changes only in its parent, and a parent it gains is the wanted id |
| XmlBuild.InnerElementStep | src/xml_proc.rs:129-134 | the same number of records; only the last one changes, and only in its inner text, which becomes the line without leading whitespace |
| XmlBuild.OpenElement | src/xml_proc.rs:164-189 | exactly one record is appended, with the new element's id and name |
| XmlBuild.NodeStep | src/xml_proc.rs:136-192 | an error names the line; otherwise either one record is added, or none is added and the innermost open element is popped |
| XmlBuild.LineStep | src/xml_proc.rs:95-105 | an error names the line, and a line adds at most one record |
| XmlBuild.RunFromBounds | src/xml_proc.rs:95-105 | a run over the lines, with such a step, aborts only at one of the remaining lines and adds at most one record per line |
| XmlBuild.Parse | src/xml_proc.rs:91-108 | an error names one of the lines, and a finished parse has at most one record per line |
| XmlBuild.FirstWithId | src/xml_proc.rs:210-216 | the index of the first record with the id, and `None` exactly when no record has it |
| XmlBuild.MarkupLineIsIgnored | src/xml_proc.rs:96-99 | prolog and comment lines change neither the stack nor the records |
| XmlBuild.BareTextLine | src/xml_proc.rs:129-134 | a bare-text line sets the last record's inner text to the line without leading whitespace, and changes nothing else |
| XmlBuild.MalformedTagAborts | src/xml_proc.rs:137-140 | a line whose first tag cannot be cut out aborts the parse at that line |
| XmlBuild.MalformedAttributesAbort | src/xml_proc.rs:164-166 | an opening tag whose attributes cannot be scanned aborts the parse at that line |
| XmlBuild.CloserPops | src/xml_proc.rs:146-152 | a tag naming the innermost open element pops it and adds no record |
| XmlBuild.RelationShape | src/xml_proc.rs:194-218 | `set_relation` keeps the number of records, changes only children lists, and changes only the parent of the new record; a new record without a parent gains one exactly when the stack is non-empty and some record has the wanted id, and when it gains none, nothing changes at all |
| XmlBuild.OpenerAppendsRecord | src/xml_proc.rs:153-189 | any other tag adds exactly one record with the line's id, root flag, name, attributes, indentation and same-line text; the element stays open, is closed, or also closes its enclosing element, according to whether there is same-line text and whether there is a `/>` |
| XmlBuild.OpenElementRecord | src/xml_proc.rs:164-189 | the same facts, stated for the opening step once the tag has been taken apart |
| XmlBuild.RelationLinksTo | src/xml_proc.rs:194-218 | when the stack names a record, exactly one record changes: the first with that id gains the new id as its last child and becomes the new record's parent; every other record is unchanged |
| XmlBuild.RelationKeepsLinked | src/xml_proc.rs:194-218 | linking a new record keeps parent and child links in agreement |
| XmlBuild.NestedParent | src/xml_proc.rs:146-218 | an element opened inside another gets the element that was innermost as its parent, and that element gets it as its last child, unless the line has both same-line text and a `/>` |
| XmlBuild.LineStepKeepsWellFormed | src/xml_proc.rs:95-105 | every kind of line keeps the state well formed: ids below the line count and increasing, open elements have records, and links agree |
| XmlBuild.RunFromWellFormed | src/xml_proc.rs:95-105 | a run of a step that keeps the state well formed ends well formed |
| XmlBuild.ParseWellFormed | src/xml_proc.rs:91-108 | a finished parse has at most one record per line, and ids that are line indices in increasing order; a record names another as parent exactly when it is among that record's children; parents precede children, and roots have no parent |
| TreeBuilder.HandleInnerElement | src/xml_proc.rs:129-134 | the nodes' values afterwards are those `InnerElementStep` gives |
| TreeBuilder.SetRelation | src/xml_proc.rs:194-218 | the nodes and the new node afterwards hold the values `Relation` gives |
| TreeBuilder.ProcessNode | src/xml_proc.rs:136-192 | succeeds exactly when `NodeStep` does; on success the stack and the nodes' values are `NodeStep`'s, and on an error the error is the same and the nodes are unchanged |
| TreeBuilder.OpenNode | src/xml_proc.rs:164-189 | the opening branch of `process_node` agrees with `NodeStep` in the same way |
| TreeBuilder.FinishNode | src/xml_proc.rs:168-189 | the pops, the new node and its linking give the state `OpenElement` gives |
| TreeBuilder.ProcessLine | src/xml_proc.rs:95-105 | one line of the loop agrees with `LineStep` |
| TreeBuilder.ProcessLineList | src/xml_proc.rs:91-108 | succeeds exactly when `Parse` does, with node values equal to `Parse`'s records and the same error otherwise |
| TreeBuilder.TreeIdToNode | src/xml_proc.rs:110-119 | the keys are exactly the ids of the nodes; a node whose id no later node repeats is stored under its id; every stored node is in the list and carries its key as id |
| Samples.PrologSample | src/xml_proc.rs:274-279 | the sample prolog line is recognised as a prolog |
| Samples.CommentSample | src/xml_proc.rs:349-354 | a sample comment line is recognised as a comment |
| Samples.WordsAreBareText | src/xml_proc.rs:309-317 | `Main Chapter` is bare text |
| Samples.TagIsNotBareText | src/xml_proc.rs:309-317 | `<root>` is not bare text |
| Samples.CloserIsNotBareText | src/xml_proc.rs:309-317 | `Main Chapter</title>` is not bare text |
| Samples.NameOfSection | src/xml_proc.rs:281-289 | the name of `section id="1" name="Introduction"` is `section` |
| Samples.NameOfWord | src/xml_proc.rs:281-289 | the name of `root` is `root` |
| Samples.NameOfNothing | src/xml_proc.rs:281-289 | the name of the empty text is `ERROR!` |
| Samples.TitleFirstTag | src/xml_proc.rs:291-300 | the first tag of the title line with attributes and text is its opening tag |
| Samples.TitleInnerElement | src/xml_proc.rs:302-307 | the inner element of `Main Chapter</title>` is `Main Chapter` |
| Samples.PrologTag | src/xml_proc.rs:335-341 | the sample prolog is its own first tag, trims to the text between `<?` and `?>`, and that text names `xml` |
| Samples.PrologFirstTag | src/xml_proc.rs:336-337 | a prolog tag around text without `>` is its own first tag |
| Samples.PrologTrimmed | src/xml_proc.rs:338-339 | trimming a prolog tag around text without delimiters leaves that text |
| Samples.PrologAttributes | src/xml_proc.rs:342-345 | cutting the name `xml` out of the trimmed prolog leaves its attribute text, which gives `version` = `1.0` and `encoding` = `UTF-8` |
| Scenario.NameOfTag | src/xml_proc.rs:56-68 | a name of letters between delimiters is found as the tag's name |
| Scenario.InlineRemainder | src/xml_proc.rs:164 | cutting the opening tag out of a same-line element leaves its text and closing tag |
| Scenario.InlineText | src/xml_proc.rs:168-169 | the inner text of a same-line element is the text before its closing tag |
| Scenario.OpenRoot | src/xml_proc.rs:157-189 | the first tag line opens the root: one record with no parent, and the root left open |
| Scenario.InlineChild | src/xml_proc.rs:153-189 | a same-line child under the root is closed at once, gets its text and parent 0, and the root gets it as child |
| Scenario.OpenNested | src/xml_proc.rs:153-189 | a child opened on its own line stays open, and its parent is the root below it on the stack |
| Scenario.CloseLine | src/xml_proc.rs:146-152 | the closing tag of the innermost open element pops it |
| Scenario.OwnLineText | src/xml_proc.rs:100-101 | the own-line text becomes the inner text of the child opened just before |
| Scenario.BareLine | src/xml_proc.rs:100-101 | a line of text becomes the inner text of the last record |
| Scenario.DocumentParse | src/xml_proc.rs:91-108 | the whole six-line document gives three records with ids 0, 1 and 2; the root has children 1 and 2 and no parent; both children have parent 0 and their texts; every element is closed at the end |

## Left out

- `read_xml_file` and `print_content` (`src/xml_proc.rs:5-20`): file I/O and printing, outside the model.
- `handle_prolog`, `handle_comment` and the `println!` calls in `process_node`: they only print. They are kept as methods that do nothing.
- `src/main.rs` is not part of this model. It only reads a file and prints.
- The order of a `HashMap`'s entries: attributes are a `map`, and `tree_id_to_node`'s result is a `map<nat, Node>`. Borrowed references become references to the same objects.
- Text is a sequence of chars, so byte offsets and char offsets coincide only for ASCII. `trim_start` removes ASCII whitespace only. `usize` is an unbounded `nat`; no index in the code can overflow.
- The tests built on the 13-line example document (`src/xml_proc.rs:238-254`, `356-420`) are not worked through for that document, with its indentation, attributes and two levels of nesting. Working indented lines through the whole parse exceeds the verifier's resource budget: the facts about `trim_start` and about indices into concatenations keep producing one another. `Scenario.DocumentParse` proves the same kind of facts for a six-line document of any names and texts: the ids, the parent and child links, the texts and the closing of every element. Its lines have no indentation and no attributes. Indentation and attributes are covered line by line instead, by `XmlProc.InnerSpacesCount`, `XmlProc.IndentedTag`, `XmlProc.TwoAttributes` and `XmlBuild.OpenerAppendsRecord`.
- Samples.CommentSample: uses a shorter comment than the test's line, keeping the verifier's work on a literal small; the property is the same.
- `is_leaf` is always false, since `process_node` never sets it; `Node.IsLeaf` just reads the field.
- The tests in `src/tree_struct.rs` are reflected in `TreeStruct.NodeAttributes` (`create_node`, `no_such_attribute`, `get_node_attributes`, `get_node_root`, `get_node_leaf`), `TreeStruct.NodeLinks` (`add_child_node`, `add_parent_node`) and `TreeStruct.NodeInnerElement` (`inner_element_operations`).
