/**
 * The expression-block service: the list of expression blocks placed in the
 * editor, the selected expression element, and the editing of a block's
 * property references.
 *
 * An expression element is represented by its `data-expression-id` attribute.
 */
module ExpressionBlockServices {
  import opened Wrappers
  import opened Text
  import opened PropertyBlocks
  import opened ExpressionBlocks
  import opened EditorServices

  datatype ExpressionElement = ExpressionElement(expressionId: Option<string>)

  /** An attribute value that JavaScript treats as true: present and non-empty. */
  predicate HasId(e: ExpressionElement) {
    e.expressionId.Some? && e.expressionId.value != []
  }

  /** The block edited through `e`: the first block carrying its id, if the element has one. */
  function Target(blocks: seq<ExpressionBlock>, e: ExpressionElement): (r: Option<nat>)
    ensures r.Some? ==> HasId(e) && r.value < |blocks| && blocks[r.value].id == e.expressionId.value
    ensures r.None? && HasId(e) ==> forall j :: 0 <= j < |blocks| ==> blocks[j].id != e.expressionId.value
  {
    if HasId(e) then FindById(blocks, e.expressionId.value) else None
  }

  /** `block` with a new property list, and `isValid` recomputed from it as `updateExpressionBlockState` does. */
  function WithProperties(block: ExpressionBlock, properties: seq<PropertyBlock>): (r: ExpressionBlock)
    ensures r.properties == properties && r.isValid == (properties != [])
    ensures r.id == block.id && r.content == block.content
    ensures r.isFunction == block.isFunction && r.functionName == block.functionName
  {
    var edited := block.(properties := properties);
    edited.(isValid := GetExpressionState(edited).isValid)
  }

  // ---------------------------------------------------------------------------
  // The text an expression element contributes to the editor's text

  /** The delete button's text: the source sets it to the two characters `Ã` and `—`. */
  const DeleteMark: string := "\U{00C3}\U{2014}"

  /** A property reference in an expression element: the property's name, then its delete button. */
  function ReferenceText(p: PropertyBlock): (r: string)
    ensures |r| == |p.name| + 2 && r[..|p.name|] == p.name
  {
    p.name + DeleteMark
  }

  /**
   * `rebuildExpressionContent`: the text of the content container, the
   * references in order with `", "` between neighbours. It is empty exactly
   * when there are no references.
   */
  function ContentText(properties: seq<PropertyBlock>): (r: string)
    ensures r == [] <==> properties == []
    decreases |properties|
  {
    if properties == [] then []
    else if |properties| == 1 then ReferenceText(properties[0])
    else ContentText(properties[..|properties| - 1]) + ", " + ReferenceText(properties[|properties| - 1])
  }

  /** The text in front of the content container: the function name and `(`, for a call with a name. */
  function CallHead(b: ExpressionBlock): string {
    if b.isFunction && b.functionName.Some? && b.functionName.value != [] then b.functionName.value + "(" else []
  }

  /** The text after the content container: `)`, for a call. */
  function CallTail(b: ExpressionBlock): string {
    if b.isFunction then ")" else []
  }

  /** `createExpressionBlockElement`: the element's text, head, content container and tail. */
  function ElementText(b: ExpressionBlock): (r: string)
    ensures |r| == |CallHead(b)| + |ContentText(b.properties)| + |CallTail(b)|
  {
    CallHead(b) + ContentText(b.properties) + CallTail(b)
  }

  /** A node of the editor whose text, `n` characters at offset `k`, is replaced by `s`. */
  function RewriteText(t: string, k: nat, n: nat, s: string): (u: string)
    requires k + n <= |t|
    ensures |u| == |t| - n + |s|
    ensures u[..k] == t[..k] && u[k..k + |s|] == s && u[k + |s|..] == t[k + n..]
  {
    t[..k] + s + t[k + n..]
  }

  /** Adding a reference extends the container's text: a `", "` when it was not empty, then the reference. */
  lemma {:induction false} ContentTextOfAdded(properties: seq<PropertyBlock>, p: PropertyBlock)
    ensures ContentText(properties + [p]) ==
      ContentText(properties) + (if properties == [] then [] else ", ") + ReferenceText(p)
  {
    var ps := properties + [p];
    assert ps[..|ps| - 1] == properties && ps[|ps| - 1] == p;
    if properties == [] {
      assert |ps| == 1;
    }
  }

  /**
   * A call typed as `Name()` goes in as an element that reads `Name()`; text
   * that is not a call goes in as an element with no text at all.
   */
  lemma {:induction false} CreatedElementText(content: string, freshId: string)
    ensures var b := CreateExpressionBlock(freshId, content);
      && (!b.isFunction ==> ElementText(b) == [])
      && (b.isFunction && b.functionName.Some? ==> ElementText(b) == b.functionName.value + "()")
  {
    var b := CreateExpressionBlock(freshId, content);
    if !b.isFunction {
      PlainElementText(b);
    } else if b.functionName.Some? {
      NamedCallText(b, b.functionName.value);
    }
  }

  /** The element of a block that is not a call and has no properties has no text. */
  lemma {:induction false} PlainElementText(b: ExpressionBlock)
    requires !b.isFunction && b.properties == []
    ensures ElementText(b) == []
  {
    assert ContentText(b.properties) == [];
  }

  /** The element of a named call without properties reads as the call. */
  lemma {:induction false} NamedCallText(b: ExpressionBlock, name: string)
    requires b.isFunction && b.functionName == Some(name) && name != [] && b.properties == []
    ensures ElementText(b) == name + "()" && ElementText(b) + " " == name + "() "
  {
    assert ContentText(b.properties) == [];
    assert CallHead(b) == name + "(" && CallTail(b) == ")";
  }

  /**
   * Rebuilding an element after adding a property inserts `", "` (when it had
   * references) and the new reference right after the old references; the rest
   * of the editor's text, the name and the parentheses included, is kept.
   */
  lemma {:induction false} AddedReferenceInEditor(t: string, at: nat, b: ExpressionBlock, p: PropertyBlock)
    requires at + |ElementText(b)| <= |t| && t[at..at + |ElementText(b)|] == ElementText(b)
    ensures var updated := WithProperties(b, b.properties + [p]);
      var k := at + |CallHead(b)| + |ContentText(b.properties)|;
      RewriteText(t, at, |ElementText(b)|, ElementText(updated)) ==
        t[..k] + ((if b.properties == [] then [] else ", ") + ReferenceText(p)) + t[k..]
  {
    var m := (if b.properties == [] then [] else ", ") + ReferenceText(p);
    var h, c, z := CallHead(b), ContentText(b.properties), CallTail(b);
    assert ElementText(b) == h + c + z;
    AddedElementText(b, p);
    InsertInside(t, at, h, c, z, m);
  }

  /** The element's text after adding a reference: `m` goes between the old references and the tail. */
  lemma {:induction false} AddedElementText(b: ExpressionBlock, p: PropertyBlock)
    ensures var m := (if b.properties == [] then [] else ", ") + ReferenceText(p);
      ElementText(WithProperties(b, b.properties + [p])) == CallHead(b) + ContentText(b.properties) + m + CallTail(b)
  {
    var updated := WithProperties(b, b.properties + [p]);
    ContentTextOfAdded(b.properties, p);
    assert CallHead(updated) == CallHead(b) && CallTail(updated) == CallTail(b);
  }

  /** Replacing `h + c + z` at offset `at` by `h + c + m + z` inserts `m` after `c`. */
  lemma InsertInside(t: string, at: nat, h: string, c: string, z: string, m: string)
    requires at + |h + c + z| <= |t| && t[at..at + |h + c + z|] == h + c + z
    ensures var k := at + |h| + |c|;
      RewriteText(t, at, |h + c + z|, h + c + m + z) == t[..k] + m + t[k..]
  {
    var n := |h + c + z|;
    var k := at + |h| + |c|;
    assert t[at..k] == h + c by {
      assert t[at..k] == t[at..at + n][..|h| + |c|];
    }
    assert t[k..at + n] == z by {
      assert t[k..at + n] == t[at..at + n][|h| + |c|..];
    }
    assert t[..k] == t[..at] + t[at..k];
    assert t[k..] == t[k..at + n] + t[at + n..];
  }

  class ExpressionBlockService {
    const isBrowser: bool
    const editor: EditorService
    /** The latest value of `expressionBlocks$`. */
    var blocks: seq<ExpressionBlock>
    var selected: Option<ExpressionElement>

    /** Block ids are distinct (each is a fresh uuid), and every block is valid exactly when it holds some property reference. */
    ghost predicate Valid()
      reads this, editor
    {
      && editor.isBrowser == isBrowser && editor.Valid()
      && UniqueIds(blocks)
      && forall i :: 0 <= i < |blocks| ==> blocks[i].isValid == (blocks[i].properties != [])
    }

    constructor(editor: EditorService)
      requires editor.Valid()
      ensures Valid()
      ensures this.editor == editor && isBrowser == editor.isBrowser
      ensures blocks == [] && selected == None
    {
      this.isBrowser := editor.isBrowser;
      this.editor := editor;
      blocks := [];
      selected := None;
    }

    /**
     * `insertExpressionBlock`: when the browser, editor and range guards pass,
     * the insertion range's contents are deleted and the new block's element
     * and one space take their place, and exactly one new block goes at the
     * end of the list; otherwise nothing changes. The uuid `freshId` is carried
     * by no block yet. The statistics are not republished.
     */
    method InsertExpressionBlock(content: string, freshId: string, selection: Option<DomRange>)
      requires Valid()
      requires FindById(blocks, freshId).None?
      modifies this, editor
      ensures Valid()
      ensures selected == old(selected)
      ensures editor.lastKnownRange == old(editor.lastKnownRange) && editor.state == old(editor.state)
      ensures old(editor.HasEditor()) ==>
        var b := CreateExpressionBlock(freshId, content);
        var r := old(editor.GetInsertionRange(selection)).value;
        && blocks == old(blocks) + [b]
        && editor.HasEditor()
        && editor.GetContent() == Splice(old(editor.GetContent()), r, ElementText(b) + " ")
      ensures !old(editor.HasEditor()) ==> blocks == old(blocks) && editor.editor == old(editor.editor)
    {
      if !isBrowser {
        return;
      }
      if editor.editor.None? {
        return;
      }
      var block := CreateExpressionBlock(freshId, content);
      var range := editor.GetInsertionRange(selection);
      if range.None? {
        return;
      }
      editor.editor := Some(Splice(editor.editor.value, range.value, ElementText(block) + " "));
      AppendFreshKeepsUniqueIds(blocks, block);
      blocks := blocks + [block];
    }

    /** The element of block `b` is in the editor, its text starting at offset `at`. */
    predicate InEditorAt(b: ExpressionBlock, at: nat)
      reads this, editor
    {
      && editor.HasEditor()
      && at + |ElementText(b)| <= |editor.GetContent()|
      && editor.GetContent()[at..at + |ElementText(b)|] == ElementText(b)
    }

    /** `findBlockById`: the first block with the id, or a new empty block when there is none. */
    function FindBlockById(id: Option<string>, freshId: string): (b: ExpressionBlock)
      reads this
      ensures id.Some? && id.value != [] && FindById(blocks, id.value).Some? ==> b == blocks[FindById(blocks, id.value).value]
      ensures !(id.Some? && id.value != [] && FindById(blocks, id.value).Some?) ==> b == CreateExpressionBlock(freshId, [])
    {
      if id.None? || id.value == [] then CreateExpressionBlock(freshId, [])
      else match FindById(blocks, id.value)
        case Some(k) => blocks[k]
        case None => CreateExpressionBlock(freshId, [])
    }

    /** `deselectAllBlocks`: in the browser no expression element stays selected. */
    method DeselectAllBlocks()
      modifies this`selected
      ensures selected == if isBrowser then None else old(selected)
    {
      if isBrowser {
        selected := None;
      }
    }

    /** `selectExpressionBlock`: the element becomes the only selected one, in the browser or not. */
    method SelectExpressionBlock(element: ExpressionElement)
      modifies this`selected
      ensures selected == Some(element)
    {
      DeselectAllBlocks();
      selected := Some(element);
    }

    function GetSelectedBlock(): Option<ExpressionElement>
      reads this
    {
      selected
    }

    /** `updateExpressionBlockState`: every block with the edited block's id is replaced by it, with `isValid` recomputed. */
    method UpdateExpressionBlockState(block: ExpressionBlock)
      requires Valid()
      modifies this`blocks
      ensures Valid()
      ensures blocks == ReplaceById(old(blocks), WithProperties(block, block.properties))
    {
      var state := GetExpressionState(block);
      var updated := block.(isValid := state.isValid);
      if FindById(blocks, updated.id).Some? {
        ReplaceByIdKeepsUniqueIds(blocks, updated);
      } else {
        assert ReplaceById(blocks, updated) == blocks;
      }
      blocks := ReplaceById(blocks, updated);
    }

    /**
     * `addPropertyToExpression`: the block the element names gets the property
     * appended and becomes valid, its element's content container is rebuilt,
     * and the element becomes the selected one; an element without an id or
     * with an unknown id changes nothing. When the element sits in the editor,
     * its text starts at offset `at` (`None` exactly when it is not in the
     * editor), and the rebuilt text replaces it there. The statistics are not
     * republished.
     */
    method AddPropertyToExpression(element: ExpressionElement, property: PropertyBlock, at: Option<nat>)
      requires Valid()
      requires at.Some? && Target(blocks, element).Some? ==> InEditorAt(blocks[Target(blocks, element).value], at.value)
      modifies this, editor
      ensures Valid()
      ensures editor.lastKnownRange == old(editor.lastKnownRange) && editor.state == old(editor.state)
      ensures Target(old(blocks), element).Some? ==>
        var k := Target(old(blocks), element).value;
        var updated := WithProperties(old(blocks)[k], old(blocks)[k].properties + [property]);
        && blocks == ReplaceById(old(blocks), updated)
        && blocks == old(blocks)[k := updated]
        && selected == Some(element)
        && (at.Some? ==>
              editor.HasEditor() &&
              editor.GetContent() == RewriteText(old(editor.GetContent()), at.value, |ElementText(old(blocks)[k])|, ElementText(updated)))
        && (at.None? ==> editor.editor == old(editor.editor))
      ensures Target(old(blocks), element).None? ==>
        blocks == old(blocks) && selected == old(selected) && editor.editor == old(editor.editor)
    {
      if !HasId(element) {
        return;
      }
      var k := FindById(blocks, element.expressionId.value);
      if k.None? {
        return;
      }
      var block := blocks[k.value];
      if at.Some? {
        editor.editor := Some(RewriteText(editor.editor.value, at.value, |ElementText(block)|,
          ElementText(WithProperties(block, block.properties + [property]))));
      }
      ReplaceByIdWithUniqueIds(blocks, WithProperties(block, block.properties + [property]));
      UpdateExpressionBlockState(block.(properties := block.properties + [property]));
      SelectExpressionBlock(element);
    }

    /**
     * `removePropertyFromExpression`: the block the element names loses every
     * property reference with the id, stays valid only while some remain, its
     * element's content container is rebuilt, and the element becomes the
     * selected one; an element without an id or with an unknown id changes
     * nothing. `at` locates the element's text as for `AddPropertyToExpression`.
     */
    method RemovePropertyFromExpression(element: ExpressionElement, propertyId: string, at: Option<nat>)
      requires Valid()
      requires at.Some? && Target(blocks, element).Some? ==> InEditorAt(blocks[Target(blocks, element).value], at.value)
      modifies this, editor
      ensures Valid()
      ensures editor.lastKnownRange == old(editor.lastKnownRange) && editor.state == old(editor.state)
      ensures Target(old(blocks), element).Some? ==>
        var k := Target(old(blocks), element).value;
        var updated := WithProperties(old(blocks)[k], WithoutId(old(blocks)[k].properties, propertyId));
        && blocks == ReplaceById(old(blocks), updated)
        && blocks == old(blocks)[k := updated]
        && selected == Some(element)
        && (at.Some? ==>
              editor.HasEditor() &&
              editor.GetContent() == RewriteText(old(editor.GetContent()), at.value, |ElementText(old(blocks)[k])|, ElementText(updated)))
        && (at.None? ==> editor.editor == old(editor.editor))
      ensures Target(old(blocks), element).None? ==>
        blocks == old(blocks) && selected == old(selected) && editor.editor == old(editor.editor)
    {
      if !HasId(element) {
        return;
      }
      var k := FindById(blocks, element.expressionId.value);
      if k.None? {
        return;
      }
      var block := blocks[k.value];
      if at.Some? {
        editor.editor := Some(RewriteText(editor.editor.value, at.value, |ElementText(block)|,
          ElementText(WithProperties(block, WithoutId(block.properties, propertyId)))));
      }
      ReplaceByIdWithUniqueIds(blocks, WithProperties(block, WithoutId(block.properties, propertyId)));
      UpdateExpressionBlockState(block.(properties := WithoutId(block.properties, propertyId)));
      SelectExpressionBlock(element);
    }
  }

  /**
   * With distinct ids, adding a property rewrites only the target block: its
   * properties grow by the one property at the end, it becomes valid, its other
   * fields stay, and every other block and the order of the list are unchanged.
   */
  lemma {:induction false} AddPropertyEffect(blocks: seq<ExpressionBlock>, e: ExpressionElement, property: PropertyBlock)
    requires UniqueIds(blocks)
    requires Target(blocks, e).Some?
    ensures var k := Target(blocks, e).value;
      var r := ReplaceById(blocks, WithProperties(blocks[k], blocks[k].properties + [property]));
      && |r| == |blocks| && UniqueIds(r)
      && r[k].properties == blocks[k].properties + [property] && r[k].isValid
      && r[k].id == blocks[k].id && r[k].content == blocks[k].content
      && r[k].isFunction == blocks[k].isFunction && r[k].functionName == blocks[k].functionName
      && forall j :: 0 <= j < |blocks| && j != k ==> r[j] == blocks[j]
  {
    var k := Target(blocks, e).value;
    var updated := WithProperties(blocks[k], blocks[k].properties + [property]);
    ReplaceByIdWithUniqueIds(blocks, updated);
    ReplaceByIdKeepsUniqueIds(blocks, updated);
  }

  /**
   * With distinct ids, removing a property rewrites only the target block: the
   * references with the id are gone, the others keep their order, and the block
   * is valid exactly when some reference remains.
   */
  lemma {:induction false} RemovePropertyEffect(blocks: seq<ExpressionBlock>, e: ExpressionElement, propertyId: string)
    requires UniqueIds(blocks)
    requires Target(blocks, e).Some?
    ensures var k := Target(blocks, e).value;
      var r := ReplaceById(blocks, WithProperties(blocks[k], WithoutId(blocks[k].properties, propertyId)));
      && |r| == |blocks| && UniqueIds(r)
      && (forall p :: p in r[k].properties <==> p in blocks[k].properties && p.id != propertyId)
      && (r[k].isValid <==> exists p :: p in blocks[k].properties && p.id != propertyId)
      && r[k].id == blocks[k].id && r[k].content == blocks[k].content
      && forall j :: 0 <= j < |blocks| && j != k ==> r[j] == blocks[j]
  {
    var k := Target(blocks, e).value;
    var kept := WithoutId(blocks[k].properties, propertyId);
    var updated := WithProperties(blocks[k], kept);
    ReplaceByIdWithUniqueIds(blocks, updated);
    ReplaceByIdKeepsUniqueIds(blocks, updated);
    if kept != [] {
      assert kept[0] in kept;
    }
  }
}
