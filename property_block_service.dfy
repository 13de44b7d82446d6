/**
 * The property-block service: the list of property blocks placed in the editor,
 * the selected block element, and the walk up the DOM that finds the block an
 * event target belongs to.
 *
 * A DOM node is represented by whether it is an element, its class list, its
 * `data-property-id` attribute and its `textContent`; an ancestor chain is the
 * sequence node, parent, grandparent, ... and ends where `parentNode` is null.
 * Where an element sits in the editor is given by the offset of its text in the
 * editor's text.
 */
module PropertyBlockServices {
  import opened Wrappers
  import opened PropertyBlocks
  import opened EditorServices

  datatype DomNode = DomNode(isElement: bool, classes: set<string>, propertyId: Option<string>, text: string)

  const PropertyBlockClass: string := "property-block"

  predicate IsPropertyBlockElement(n: DomNode) {
    n.isElement && PropertyBlockClass in n.classes
  }

  /** An attribute value that JavaScript treats as true: present and non-empty. */
  predicate Truthy(attribute: Option<string>) {
    attribute.Some? && attribute.value != []
  }

  /** The text a property block element shows in the editor, followed by the space inserted after it. */
  function ChipText(b: PropertyBlock): string {
    b.name + " "
  }

  /** `node.remove()` on a node of the editor whose text starts at offset `k`: that text leaves the editor's text. */
  function RemoveText(t: string, k: nat, n: nat): (u: string)
    requires k + n <= |t|
    ensures |u| == |t| - n
    ensures u[..k] == t[..k] && u[k..] == t[k + n..]
  {
    t[..k] + t[k + n..]
  }

  /**
   * Removing a chip that `insertPropertyBlock` put at range `r` leaves the text
   * as before the insertion, with the range's contents replaced by the single
   * space inserted after the chip.
   */
  lemma {:induction false} RemoveChipLeavesSpace(t: string, r: DomRange, b: PropertyBlock)
    ensures var u := Splice(t, r, ChipText(b));
      var s := ClampedStart(t, r);
      && s + |b.name| <= |u| && u[s..s + |b.name|] == b.name
      && RemoveText(u, s, |b.name|) == t[..s] + " " + t[ClampedEnd(t, r)..]
  {
    var s := ClampedStart(t, r);
    var rest := " " + t[ClampedEnd(t, r)..];
    var u := Splice(t, r, ChipText(b));
    assert u == t[..s] + b.name + rest;
    ThreeParts(t[..s], b.name, rest);
  }

  /** The three parts of a concatenation, recovered by slicing. */
  lemma ThreeParts(x: string, y: string, z: string)
    ensures var u := x + y + z;
      && u[..|x|] == x && u[|x|..|x| + |y|] == y && u[|x| + |y|..] == z
  {
  }

  class PropertyBlockService {
    const isBrowser: bool
    const editor: EditorService
    /** The latest value of `propertyBlocks$`. */
    var blocks: seq<PropertyBlock>
    var selected: Option<DomNode>

    ghost predicate Valid()
      reads this, editor
    {
      editor.isBrowser == isBrowser && editor.Valid()
    }

    constructor(editor: EditorService)
      requires editor.Valid()
      ensures Valid()
      ensures this.editor == editor && isBrowser == editor.isBrowser
      ensures blocks == [] && selected == None
    {
      this.isBrowser := editor.isBrowser;
      this.editor := editor;
      blocks := [];
      selected := None;
    }

    /**
     * `insertPropertyBlock`: when the browser, editor and range guards pass, the
     * block (with the fresh id, not any id of the property) goes at the end of
     * the list and its chip replaces the insertion range in the editor text;
     * otherwise nothing changes.
     */
    method InsertPropertyBlock(property: Property, freshId: string, selection: Option<DomRange>)
      requires Valid()
      modifies this, editor
      ensures Valid()
      ensures selected == old(selected) && editor.lastKnownRange == old(editor.lastKnownRange)
      ensures old(editor.HasEditor()) ==>
        var b := CreatePropertyBlock(property, freshId);
        var r := old(editor.GetInsertionRange(selection)).value;
        && blocks == old(blocks) + [b]
        && editor.HasEditor()
        && editor.GetContent() == Splice(old(editor.GetContent()), r, ChipText(b))
        && editor.state == Stats(editor.GetContent())
      ensures !old(editor.HasEditor()) ==>
        blocks == old(blocks) && editor.editor == old(editor.editor) && editor.state == old(editor.state)
    {
      if !isBrowser {
        return;
      }
      if editor.editor.None? {
        return;
      }
      var block := CreatePropertyBlock(property, freshId);
      var range := editor.GetInsertionRange(selection);
      if range.None? {
        return;
      }
      editor.editor := Some(Splice(editor.editor.value, range.value, ChipText(block)));
      blocks := blocks + [block];
      editor.UpdateEditorState();
    }

    /** `deselectAllBlocks`: in the browser no block stays selected. */
    method DeselectAllBlocks()
      modifies this`selected
      ensures selected == if isBrowser then None else old(selected)
    {
      if isBrowser {
        selected := None;
      }
    }

    /** `selectPropertyBlock`: in the browser the given element becomes the only selected one. */
    method SelectPropertyBlock(element: DomNode)
      modifies this`selected
      ensures selected == if isBrowser then Some(element) else old(selected)
    {
      if !isBrowser {
        return;
      }
      DeselectAllBlocks();
      selected := Some(element);
    }

    function GetSelectedBlock(): Option<DomNode>
      reads this
    {
      selected
    }

    /**
     * `removePropertyBlock`: in the browser, the element leaves the DOM, so its
     * text leaves the editor's text when the element is in the editor (its text
     * starting at offset `at`, which is `None` exactly when the element is not
     * in the editor); every block carrying the element's id is dropped
     * when the element has a non-empty id; the statistics of the remaining text
     * are published. The selection is left as it was, even when it is the
     * removed element.
     */
    method RemovePropertyBlock(element: DomNode, at: Option<nat>)
      requires Valid()
      requires at.Some? ==>
        && editor.HasEditor()
        && at.value + |element.text| <= |editor.GetContent()|
        && editor.GetContent()[at.value..at.value + |element.text|] == element.text
      modifies this, editor
      ensures Valid()
      ensures selected == old(selected) && editor.lastKnownRange == old(editor.lastKnownRange)
      ensures isBrowser && at.Some? ==>
        editor.HasEditor() && editor.GetContent() == RemoveText(old(editor.GetContent()), at.value, |element.text|)
      ensures !(isBrowser && at.Some?) ==> editor.editor == old(editor.editor)
      ensures isBrowser && Truthy(element.propertyId) ==> blocks == WithoutId(old(blocks), element.propertyId.value)
      ensures !(isBrowser && Truthy(element.propertyId)) ==> blocks == old(blocks)
      ensures isBrowser && editor.HasEditor() ==> editor.state == Stats(editor.GetContent())
      ensures !(isBrowser && editor.HasEditor()) ==> editor.state == old(editor.state)
    {
      if !isBrowser {
        return;
      }
      var propertyId := element.propertyId;
      if at.Some? {
        editor.editor := Some(RemoveText(editor.editor.value, at.value, |element.text|));
      }
      if propertyId.Some? && propertyId.value != [] {
        blocks := WithoutId(blocks, propertyId.value);
      }
      editor.UpdateEditorState();
    }

    /**
     * `findPropertyBlockElement`: the index on the ancestor chain of the nearest
     * element carrying the `property-block` class, found before the chain ends
     * or reaches a node that is not an element; `None` outside the browser.
     */
    method FindPropertyBlockElement(chain: seq<DomNode>) returns (r: Option<nat>)
      ensures !isBrowser ==> r == None
      ensures r.Some? ==> r.value < |chain| && IsPropertyBlockElement(chain[r.value])
      ensures r.Some? ==> forall k :: 0 <= k < r.value ==> chain[k].isElement && !IsPropertyBlockElement(chain[k])
      ensures isBrowser && r.None? ==>
        forall k :: 0 <= k < |chain| && IsPropertyBlockElement(chain[k]) ==> exists j :: 0 <= j < k && !chain[j].isElement
    {
      if !isBrowser {
        return None;
      }
      var i := 0;
      while i < |chain| && chain[i].isElement
        invariant i <= |chain|
        invariant forall k :: 0 <= k < i ==> chain[k].isElement && !IsPropertyBlockElement(chain[k])
      {
        if PropertyBlockClass in chain[i].classes {
          return Some(i);
        }
        i := i + 1;
      }
      forall k | 0 <= k < |chain| && IsPropertyBlockElement(chain[k])
        ensures exists j :: 0 <= j < k && !chain[j].isElement
      {
        assert i < k && !chain[i].isElement;
      }
      return None;
    }

    /** `clearPropertyBlocks`: the list becomes empty, in the browser or not. */
    method ClearPropertyBlocks()
      modifies this`blocks
      ensures blocks == []
    {
      blocks := [];
    }
  }
}
