/**
 * The advanced-editor component: the top-level dispatch from the toolbar and
 * the property dropdown to the three services, the clear button, and the
 * fields that mirror the services' published lists and statistics.
 *
 * Angular injects one instance of each service, so the component, the
 * property-block service and the expression-block service share one editor
 * service. A subscription copies every value a service publishes into the
 * component; a behaviour subject publishes its current value on subscription
 * and again on every update.
 */
module AdvancedEditor {
  import opened Wrappers
  import opened Text
  import opened PropertyBlocks
  import opened ExpressionBlocks
  import opened EditorServices
  import opened PropertyBlockServices
  import opened ExpressionBlockServices

  /** The component's `editorContent`: its text and the mirrored property blocks. */
  datatype EditorContent = EditorContent(text: string, propertyBlocks: seq<PropertyBlock>)

  /** Toolbar text goes in as an expression block exactly when it ends with `()`. */
  predicate GoesToExpressionBlock(text: string) {
    EndsWith(text, "()")
  }

  /**
   * The routing looks at the suffix, not at `isFunction`: a call written with a
   * space between its parentheses is a function call but goes in as plain text.
   */
  lemma {:induction false} SpacedCallGoesInAsText(name: string)
    requires name != [] && All(name, IsAsciiLetter)
    ensures IsFunction(name + "( )")
    ensures !GoesToExpressionBlock(name + "( )")
  {
    var t := name + "( )";
    var a := |name|;
    assert t[..a] == name;
    assert t[a..a] == [] && t[a] == '(' && t[a + 1..|t| - 1] == " " && t[|t| - 1] == ')';
    assert !IsWhitespace(t[0]) && !IsWhitespace(t[|t| - 1]);
    UnpaddedTrim(t);
    PiecesGiveScan(t, a, a);
    assert t[|t| - 2..] == " )";
  }

  /**
   * A toolbar call `Name()` goes in as an expression block whose element reads
   * `Name()`, so the insertion range is replaced by `Name() `.
   */
  lemma {:induction false} CallGoesInAsItsText(name: string, freshId: string)
    requires name != [] && All(name, IsAsciiLetter)
    ensures GoesToExpressionBlock(name + "()")
    ensures ElementText(CreateExpressionBlock(freshId, name + "()")) + " " == name + "() "
  {
    var text := name + "()";
    assert text[|text| - 2..] == "()";
    NameCallIsFunction(name);
    var b := CreateExpressionBlock(freshId, text);
    assert b.isFunction && b.functionName == Some(name) && b.properties == [];
    NamedCallText(b, name);
  }

  /**
   * And text with an operator before its final `()` goes in as an expression
   * block that is not a function call and has no function name.
   */
  lemma {:induction false} OperatorBeforeCallIsPlainBlock(name: string, op: char, rest: string, freshId: string)
    requires name != [] && All(name, IsAsciiLetter)
    requires !IsAsciiLetter(op) && !IsWhitespace(op) && op != '('
    ensures var text := name + [op] + rest + "()";
      var b := CreateExpressionBlock(freshId, text);
      GoesToExpressionBlock(text) && !b.isFunction && b.functionName == None
  {
    var text := name + [op] + rest + "()";
    var a := |name|;
    assert text[..a] == name && text[a] == op;
    assert text[|text| - 2..] == "()";
    assert !IsWhitespace(text[0]) && !IsWhitespace(text[|text| - 1]);
    UnpaddedTrim(text);
    NoCallAfterOperator(text, a);
  }

  /** Such a block's element has no text, so only the space after it enters the editor's text. */
  lemma {:induction false} PlainBlockAddsOnlySpace(name: string, op: char, rest: string, freshId: string)
    requires name != [] && All(name, IsAsciiLetter)
    requires !IsAsciiLetter(op) && !IsWhitespace(op) && op != '('
    ensures ElementText(CreateExpressionBlock(freshId, name + [op] + rest + "()")) + " " == " "
  {
    OperatorBeforeCallIsPlainBlock(name, op, rest, freshId);
    PlainElementText(CreateExpressionBlock(freshId, name + [op] + rest + "()"));
  }

  class AdvancedEditorComponent {
    const isBrowser: bool
    const editorService: EditorService
    const propertyBlockService: PropertyBlockService
    const expressionBlockService: ExpressionBlockService
    var editorContent: EditorContent
    var editorState: EditorState
    var expressionBlocks: seq<ExpressionBlock>
    /** Whether `ngOnInit` subscribed to the three services. */
    var subscribed: bool

    /** The component's copies equal what the services last published. */
    predicate Mirrors()
      reads this, editorService, propertyBlockService, expressionBlockService
    {
      && editorContent.propertyBlocks == propertyBlockService.blocks
      && expressionBlocks == expressionBlockService.blocks
      && editorState == editorService.state
    }

    /** One shared editor service; subscriptions exist in the browser only. */
    ghost predicate Wired()
      reads this, editorService, propertyBlockService, expressionBlockService
    {
      && propertyBlockService.editor == editorService
      && expressionBlockService.editor == editorService
      && isBrowser == editorService.isBrowser
      && propertyBlockService.Valid() && expressionBlockService.Valid()
      && (subscribed ==> isBrowser)
    }

    /** The subscriptions keep the copies current. */
    ghost predicate Valid()
      reads this, editorService, propertyBlockService, expressionBlockService
    {
      Wired() && (subscribed ==> Mirrors())
    }

    constructor(editorService: EditorService, propertyBlockService: PropertyBlockService, expressionBlockService: ExpressionBlockService)
      requires propertyBlockService.editor == editorService && expressionBlockService.editor == editorService
      requires propertyBlockService.Valid() && expressionBlockService.Valid()
      ensures Valid()
      ensures isBrowser == editorService.isBrowser && !subscribed
      ensures editorContent == EditorContent([], []) && expressionBlocks == []
      ensures editorState == EditorState(0, 0, 1, 1)
    {
      this.isBrowser := editorService.isBrowser;
      this.editorService := editorService;
      this.propertyBlockService := propertyBlockService;
      this.expressionBlockService := expressionBlockService;
      editorContent := EditorContent([], []);
      editorState := EditorState(0, 0, 1, 1);
      expressionBlocks := [];
      subscribed := false;
    }

    /** The subscriptions' callbacks, run after a service publishes. */
    method Publish()
      requires Wired()
      modifies this`editorContent, this`editorState, this`expressionBlocks
      ensures Valid()
      ensures subscribed ==> Mirrors()
      ensures !subscribed ==> editorContent == old(editorContent) && editorState == old(editorState) && expressionBlocks == old(expressionBlocks)
    {
      if subscribed {
        editorState := editorService.state;
        editorContent := editorContent.(propertyBlocks := propertyBlockService.blocks);
        expressionBlocks := expressionBlockService.blocks;
      }
    }

    /** `ngOnInit`: in the browser, subscribes to the three services, which publish their current values at once. */
    method NgOnInit()
      requires Valid()
      modifies this`subscribed, this`editorContent, this`editorState, this`expressionBlocks
      ensures Valid()
      ensures subscribed == (isBrowser || old(subscribed))
      ensures isBrowser ==> Mirrors()
      ensures !isBrowser ==>
        editorContent == old(editorContent) && editorState == old(editorState) && expressionBlocks == old(expressionBlocks)
    {
      if isBrowser {
        subscribed := true;
        Publish();
      }
    }

    /**
     * `initializeEditor`: in the browser, once the view has its wrapper element
     * (`hasWrapper`), the editor service creates its editor element.
     */
    method InitializeEditor(hasWrapper: bool)
      requires Valid()
      modifies editorService
      ensures Valid()
      ensures editorService.editor == if isBrowser && hasWrapper then Some([]) else old(editorService.editor)
      ensures editorService.state == old(editorService.state)
      ensures editorService.lastKnownRange == old(editorService.lastKnownRange)
    {
      if isBrowser && hasWrapper {
        editorService.CreateEditor();
      }
    }

    /**
     * `onInsertText`: in the browser, text ending with `()` becomes an expression
     * block (under the new uuid `freshId`), whose element and a space replace
     * the insertion range, and any other text is inserted into the editor;
     * outside the browser nothing happens.
     */
    method OnInsertText(text: string, freshId: string, selection: Option<DomRange>)
      requires Valid()
      requires FindById(expressionBlockService.blocks, freshId).None?
      modifies this, editorService, expressionBlockService
      ensures Valid()
      ensures subscribed == old(subscribed) && (subscribed ==> Mirrors())
      ensures propertyBlockService.blocks == old(propertyBlockService.blocks)
      ensures expressionBlockService.selected == old(expressionBlockService.selected)
      ensures editorService.lastKnownRange == old(editorService.lastKnownRange)
      ensures !isBrowser ==>
        && expressionBlockService.blocks == old(expressionBlockService.blocks)
        && editorService.editor == old(editorService.editor)
        && editorService.state == old(editorService.state)
        && editorContent == old(editorContent) && editorState == old(editorState) && expressionBlocks == old(expressionBlocks)
      ensures isBrowser && GoesToExpressionBlock(text) ==>
        var b := CreateExpressionBlock(freshId, text);
        && editorService.state == old(editorService.state)
        && (old(editorService.HasEditor()) ==>
              && expressionBlockService.blocks == old(expressionBlockService.blocks) + [b]
              && editorService.GetContent() == Splice(old(editorService.GetContent()), old(editorService.GetInsertionRange(selection)).value, ElementText(b) + " "))
        && (!old(editorService.HasEditor()) ==>
              expressionBlockService.blocks == old(expressionBlockService.blocks) && editorService.editor == old(editorService.editor))
      ensures isBrowser && !GoesToExpressionBlock(text) ==>
        && expressionBlockService.blocks == old(expressionBlockService.blocks)
        && (old(editorService.HasEditor()) ==>
              && editorService.GetContent() == Splice(old(editorService.GetContent()), old(editorService.GetInsertionRange(selection)).value, text)
              && editorService.state == Stats(editorService.GetContent()))
        && (!old(editorService.HasEditor()) ==>
              editorService.editor == old(editorService.editor) && editorService.state == old(editorService.state))
    {
      if isBrowser {
        if EndsWith(text, "()") {
          expressionBlockService.InsertExpressionBlock(text, freshId, selection);
        } else {
          editorService.InsertText(text, selection);
        }
        Publish();
      }
    }

    /**
     * `onPropertySelected`: the property becomes a block (id `blockId`); with an
     * expression block selected it is added to that block, whose element's text
     * starts at offset `at` when it is in the editor, otherwise it is inserted
     * as a standalone property block, which takes a second fresh id
     * (`insertedId`).
     */
    method OnPropertySelected(property: Property, blockId: string, insertedId: string, selection: Option<DomRange>, at: Option<nat>)
      requires Valid()
      requires expressionBlockService.selected.Some? && at.Some? ==>
        var blocks := expressionBlockService.blocks;
        var target := Target(blocks, expressionBlockService.selected.value);
        target.Some? ==> expressionBlockService.InEditorAt(blocks[target.value], at.value)
      modifies this, editorService, propertyBlockService, expressionBlockService
      ensures Valid()
      ensures subscribed == old(subscribed) && (subscribed ==> Mirrors())
      ensures editorService.lastKnownRange == old(editorService.lastKnownRange)
      ensures propertyBlockService.selected == old(propertyBlockService.selected)
      ensures old(expressionBlockService.selected).Some? ==>
        var e := old(expressionBlockService.selected).value;
        var blocks := old(expressionBlockService.blocks);
        && propertyBlockService.blocks == old(propertyBlockService.blocks)
        && editorService.state == old(editorService.state)
        && (Target(blocks, e).Some? ==>
              var k := Target(blocks, e).value;
              var updated := WithProperties(blocks[k], blocks[k].properties + [CreatePropertyBlock(property, blockId)]);
              && expressionBlockService.blocks == blocks[k := updated]
              && expressionBlockService.selected == Some(e)
              && (at.Some? ==>
                    editorService.GetContent() ==
                      RewriteText(old(editorService.GetContent()), at.value, |ElementText(blocks[k])|, ElementText(updated))))
        && (Target(blocks, e).None? ==>
              expressionBlockService.blocks == blocks && expressionBlockService.selected == old(expressionBlockService.selected))
        && (Target(blocks, e).None? || at.None? ==> editorService.editor == old(editorService.editor))
      ensures old(expressionBlockService.selected).None? ==>
        && expressionBlockService.blocks == old(expressionBlockService.blocks)
        && expressionBlockService.selected == None
        && propertyBlockService.blocks ==
             (if old(editorService.HasEditor()) then old(propertyBlockService.blocks) + [CreatePropertyBlock(property, insertedId)]
              else old(propertyBlockService.blocks))
        && (old(editorService.HasEditor()) ==>
              editorService.GetContent() ==
                Splice(old(editorService.GetContent()), old(editorService.GetInsertionRange(selection)).value, ChipText(CreatePropertyBlock(property, insertedId))))
        && (old(editorService.HasEditor()) ==> editorService.state == Stats(editorService.GetContent()))
        && (!old(editorService.HasEditor()) ==>
              editorService.editor == old(editorService.editor) && editorService.state == old(editorService.state))
    {
      var propertyBlock := CreatePropertyBlock(property, blockId);
      var selected := expressionBlockService.GetSelectedBlock();
      if selected.Some? {
        expressionBlockService.AddPropertyToExpression(selected.value, propertyBlock, at);
      } else {
        propertyBlockService.InsertPropertyBlock(PropertyOf(propertyBlock), insertedId, selection);
      }
      Publish();
    }

    /** `clearEditor`: in the browser, the editor text and the property blocks are cleared; the expression blocks stay. */
    method ClearEditor()
      requires Valid()
      modifies this, editorService, propertyBlockService
      ensures Valid()
      ensures subscribed == old(subscribed) && (subscribed ==> Mirrors())
      ensures expressionBlockService.blocks == old(expressionBlockService.blocks)
      ensures isBrowser ==> propertyBlockService.blocks == []
      ensures editorService.lastKnownRange == old(editorService.lastKnownRange)
      ensures propertyBlockService.selected == old(propertyBlockService.selected)
      ensures isBrowser && old(editorService.HasEditor()) ==>
        editorService.GetContent() == [] && editorService.state.characterCount == 0 && editorService.state.wordCount == 0
      ensures !(isBrowser && old(editorService.HasEditor())) ==>
        editorService.editor == old(editorService.editor) && editorService.state == old(editorService.state)
      ensures !isBrowser ==>
        && propertyBlockService.blocks == old(propertyBlockService.blocks)
        && editorContent == old(editorContent) && editorState == old(editorState) && expressionBlocks == old(expressionBlocks)
    {
      if isBrowser {
        editorService.ClearEditor();
        propertyBlockService.ClearPropertyBlocks();
        Publish();
      }
    }
  }
}
