# Advanced editor: a verified model

This project models the core of an Angular "advanced editor", an expression editor. The user types text into an editable area. Property chips are chosen from a dropdown. Function calls from a toolbar become expression blocks. A second, CodeMirror-based editor offers cut, copy, paste, drag-and-drop, syntax checking and a simulator that substitutes variable values into an expression and evaluates it.

The model follows the source file by file, one module each:

| module | file | form |
|---|---|---|
| `Text` | shared helpers | JavaScript's `\s` and `\w` classes, `[A-Za-z]`, `String.prototype.trim`, `endsWith` |
| `PropertyBlocks` | `property-block.model.ts`, `property-block.service.ts` (pure part) | datatypes and functions |
| `PropertyBlockServices` | `property-block.service.ts` | class `PropertyBlockService` |
| `ExpressionBlocks` | `expression-block.model.ts`, `expression-block.service.ts` (pure part) | datatypes, classifiers, lemmas |
| `ExpressionBlockServices` | `expression-block.service.ts` | class `ExpressionBlockService` |
| `EditorServices` | `editor.service.ts` | word-count reference definition, class `EditorService` |
| `CodeMirrorEditor` | `code-mirror-editor.component.ts` | pure buffer edits, whole-word substitution, class `CodeMirrorEditorComponent` |
| `AdvancedEditor` | `advanced-editor.component.ts` | class `AdvancedEditorComponent` |

How source concepts are represented:
- A DOM element becomes its `data-property-id` or `data-expression-id` attribute. An empty attribute is falsy in JavaScript, so it is treated like a missing one.
- The editor element becomes its `innerText`. A DOM `Range` becomes `DomRange(inEditor, start, end)`, fixed offsets into that text. The window selection is a parameter.
- A property chip shows the block's name; inserting it also inserts one space after it. Both are part of the editor text, and removing the chip cuts its name out again.
- An expression element's text is the function name and `(` for a named call, then its content container, then `)` for a call. The container holds the property references, each the property's name followed by the delete button's two characters `Ã—`, with `, ` between neighbours. Inserting the element replaces the insertion range with its text and one space. Adding or removing a property rewrites the element's text where it sits in the editor. The offset of an element's text in the editor text is a parameter, `None` when the element is not in the editor.
- An ancestor walk takes the chain node, parent, grandparent, and so on.
- Generated uuids are fresh-id parameters.
- The clipboard is a parameter when read and an out-parameter when written.
- `posAtCoords` is a drop-position parameter.
- `new Function` is an oracle parameter that returns a value or an error message.
- Numbers are represented by their printed text.
- Each RxJS behaviour subject is a plain field of its service. The component's subscriptions become a `Publish` step that copies those fields.

Word counting has an independent reference definition, `Words`. It counts the positions where a non-whitespace character follows whitespace or the start of the text. The source's `trim().split(/\s+/).length` is proved equal to it.

Whole-word substitution follows the global `String.prototype.replace` scan. The pattern is tried at each position in turn. After a match the scan resumes where the match ended, or one character later after an empty match. A separate first-match search is the reference the scan is proved against.

## Model

| member | source | states |
|---|---|---|
| Text.TrimIsSegment | src/app/advanced-editor/services/editor.service.ts:89 | `trim` keeps one contiguous segment of the text; everything before and after it is whitespace |
| Text.TrimEnds | src/app/advanced-editor/services/editor.service.ts:89 | the trimmed text is empty exactly when the text is all whitespace; otherwise its first and last characters are not whitespace |
| Text.UnpaddedTrim | src/app/advanced-editor/services/expression-block.service.ts:352 | a text that neither starts nor ends with whitespace is its own trim |
| Text.TrimAfterPadding | src/app/advanced-editor/services/expression-block.service.ts:352 | whitespace in front of any text does not change its trim |
| PropertyBlocks.CreatePropertyBlock | src/app/advanced-editor/services/property-block.service.ts:235-242 | the block carries the property's name, type and value unchanged, and the fresh id |
| PropertyBlocks.WithoutId | src/app/advanced-editor/services/property-block.service.ts:196-199 | a block survives the filter exactly when it was there and its id differs; the list never grows |
| PropertyBlocks.WithoutIdConcat | src/app/advanced-editor/services/property-block.service.ts:196-199 | filtering distributes over concatenation, so the kept blocks keep their order |
| PropertyBlocks.WithoutAbsentId | src/app/advanced-editor/services/property-block.service.ts:196-199 | when no block carries the id, the list is unchanged |
| PropertyBlocks.WithoutPresentIdShrinks | src/app/advanced-editor/services/property-block.service.ts:196-199 | when some block carries the id, the list gets strictly shorter |
| PropertyBlockServices.PropertyBlockService.constructor | src/app/advanced-editor/services/property-block.service.ts:19-24 | starts with no blocks and no selection, sharing the editor service |
| PropertyBlockServices.PropertyBlockService.InsertPropertyBlock | src/app/advanced-editor/services/property-block.service.ts:29-79 | if the browser, editor and range guards pass, one block (fresh id; the property's name, type and value) goes at the end, its chip text replaces the insertion range, and the statistics are republished; otherwise nothing changes |
| PropertyBlockServices.PropertyBlockService.DeselectAllBlocks | src/app/advanced-editor/services/property-block.service.ts:127-136 | in the browser no block is selected afterwards; outside it nothing changes |
| PropertyBlockServices.PropertyBlockService.SelectPropertyBlock | src/app/advanced-editor/services/property-block.service.ts:141-161 | in the browser the element becomes the only selected one; outside it nothing changes |
| PropertyBlockServices.PropertyBlockService.RemovePropertyBlock | src/app/advanced-editor/services/property-block.service.ts:186-204 | in the browser the element leaves the DOM, so its text is cut out of the editor text when it sits in the editor; with a non-empty id every block with that id is filtered out; the statistics of the remaining text are published; the selection is never touched, even when it is the removed block |
| PropertyBlockServices.ChipText | src/app/advanced-editor/services/property-block.service.ts:48-57 | the text an inserted chip adds to the editor: the block's name, set as the element's text, followed by the space node inserted after it; `RemoveChipLeavesSpace` proves that removing the chip leaves only that space |
| PropertyBlockServices.RemoveText | src/app/advanced-editor/services/property-block.service.ts:193 | removing a node takes exactly its text out of the editor text: the text before it and after it are kept, and the length drops by the node's text length |
| PropertyBlockServices.RemoveChipLeavesSpace | src/app/advanced-editor/services/property-block.service.ts:48-57 | the inserted chip's text is the block name at the range start, and removing it leaves the text as before the insertion with the range replaced by the one space inserted after the chip |
| PropertyBlockServices.PropertyBlockService.FindPropertyBlockElement | src/app/advanced-editor/services/property-block.service.ts:209-223 | returns the nearest node on the ancestor chain that has the `property-block` class, with only non-block elements before it; a `None` result means every block element on the chain lies beyond a non-element node; always `None` outside the browser |
| PropertyBlockServices.PropertyBlockService.GetSelectedBlock | src/app/advanced-editor/services/property-block.service.ts:166-168 | returns the selected chip, if any, without changing anything |
| PropertyBlockServices.PropertyBlockService.ClearPropertyBlocks | src/app/advanced-editor/services/property-block.service.ts:228-230 | the list is empty afterwards |
| ExpressionBlocks.IsFunction | src/app/advanced-editor/services/expression-block.service.ts:351-353 | holds exactly when the trimmed content is ASCII letters, optional whitespace, `(`, optional whitespace and `)`, the texts `^[A-Za-z]+\s*\(\s*\)$` accepts |
| ExpressionBlocks.ScanMatchesPattern | src/app/advanced-editor/services/expression-block.service.ts:351-353 | the left-to-right scan accepts exactly the texts made of letters, optional whitespace, `(`, optional whitespace and `)` |
| ExpressionBlocks.ExtractFunctionName | src/app/advanced-editor/services/expression-block.service.ts:358-361 | a returned name is a non-empty run of ASCII letters that begins the untrimmed content |
| ExpressionBlocks.ExtractFunctionNameMatchesPattern | src/app/advanced-editor/services/expression-block.service.ts:358-361 | a name is returned exactly when the content starts with letters, optional whitespace and `(`; the name is then those letters |
| ExpressionBlocks.FunctionHasName | src/app/advanced-editor/services/expression-block.service.ts:351-361 | content that is a function call and does not start with whitespace has a function name: its leading letters |
| ExpressionBlocks.NameCallIsFunction | src/app/advanced-editor/services/expression-block.service.ts:351-361 | `Name()` is a function call named `Name` |
| ExpressionBlocks.NameWithArgumentIsNotFunction | src/app/advanced-editor/services/expression-block.service.ts:351-361 | `Name(arg)` is not a function call but still yields the name `Name` |
| ExpressionBlocks.NoCallAfterOperator | src/app/advanced-editor/services/expression-block.service.ts:351-361 | letters followed by a character that is neither whitespace nor `(` match neither the call pattern nor the name pattern |
| ExpressionBlocks.NoNameAfterWhitespace | src/app/advanced-editor/services/expression-block.service.ts:358-361 | content that starts with whitespace has no function name |
| ExpressionBlocks.LeadingWhitespaceHidesName | src/app/advanced-editor/services/expression-block.service.ts:351-361 | ` Name()` is a function call, because it is trimmed first, but has no function name, because the name pattern is not |
| ExpressionBlocks.CreateExpressionBlock | src/app/advanced-editor/services/expression-block.service.ts:29-37 | the new block has the content and the fresh id, no properties and `isValid` false; `isFunction` holds exactly when the trimmed content matches the call pattern; `functionName` comes from the name pattern |
| ExpressionBlocks.GetExpressionState | src/app/advanced-editor/services/expression-block.service.ts:183-190 | `isEmpty` is the negation of `isValid`; `isValid` holds exactly when there are properties; `propertyCount` is their number; `hasFunction` is `isFunction` |
| ExpressionBlocks.CreatedIsConsistent | src/app/advanced-editor/services/expression-block.service.ts:29-37 | a fresh block's flags agree with its state and with both classifiers |
| ExpressionBlocks.FindById | src/app/advanced-editor/services/expression-block.service.ts:288-289 | returns the index of the first block with the id; `None` when no block has it |
| ExpressionBlocks.ReplaceByIdWithUniqueIds | src/app/advanced-editor/services/expression-block.service.ts:341-344 | with distinct ids, the map-by-id rewrites exactly the block found and nothing else |
| ExpressionBlocks.AppendFreshKeepsUniqueIds | src/app/advanced-editor/services/expression-block.service.ts:82-84 | appending a block with an unused id keeps the ids distinct |
| ExpressionBlocks.ReplaceByIdKeepsUniqueIds | src/app/advanced-editor/services/expression-block.service.ts:341-344 | the map-by-id keeps distinct ids distinct |
| ExpressionBlockServices.Target | src/app/advanced-editor/services/expression-block.service.ts:310-315 | the block an element edits is the first with the element's id; `None` for an element without an id or with an unknown one |
| ExpressionBlockServices.WithProperties | src/app/advanced-editor/services/expression-block.service.ts:336-345 | the edited block gets the new property list and `isValid` set to "has properties"; its id, content, `isFunction` and `functionName` are kept |
| ExpressionBlockServices.ExpressionBlockService.constructor | src/app/advanced-editor/services/expression-block.service.ts:20-24 | starts with no blocks and no selection, sharing the editor service |
| ExpressionBlockServices.ExpressionBlockService.InsertExpressionBlock | src/app/advanced-editor/services/expression-block.service.ts:43-84 | if the guards pass, the insertion range's contents are deleted and replaced by the new element's text and one space, and exactly one created block goes at the end; otherwise the list and the editor text are unchanged; the statistics are not republished; the selection is kept; every block stays valid exactly when it has properties, and the ids stay distinct because the new block's uuid is unused |
| ExpressionBlockServices.ExpressionBlockService.GetSelectedBlock | src/app/advanced-editor/services/expression-block.service.ts:236-238 | returns the selected expression element, if any, without changing anything |
| ExpressionBlockServices.ExpressionBlockService.FindBlockById | src/app/advanced-editor/services/expression-block.service.ts:228-231 | the first block with the id, or a new empty block when the id is missing, empty or unknown |
| ExpressionBlockServices.ExpressionBlockService.DeselectAllBlocks | src/app/advanced-editor/services/expression-block.service.ts:195-205 | in the browser nothing is selected afterwards |
| ExpressionBlockServices.ExpressionBlockService.SelectExpressionBlock | src/app/advanced-editor/services/expression-block.service.ts:210-223 | the element becomes the only selected one |
| ExpressionBlockServices.ExpressionBlockService.UpdateExpressionBlockState | src/app/advanced-editor/services/expression-block.service.ts:336-346 | every block with the edited block's id is replaced by it, with `isValid` recomputed |
| ExpressionBlockServices.ExpressionBlockService.AddPropertyToExpression | src/app/advanced-editor/services/expression-block.service.ts:309-331 | the named block gets the property appended and is rewritten by id, which, the ids being distinct, rewrites that one index and no other; when the element is in the editor its text there is replaced by the rebuilt element's text, and otherwise the editor text is unchanged; the statistics are not republished; the element becomes the selected one; without an id or with an unknown id nothing changes |
| ExpressionBlockServices.ExpressionBlockService.RemovePropertyFromExpression | src/app/advanced-editor/services/expression-block.service.ts:282-304 | the named block loses every property with the id and is rewritten by id, which, the ids being distinct, rewrites that one index and no other; when the element is in the editor its text there is replaced by the rebuilt element's text, and otherwise the editor text is unchanged; the statistics are not republished; the element becomes the selected one; without an id or with an unknown id nothing changes |
| ExpressionBlockServices.ReferenceText | src/app/advanced-editor/services/expression-block.service.ts:256-275 | a property reference reads as the property's name followed by the two characters of the delete button |
| ExpressionBlockServices.ContentText | src/app/advanced-editor/services/expression-block.service.ts:243-277 | the rebuilt content container reads as the references in order with `, ` between neighbours, and it is empty exactly when there are no properties |
| ExpressionBlockServices.ElementText | src/app/advanced-editor/services/expression-block.service.ts:90-121 | an element's text is its name-and-`(` head, its content container and its `)` tail, and its length is the sum of theirs |
| ExpressionBlockServices.RewriteText | src/app/advanced-editor/services/expression-block.service.ts:294-297 | replacing a node's text in the editor keeps the text before and after it and puts the new text exactly in its place |
| ExpressionBlockServices.ContentTextOfAdded | src/app/advanced-editor/services/expression-block.service.ts:243-277 | appending a property extends the container's text by `, ` (when there were references) and the new reference |
| ExpressionBlockServices.CreatedElementText | src/app/advanced-editor/services/expression-block.service.ts:90-121 | a new element for content that is not a call has no text; for a call with a name it reads `Name()` |
| ExpressionBlockServices.NamedCallText | src/app/advanced-editor/services/expression-block.service.ts:90-121 | the element of a named call with no properties reads as `Name()` |
| ExpressionBlockServices.AddedElementText | src/app/advanced-editor/services/expression-block.service.ts:318-324 | after adding a property the element's text keeps its head and tail and gains the separator and reference after the old references |
| ExpressionBlockServices.AddedReferenceInEditor | src/app/advanced-editor/services/expression-block.service.ts:318-324 | in the editor text, adding a property to an element inserts only the separator and the new reference, right after the element's old references; everything else is kept |
| ExpressionBlockServices.AddPropertyEffect | src/app/advanced-editor/services/expression-block.service.ts:309-346 | with distinct ids only the target block changes: its properties become old plus the new one at the end, it becomes valid, and its id, content, `isFunction` and `functionName` are kept; every other block, the length and the order are unchanged; ids stay distinct |
| ExpressionBlockServices.RemovePropertyEffect | src/app/advanced-editor/services/expression-block.service.ts:282-304 | with distinct ids only the target block changes: it keeps exactly the properties whose id differs, and it is valid exactly when some remain; every other block is unchanged |
| EditorServices.Split | src/app/advanced-editor/services/editor.service.ts:89 | `split(/\s+/)` always yields at least one piece |
| EditorServices.Stats | src/app/advanced-editor/services/editor.service.ts:84-93 | `characterCount` is the text length; `wordCount` is the number of maximal non-whitespace runs; it is at most `characterCount` and is 0 exactly when the text is all whitespace; the cursor is always line 1, column 1 |
| EditorServices.WordsBound | src/app/advanced-editor/services/editor.service.ts:89 | there are never more words than characters |
| EditorServices.WordsZero | src/app/advanced-editor/services/editor.service.ts:89 | a text has no words exactly when it is all whitespace |
| EditorServices.SplitCountsWords | src/app/advanced-editor/services/editor.service.ts:89 | on a text with non-whitespace ends, the number of `split(/\s+/)` pieces is the number of words |
| EditorServices.WordsOfPadded | src/app/advanced-editor/services/editor.service.ts:89 | whitespace padding on either side does not change the number of words |
| EditorServices.WordCount | src/app/advanced-editor/services/editor.service.ts:89 | the reference word count (the number of whitespace-separated pieces of the trimmed text) is 0 exactly when the trimmed text is empty |
| EditorServices.WordCountIsWords | src/app/advanced-editor/services/editor.service.ts:89 | the expression `trim() ? trim().split(/\s+/).length : 0` equals the reference word count |
| EditorServices.Splice | src/app/advanced-editor/services/editor.service.ts:191-194 | the range's contents (offsets clamped to the text) are replaced by the text: the prefix, the inserted text and the suffix are exactly where they should be, and the length changes accordingly |
| EditorServices.EditorService.constructor | src/app/advanced-editor/services/editor.service.ts:17-36 | no editor and no saved range; counts 0; cursor at 1,1 |
| EditorServices.EditorService.CreateEditor | src/app/advanced-editor/services/editor.service.ts:41-68 | in the browser a fresh empty editor replaces any previous one |
| EditorServices.EditorService.GetContent | src/app/advanced-editor/services/editor.service.ts:111-115 | the editor's text, or the empty string without an editor or outside the browser |
| EditorServices.EditorService.UpdateEditorState | src/app/advanced-editor/services/editor.service.ts:80-96 | with an editor, the published state is the statistics of its text; otherwise it is unchanged |
| EditorServices.EditorService.ClearEditor | src/app/advanced-editor/services/editor.service.ts:101-106 | with an editor, the content is empty and both counts are 0; the saved range is kept |
| EditorServices.EditorService.DestroyEditor | src/app/advanced-editor/services/editor.service.ts:120-123 | the editor is gone and the content reads as the empty string |
| EditorServices.EditorService.SaveCurrentRange | src/app/advanced-editor/services/editor.service.ts:128-135 | in the browser, a selection with a range overwrites the saved range; otherwise the old one is kept |
| EditorServices.EditorService.EndRange | src/app/advanced-editor/services/editor.service.ts:157-161 | a collapsed range inside the editor at the end of its text |
| EditorServices.EditorService.GetInsertionRange | src/app/advanced-editor/services/editor.service.ts:140-162 | in priority order: the live selection if inside the editor, else the saved range if inside, else the end; `None` exactly when there is no editor or no browser |
| EditorServices.EditorService.InsertText | src/app/advanced-editor/services/editor.service.ts:184-212 | with an editor, the text replaces the insertion range and the statistics of the new text are published; otherwise nothing changes |
| CodeMirrorEditor.Apply | src/app/code-mirror-editor/code-mirror-editor.component.ts:207-210 | a change replaces `[from, to)` by its insert: the new length is `old - (to - from) + \|insert\|`, with the prefix, the insert and the suffix in place |
| CodeMirrorEditor.Cut | src/app/code-mirror-editor/code-mirror-editor.component.ts:200-214 | an empty selection changes nothing and writes nothing; otherwise the selected text goes to the clipboard and the document becomes `doc[..from] + doc[to..]` |
| CodeMirrorEditor.Copy | src/app/code-mirror-editor/code-mirror-editor.component.ts:216-226 | the document never changes; the clipboard gets the selected text exactly when the selection is non-empty |
| CodeMirrorEditor.Paste | src/app/code-mirror-editor/code-mirror-editor.component.ts:228-243 | the clipboard text replaces the selection; the new length is `old - (to - from) + \|text\|` |
| CodeMirrorEditor.Delete | src/app/code-mirror-editor/code-mirror-editor.component.ts:245-257 | an empty selection changes nothing; otherwise the document becomes `doc[..from] + doc[to..]` |
| CodeMirrorEditor.ModC | src/app/code-mirror-editor/code-mirror-editor.component.ts:32-41 | `Mod-c` leaves the document alone and puts the selected text on the clipboard, the empty string for an empty selection; on a non-empty selection it is exactly `copyText` |
| CodeMirrorEditor.ModCAgreesWithCopy | src/app/code-mirror-editor/code-mirror-editor.component.ts:32-41 | `Mod-c` and `copyText` agree on a non-empty selection; on an empty one `copyText` writes nothing while `Mod-c` writes the empty string; neither changes the document |
| CodeMirrorEditor.ModX | src/app/code-mirror-editor/code-mirror-editor.component.ts:43-61 | the selected text goes to the clipboard and the document becomes the text before `from` followed by the text after `to`, with no empty-selection check |
| CodeMirrorEditor.InsertAtCursor | src/app/code-mirror-editor/code-mirror-editor.component.ts:284-294 | the text goes in at the selection head and nothing is deleted |
| CodeMirrorEditor.DragPayload | src/app/code-mirror-editor/code-mirror-editor.component.ts:138-147 | a `text/plain` payload is set exactly for a non-empty selection, and it is the selected text |
| CodeMirrorEditor.Drop | src/app/code-mirror-editor/code-mirror-editor.component.ts:148-164 | a non-empty payload with a drop position is inserted there, and nothing is deleted; otherwise nothing changes |
| CodeMirrorEditor.CutThenPasteRestores | src/app/code-mirror-editor/code-mirror-editor.component.ts:200-243 | cutting a selection, then pasting the clipboard where it started, gives back the document |
| CodeMirrorEditor.ModXAgreesWithCut | src/app/code-mirror-editor/code-mirror-editor.component.ts:43-61 | `Mod-x` and `cutText` leave the same document for every selection; on an empty one only `Mod-x` writes to the clipboard, the empty string |
| CodeMirrorEditor.DeleteIsCutWithoutClipboard | src/app/code-mirror-editor/code-mirror-editor.component.ts:245-257 | deleting leaves the same document as cutting |
| CodeMirrorEditor.DragAndDropCopies | src/app/code-mirror-editor/code-mirror-editor.component.ts:138-164 | dropping a dragged non-empty selection outside it puts a copy of the selected text at the drop position, and the original is still there: shifted by the copy's length when the drop is at or before its start, in place when the drop is at or after its end |
| CodeMirrorEditor.FirstMatch | src/app/code-mirror-editor/code-mirror-editor.component.ts:300-304 | a position the search returns is at or after the search start, and `\bname\b` matches there |
| CodeMirrorEditor.FirstMatchIsFirst | src/app/code-mirror-editor/code-mirror-editor.component.ts:300-304 | the search finds the least position at or after the search start where `\bname\b` matches, and finds none only when no position matches |
| CodeMirrorEditor.ReplaceScan | src/app/code-mirror-editor/code-mirror-editor.component.ts:300-304 | the global `replace` loop: try the pattern position by position, copy the text before a match, emit the value, resume after the match (one character on after an empty match); its behaviour is stated by the two lemmas that follow |
| CodeMirrorEditor.ReplaceWord | src/app/code-mirror-editor/code-mirror-editor.component.ts:300-304 | one variable's `replace` over the whole text, the scan started at 0; `ReplaceWithoutMatch` and `NoMatchInsideLongerWord` state when it changes nothing |
| CodeMirrorEditor.ReplaceScanAtFirstMatch | src/app/code-mirror-editor/code-mirror-editor.component.ts:300-304 | the position-by-position scan jumps straight to the first match: it copies the text before it, puts the value in its place and resumes after it |
| CodeMirrorEditor.ReplaceScanPastLastMatch | src/app/code-mirror-editor/code-mirror-editor.component.ts:300-304 | with no match left, the scan copies the rest of the text |
| CodeMirrorEditor.ReplaceWithoutMatch | src/app/code-mirror-editor/code-mirror-editor.component.ts:300-304 | a text with no whole-word occurrence of the name is unchanged |
| CodeMirrorEditor.NoMatchInsideLongerWord | src/app/code-mirror-editor/code-mirror-editor.component.ts:300-304 | a text that is a single run of word characters longer than the name is unchanged (`a` in `ab`, `a1`, `_a`) |
| CodeMirrorEditor.NoMatchInsideWord | src/app/code-mirror-editor/code-mirror-editor.component.ts:300 | in any text, an occurrence of a word-character name with a word character directly before or after it is not a whole-word match |
| CodeMirrorEditor.ReplaceBySelf | src/app/code-mirror-editor/code-mirror-editor.component.ts:300-304 | substituting a name by itself changes nothing |
| CodeMirrorEditor.ReplaceWholeWord | src/app/code-mirror-editor/code-mirror-editor.component.ts:300-304 | a text that is exactly the name becomes the value |
| CodeMirrorEditor.SubstituteAll | src/app/code-mirror-editor/code-mirror-editor.component.ts:298-306 | the loop over the simulation values, each variable replaced in table order on the previous result; the two lemmas that follow state its algebra |
| CodeMirrorEditor.SubstituteNothing | src/app/code-mirror-editor/code-mirror-editor.component.ts:298-306 | an empty table leaves the text unchanged |
| CodeMirrorEditor.SubstituteInParts | src/app/code-mirror-editor/code-mirror-editor.component.ts:298-306 | substituting a table in two parts is substituting the first part, then the second on its result |
| CodeMirrorEditor.CodeMirrorEditorComponent.constructor | src/app/code-mirror-editor/code-mirror-editor.component.ts:122-178 | in the browser a view on an empty document; no result and no message |
| CodeMirrorEditor.CodeMirrorEditorComponent.GetEditorContent | src/app/code-mirror-editor/code-mirror-editor.component.ts:280-282 | the document, or the empty string when there is no view |
| CodeMirrorEditor.CodeMirrorEditorComponent.CutText | src/app/code-mirror-editor/code-mirror-editor.component.ts:200-214 | with a view, applies `Cut` and returns what it wrote to the clipboard |
| CodeMirrorEditor.CodeMirrorEditorComponent.CopyText | src/app/code-mirror-editor/code-mirror-editor.component.ts:216-226 | with a view, returns what `Copy` writes; changes no state |
| CodeMirrorEditor.CodeMirrorEditorComponent.PasteText | src/app/code-mirror-editor/code-mirror-editor.component.ts:228-243 | with a view, applies `Paste` |
| CodeMirrorEditor.CodeMirrorEditorComponent.DeleteText | src/app/code-mirror-editor/code-mirror-editor.component.ts:245-257 | with a view, applies `Delete` |
| CodeMirrorEditor.CodeMirrorEditorComponent.InsertTextAtCursor | src/app/code-mirror-editor/code-mirror-editor.component.ts:284-294 | with a view, applies `InsertAtCursor` |
| CodeMirrorEditor.CodeMirrorEditorComponent.OnDrop | src/app/code-mirror-editor/code-mirror-editor.component.ts:148-164 | with a view, applies `Drop` |
| CodeMirrorEditor.CodeMirrorEditorComponent.SyntaxValidator | src/app/code-mirror-editor/code-mirror-editor.component.ts:259-278 | the view's document is checked; if it parses: no diagnostics and the message is cleared; otherwise exactly one `error` diagnostic at `from == to == code.length` and the message `Syntax Error: ` plus the parser's message |
| CodeMirrorEditor.CodeMirrorEditorComponent.SimulateExpression | src/app/code-mirror-editor/code-mirror-editor.component.ts:296-318 | the loop substitutes every variable in table order (invariant: the text so far is the substitution by the table prefix), then evaluates `return (...)`; success stores the value and clears the message, failure clears the value and stores `Evaluation Error: ` plus the message |
| AdvancedEditor.GoesToExpressionBlock | src/app/advanced-editor/advanced-editor.component.ts:135 | the routing test: text goes to the expression-block service exactly when it ends in `()`; `SpacedCallGoesInAsText` and `OperatorBeforeCallIsPlainBlock` show where this differs from `isFunction` |
| AdvancedEditor.SpacedCallGoesInAsText | src/app/advanced-editor/advanced-editor.component.ts:135 | `Name( )` is a function call by `isFunction`, yet it is routed as plain text, because routing tests the `()` suffix |
| AdvancedEditor.CallGoesInAsItsText | src/app/advanced-editor/advanced-editor.component.ts:135-136 | a toolbar call `Name()` is routed to an expression block, and the insertion range is replaced by `Name() `: the element reads as the call it came from |
| AdvancedEditor.OperatorBeforeCallIsPlainBlock | src/app/advanced-editor/advanced-editor.component.ts:135-136 | text such as `a+b()` is routed to an expression block that is not a function call and has no function name |
| AdvancedEditor.PlainBlockAddsOnlySpace | src/app/advanced-editor/services/expression-block.service.ts:60-66 | for text such as `a+b()` the element has no text, so inserting it replaces the insertion range by a single space |
| AdvancedEditor.AdvancedEditorComponent.constructor | src/app/advanced-editor/advanced-editor.component.ts:29-62 | empty content, no expression blocks, zero statistics, not yet subscribed |
| AdvancedEditor.AdvancedEditorComponent.Publish | src/app/advanced-editor/advanced-editor.component.ts:74-92 | once subscribed, the component's copies equal the services' current lists and statistics |
| AdvancedEditor.AdvancedEditorComponent.NgOnInit | src/app/advanced-editor/advanced-editor.component.ts:64-99 | in the browser the component subscribes and its copies equal the services' values at once; outside the browser its copies are unchanged |
| AdvancedEditor.AdvancedEditorComponent.InitializeEditor | src/app/advanced-editor/advanced-editor.component.ts:114-127 | in the browser, once the wrapper element exists, the editor service creates an empty editor; otherwise the editor is unchanged; the statistics and the saved range are always kept |
| AdvancedEditor.AdvancedEditorComponent.OnInsertText | src/app/advanced-editor/advanced-editor.component.ts:132-141 | in the browser, text ending in `()` appends one expression block, and its element's text and a space replace the insertion range, with no new statistics; other text is spliced into the editor at the insertion range, the statistics become those of the new text, and the expression blocks are kept; without an editor nothing changes; outside the browser the editor, the statistics, the blocks and the copies are unchanged; the saved range, the selection and the property blocks are always kept, and the copies stay current |
| AdvancedEditor.AdvancedEditorComponent.OnPropertySelected | src/app/advanced-editor/advanced-editor.component.ts:146-162 | with an expression selected: when its block is found, the property is added to that block, the selection stays on it and the element's text in the editor is rebuilt when the element is there; when no block matches, the blocks and the selection are unchanged; the property list and the statistics are unchanged either way. With none selected: the property list grows by one block with the second fresh id, its chip replaces the insertion range and the statistics become those of the new text, or without an editor nothing changes; the expression blocks are unchanged and nothing is selected. The saved range and the selected chip are always kept |
| AdvancedEditor.AdvancedEditorComponent.ClearEditor | src/app/advanced-editor/advanced-editor.component.ts:190-195 | in the browser the property list is emptied and, with an editor, the editor text is empty and both counts are 0; otherwise the editor and the statistics are unchanged, and outside the browser the property list and the copies are too; the expression blocks, the saved range and the selected chip are always kept |

## Left out

- DOM attributes and styling are presentation only and are left out. This covers the attributes and styles of chip and expression-block elements (the text of both is modelled), hover, the delete button's `title` and click listener, and focus handling (`focusEditor` moves the caret and the window selection only).
- `innerText` is modelled as the concatenation of the nodes' text. Line breaks or spacing that a browser's `innerText` adds because of CSS layout (the expression element is an `inline-flex` box) are not modelled.
- Where the caret goes after an insertion (`setStartAfter`, `collapse`, `addRange`) is not modelled; it only affects the next live selection, which is a parameter.
- `event-handler.service.ts` is listener wiring over browser event propagation and is left out.
- `findParentExpressionBlock` in the component is never called in the shown code. It is the same walk as `FindPropertyBlockElement`, for another class.
- `onPropertyDragged`, `ngOnDestroy` and the component's `form` only log, unsubscribe or hold UI state.
- The context menu's display and position (`onContextMenu`, `closeContextMenu`) are presentation and are left out.
- The `Shift-ArrowRight` binding changes only the selection.
- CodeMirror remaps the selection after each dispatched change. That remapping belongs to the library, so every command takes the current main selection as a parameter instead.
- `new Function` evaluation and JavaScript parsing are oracle parameters.
- Floating-point numbers and `Number.prototype.toString` are represented by opaque printed text.
- `lastUpdated` (a `Date`) and `selectedText` (the window selection) are not part of the modelled `EditorState`.
- uuid generation, the asynchronous clipboard API and `posAtCoords` are parameters. `setTimeout`, Angular dependency injection and lifecycle ordering are not modelled beyond the explicit `NgOnInit`/`InitializeEditor` calls; whether the view's wrapper element exists is the `hasWrapper` parameter of `InitializeEditor`.
- CodeMirrorEditor.ReplaceWord: the variable name is matched literally. Regular-expression metacharacters in a name are not interpreted, and neither are `$` patterns in the replacement; printed numbers contain neither. The source builds the `RegExp` outside its `try`, so a name that is not a valid pattern makes `simulateExpression` throw; that exception is not modelled.
- CodeMirrorEditor.CodeMirrorEditorComponent.SimulateExpression: the table is taken in the object's key iteration order. JavaScript lists integer-like keys first, and that ordering is not modelled.
- The source mutates `block.properties` in place, on the object held in the published array, before the array is republished. The model rewrites the list as a value, so that aliasing is not captured.
- ExpressionBlockServices.ExpressionBlockService.AddPropertyToExpression: the service invariant records that ids are distinct and that `isValid` agrees with the property list. Agreement of `isFunction` and `functionName` with the content is proved for created blocks (`CreatedIsConsistent`) and is kept by the edits (`AddPropertyEffect`), but it is not part of the invariant.
- EditorServices.EditorService.SaveCurrentRange and EditorServices.EditorService.GetInsertionRange: the saved range is kept as fixed text offsets and an `inEditor` flag fixed when it is saved. The source clones a live DOM `Range`, whose boundary points the browser moves when text is inserted or removed before them, and it re-tests containment when the range is used. After an insertion before the saved point, the model inserts at the old offset where the browser would use the shifted one.
- Text is a sequence of Unicode code points. JavaScript's `length`, DOM offsets and CodeMirror positions count UTF-16 code units, so a character outside the Basic Multilingual Plane (an emoji, say) counts once in `characterCount` and in every offset of the model, and twice in the source.
