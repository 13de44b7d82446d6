/**
 * The CodeMirror editor component: the buffer edits bound to the context menu,
 * the custom key bindings and the drag-and-drop handlers, the whole-word
 * variable substitution of the expression simulator, and the state the
 * component keeps around evaluation and syntax checking.
 *
 * A CodeMirror document is a string and its main selection a pair of offsets;
 * the view passes the current selection to each command. The dynamic
 * `new Function` is an oracle parameter: `parse` says whether a program text
 * compiles, `evaluate` runs a function body and yields its value or the message
 * of the error it throws. Numbers are represented by their printed form.
 */
module CodeMirrorEditor {
  import opened Wrappers
  import opened Text

  // ---------------------------------------------------------------------------
  // Documents, selections and changes

  datatype Selection = Selection(anchor: nat, head: nat) {
    function From(): nat { if anchor <= head then anchor else head }
    function To(): nat { if anchor <= head then head else anchor }
    predicate IsEmpty() { anchor == head }
  }

  /** CodeMirror keeps every selection inside its document. */
  predicate InDoc(sel: Selection, doc: string) {
    sel.anchor <= |doc| && sel.head <= |doc|
  }

  /** A change `{from, to, insert}`: the text between `from` and `to` is replaced by `insert`. */
  datatype Change = Change(from: nat, to: nat, insert: string)

  predicate Fits(c: Change, doc: string) {
    c.from <= c.to <= |doc|
  }

  /** The document after a change. */
  function Apply(doc: string, c: Change): (r: string)
    requires Fits(c, doc)
    ensures |r| == |doc| - (c.to - c.from) + |c.insert|
    ensures r[..c.from] == doc[..c.from]
    ensures r[c.from..c.from + |c.insert|] == c.insert
    ensures r[c.from + |c.insert|..] == doc[c.to..]
  {
    var r := doc[..c.from] + c.insert + doc[c.to..];
    assert r[c.from..c.from + |c.insert|] == c.insert;
    assert r[c.from + |c.insert|..] == doc[c.to..];
    r
  }

  /** `sliceDoc(from, to)` of the main selection. */
  function Selected(doc: string, sel: Selection): string
    requires InDoc(sel, doc)
  {
    doc[sel.From()..sel.To()]
  }

  /** What a command leaves behind: the new document and the text it wrote to the clipboard, if any. */
  datatype Outcome = Outcome(doc: string, clipboard: Option<string>)

  // ---------------------------------------------------------------------------
  // Context-menu commands and key bindings

  /** `cutText`: a non-empty selection goes to the clipboard and out of the document; an empty one changes nothing. */
  function Cut(doc: string, sel: Selection): (r: Outcome)
    requires InDoc(sel, doc)
    ensures sel.IsEmpty() ==> r == Outcome(doc, None)
    ensures !sel.IsEmpty() ==> r.clipboard == Some(Selected(doc, sel))
    ensures |r.doc| == |doc| - (sel.To() - sel.From())
    ensures r.doc == doc[..sel.From()] + doc[sel.To()..]
  {
    if sel.IsEmpty() then
      assert doc == doc[..sel.From()] + doc[sel.To()..];
      Outcome(doc, None)
    else Outcome(Apply(doc, Change(sel.From(), sel.To(), [])), Some(Selected(doc, sel)))
  }

  /** `copyText`: a non-empty selection goes to the clipboard; the document never changes. */
  function Copy(doc: string, sel: Selection): (r: Outcome)
    requires InDoc(sel, doc)
    ensures r.doc == doc
    ensures r.clipboard.Some? <==> !sel.IsEmpty()
    ensures r.clipboard.Some? ==> r.clipboard.value == Selected(doc, sel)
  {
    if sel.IsEmpty() then Outcome(doc, None) else Outcome(doc, Some(Selected(doc, sel)))
  }

  /** `pasteText` and the `Mod-v` binding: the clipboard text replaces the selection. */
  function Paste(doc: string, sel: Selection, clipboardText: string): (r: Outcome)
    requires InDoc(sel, doc)
    ensures r.clipboard == None
    ensures |r.doc| == |doc| - (sel.To() - sel.From()) + |clipboardText|
    ensures r.doc == doc[..sel.From()] + clipboardText + doc[sel.To()..]
  {
    Outcome(Apply(doc, Change(sel.From(), sel.To(), clipboardText)), None)
  }

  /** `deleteText`: a non-empty selection is removed; an empty one changes nothing. */
  function Delete(doc: string, sel: Selection): (r: Outcome)
    requires InDoc(sel, doc)
    ensures r.clipboard == None
    ensures sel.IsEmpty() ==> r.doc == doc
    ensures r.doc == doc[..sel.From()] + doc[sel.To()..]
  {
    if sel.IsEmpty() then
      assert doc == doc[..sel.From()] + doc[sel.To()..];
      Outcome(doc, None)
    else Outcome(Apply(doc, Change(sel.From(), sel.To(), [])), None)
  }

  /** The `Mod-c` binding: the selection, even an empty one, goes to the clipboard. */
  function ModC(doc: string, sel: Selection): (r: Outcome)
    requires InDoc(sel, doc)
    ensures !sel.IsEmpty() ==> r == Copy(doc, sel)
    ensures r.doc == doc
    ensures r.clipboard.Some? && r.clipboard.value == Selected(doc, sel)
  {
    Outcome(doc, Some(Selected(doc, sel)))
  }

  /** The `Mod-x` binding: like `cutText` but without the empty-selection check. */
  function ModX(doc: string, sel: Selection): (r: Outcome)
    requires InDoc(sel, doc)
    ensures r.clipboard == Some(Selected(doc, sel))
    ensures |r.doc| == |doc| - (sel.To() - sel.From())
    ensures r.doc == doc[..sel.From()] + doc[sel.To()..]
  {
    Outcome(Apply(doc, Change(sel.From(), sel.To(), [])), Some(Selected(doc, sel)))
  }

  /** `insertTextAtCursor`: the text goes in at the selection head (not at its start), and nothing is deleted. */
  function InsertAtCursor(doc: string, sel: Selection, text: string): (r: string)
    requires InDoc(sel, doc)
    ensures |r| == |doc| + |text|
    ensures r == doc[..sel.head] + text + doc[sel.head..]
  {
    Apply(doc, Change(sel.head, sel.head, text))
  }

  /** The `dragstart` handler: the `text/plain` payload, set only for a non-empty selection. */
  function DragPayload(doc: string, sel: Selection): (r: Option<string>)
    requires InDoc(sel, doc)
    ensures r.Some? <==> !sel.IsEmpty()
    ensures r.Some? ==> r.value == Selected(doc, sel) && r.value != []
  {
    if sel.IsEmpty() then None else Some(Selected(doc, sel))
  }

  /** The `drop` handler: a non-empty `text/plain` payload goes in at the drop position, if there is one. */
  function Drop(doc: string, dropText: Option<string>, pos: Option<nat>): (r: string)
    requires pos.Some? ==> pos.value <= |doc|
    ensures dropText.Some? && dropText.value != [] && pos.Some? ==>
      |r| == |doc| + |dropText.value| && r == doc[..pos.value] + dropText.value + doc[pos.value..]
    ensures !(dropText.Some? && dropText.value != [] && pos.Some?) ==> r == doc
  {
    if dropText.Some? && dropText.value != [] && pos.Some? then
      Apply(doc, Change(pos.value, pos.value, dropText.value))
    else doc
  }

  /** Cutting and then pasting what was cut where the selection started gives back the document. */
  lemma CutThenPasteRestores(doc: string, sel: Selection)
    requires InDoc(sel, doc) && !sel.IsEmpty()
    ensures var cut := Cut(doc, sel);
      InDoc(Selection(sel.From(), sel.From()), cut.doc)
      && Paste(cut.doc, Selection(sel.From(), sel.From()), cut.clipboard.value).doc == doc
  {
    var cut := Cut(doc, sel);
    var at := Selection(sel.From(), sel.From());
    assert cut.doc[..sel.From()] == doc[..sel.From()];
    assert cut.doc[sel.From()..] == doc[sel.To()..];
    assert doc == doc[..sel.From()] + doc[sel.From()..sel.To()] + doc[sel.To()..];
  }

  /** `Mod-x` and `cutText` leave the same document; on an empty selection only `Mod-x` writes to the clipboard (the empty string). */
  lemma ModXAgreesWithCut(doc: string, sel: Selection)
    requires InDoc(sel, doc)
    ensures ModX(doc, sel).doc == Cut(doc, sel).doc
    ensures sel.IsEmpty() ==> Cut(doc, sel).clipboard == None && ModX(doc, sel).clipboard == Some([])
  {
  }

  /** `Mod-c` and `copyText` agree on a non-empty selection; on an empty one only `Mod-c` writes to the clipboard (the empty string). */
  lemma ModCAgreesWithCopy(doc: string, sel: Selection)
    requires InDoc(sel, doc)
    ensures !sel.IsEmpty() ==> ModC(doc, sel) == Copy(doc, sel)
    ensures sel.IsEmpty() ==> Copy(doc, sel).clipboard == None && ModC(doc, sel).clipboard == Some([])
    ensures ModC(doc, sel).doc == Copy(doc, sel).doc == doc
  {
  }

  /** Deleting is cutting without touching the clipboard. */
  lemma DeleteIsCutWithoutClipboard(doc: string, sel: Selection)
    requires InDoc(sel, doc)
    ensures Delete(doc, sel).doc == Cut(doc, sel).doc
  {
  }

  /**
   * Dropping a dragged selection at or before its start inserts a copy at the
   * drop position, and the original text stays, shifted by the copy's length.
   */
  lemma DragAndDropCopies(doc: string, sel: Selection, pos: nat)
    requires InDoc(sel, doc) && !sel.IsEmpty()
    requires pos <= sel.From() || sel.To() <= pos <= |doc|
    ensures var r := Drop(doc, DragPayload(doc, sel), Some(pos));
      var n := sel.To() - sel.From();
      && |r| == |doc| + n
      && r[pos..pos + n] == Selected(doc, sel)
      && (pos <= sel.From() ==> r[sel.From() + n..sel.To() + n] == Selected(doc, sel))
      && (sel.To() <= pos ==> r[sel.From()..sel.To()] == Selected(doc, sel))
  {
    var t := Selected(doc, sel);
    assert DragPayload(doc, sel) == Some(t);
    assert Drop(doc, Some(t), Some(pos)) == doc[..pos] + t + doc[pos..];
    if pos <= sel.From() {
      InsertShifts(doc, pos, t, sel.From(), sel.To());
    } else {
      InsertKeepsBefore(doc, pos, t, sel.From(), sel.To());
    }
  }

  /** Inserting `t` at `pos` puts it there and leaves every earlier stretch of the text where it was. */
  lemma InsertKeepsBefore(d: string, pos: nat, t: string, a: nat, b: nat)
    requires a <= b <= pos <= |d|
    ensures var r := d[..pos] + t + d[pos..];
      && |r| == |d| + |t|
      && r[pos..pos + |t|] == t
      && r[a..b] == d[a..b]
  {
    var r := d[..pos] + t + d[pos..];
    forall i | a <= i < b
      ensures r[i] == d[i]
    {
      assert r[i] == d[..pos][i];
    }
  }

  /** Inserting `t` at `pos` puts it there and moves every later stretch of the text right by its length. */
  lemma InsertShifts(d: string, pos: nat, t: string, a: nat, b: nat)
    requires pos <= a <= b <= |d|
    ensures var r := d[..pos] + t + d[pos..];
      && |r| == |d| + |t|
      && r[pos..pos + |t|] == t
      && r[a + |t|..b + |t|] == d[a..b]
  {
    var r := d[..pos] + t + d[pos..];
    forall i | a <= i < b
      ensures r[i + |t|] == d[i]
    {
      assert r[i + |t|] == d[pos..][i - pos];
    }
  }

  // ---------------------------------------------------------------------------
  // Whole-word substitution

  /** A variable and the printed form of its simulation value. */
  datatype Binding = Binding(name: string, value: string)

  /** Whether `s[k]` exists and is a `\w` character. */
  predicate WordAt(s: string, k: int) {
    0 <= k < |s| && IsWordChar(s[k])
  }

  /** `\b` at position `k`: a word character on exactly one side. */
  predicate Boundary(s: string, k: nat) {
    WordAt(s, k - 1) != WordAt(s, k)
  }

  /** The pattern `\bname\b` matches at `i`. */
  predicate MatchAt(s: string, name: string, i: nat) {
    i + |name| <= |s| && s[i..i + |name|] == name && Boundary(s, i) && Boundary(s, i + |name|)
  }

  /** The first position at or after `q` where `\bname\b` matches. */
  function FirstMatch(s: string, name: string, q: nat): (r: Option<nat>)
    ensures r.Some? ==> q <= r.value && MatchAt(s, name, r.value)
    decreases |s| + 1 - q
  {
    if q + |name| > |s| then None
    else if MatchAt(s, name, q) then Some(q)
    else FirstMatch(s, name, q + 1)
  }

  /** The search finds the least matching position at or after `q`, and finds none only when there is none. */
  lemma {:induction false} FirstMatchIsFirst(s: string, name: string, q: nat)
    ensures FirstMatch(s, name, q).Some? ==> forall i :: q <= i < FirstMatch(s, name, q).value ==> !MatchAt(s, name, i)
    ensures FirstMatch(s, name, q).None? ==> forall i :: q <= i ==> !MatchAt(s, name, i)
    decreases |s| + 1 - q
  {
    if q + |name| <= |s| && !MatchAt(s, name, q) {
      FirstMatchIsFirst(s, name, q + 1);
    }
  }

  /**
   * The global replace scan: the text from `next` on, where the pattern is
   * tried at `q`, then at `q + 1`, and so on. After a match the scan resumes
   * where the match ended, or one character further on after an empty match.
   */
  function ReplaceScan(s: string, name: string, value: string, next: nat, q: nat): string
    requires next <= q && next <= |s|
    decreases |s| + 1 - q
  {
    if q + |name| > |s| then s[next..]
    else if MatchAt(s, name, q) then
      var q' := if name == [] then q + 1 else q + |name|;
      s[next..q] + value + ReplaceScan(s, name, value, q + |name|, q')
    else ReplaceScan(s, name, value, next, q + 1)
  }

  /** Without a match from `q` on, the scan copies the rest of the text. */
  lemma {:induction false} ReplaceScanPastLastMatch(s: string, name: string, value: string, next: nat, q: nat)
    requires next <= q && next <= |s|
    requires FirstMatch(s, name, q).None?
    ensures ReplaceScan(s, name, value, next, q) == s[next..]
  {
    FirstMatchIsFirst(s, name, q);
    ReplaceScanWithoutMatch(s, name, value, next, q);
  }

  /**
   * The scan jumps straight to the first match: it copies the text up to it,
   * puts the value in its place and goes on after it.
   */
  lemma {:induction false} ReplaceScanAtFirstMatch(s: string, name: string, value: string, next: nat, q: nat, i: nat)
    requires next <= q && next <= |s|
    requires FirstMatch(s, name, q) == Some(i)
    ensures q <= i && i + |name| <= |s|
    ensures ReplaceScan(s, name, value, next, q) ==
      s[next..i] + value + ReplaceScan(s, name, value, i + |name|, if name == [] then i + 1 else i + |name|)
    decreases |s| + 1 - q
  {
    if !MatchAt(s, name, q) {
      ReplaceScanAtFirstMatch(s, name, value, next, q + 1, i);
    }
  }

  /** `s.replace(new RegExp('\\b' + name + '\\b', 'g'), value)`, with `name` taken literally. */
  function ReplaceWord(s: string, name: string, value: string): string {
    ReplaceScan(s, name, value, 0, 0)
  }

  /** The variables substituted one after another, in table order, each acting on the previous result. */
  function SubstituteAll(s: string, table: seq<Binding>): string
    decreases |table|
  {
    if table == [] then s
    else
      var last := table[|table| - 1];
      ReplaceWord(SubstituteAll(s, table[..|table| - 1]), last.name, last.value)
  }

  lemma {:induction false} ReplaceScanWithoutMatch(s: string, name: string, value: string, next: nat, q: nat)
    requires next <= q && next <= |s|
    requires forall i :: q <= i ==> !MatchAt(s, name, i)
    ensures ReplaceScan(s, name, value, next, q) == s[next..]
    decreases |s| + 1 - q
  {
    if q + |name| <= |s| {
      ReplaceScanWithoutMatch(s, name, value, next, q + 1);
    }
  }

  /** Text with no whole-word occurrence of the name is left as it is. */
  lemma {:induction false} ReplaceWithoutMatch(s: string, name: string, value: string)
    requires forall i :: !MatchAt(s, name, i)
    ensures ReplaceWord(s, name, value) == s
  {
    ReplaceScanWithoutMatch(s, name, value, 0, 0);
  }

  /**
   * In any text, an occurrence of a name made of word characters is no match
   * when a word character touches it on either side: `a` in `ab + a`, `1a` or
   * `x_a` is not a whole-word occurrence.
   */
  lemma {:induction false} NoMatchInsideWord(s: string, name: string, i: nat)
    requires name != [] && All(name, IsWordChar)
    requires WordAt(s, i - 1) || WordAt(s, i + |name|)
    ensures !MatchAt(s, name, i)
  {
    if i + |name| <= |s| && s[i..i + |name|] == name {
      assert s[i] == name[0] && s[i + |name| - 1] == name[|name| - 1];
      assert WordAt(s, i) && WordAt(s, i + |name| - 1);
    }
  }

  /** A text that is a single run of word characters longer than the name is unchanged: `a` in `ab`, `a1` or `_a` stays. */
  lemma {:induction false} NoMatchInsideLongerWord(s: string, name: string, value: string)
    requires All(s, IsWordChar) && 0 < |name| < |s|
    ensures ReplaceWord(s, name, value) == s
  {
    forall i: nat
      ensures !MatchAt(s, name, i)
    {
      if 0 < i < |s| {
        assert WordAt(s, i - 1) && WordAt(s, i);
      } else if i == 0 {
        assert WordAt(s, |name| - 1) && WordAt(s, |name|);
      }
    }
    ReplaceWithoutMatch(s, name, value);
  }

  lemma {:induction false} ReplaceScanBySelf(s: string, name: string, next: nat, q: nat)
    requires next <= q && next <= |s|
    ensures ReplaceScan(s, name, name, next, q) == s[next..]
    decreases |s| + 1 - q
  {
    if q + |name| <= |s| {
      if MatchAt(s, name, q) {
        var q' := ReplaceScanMatchStep(s, name, name, next, q);
        ReplaceScanBySelf(s, name, q + |name|, q');
        Reassemble(s, next, q, name);
      } else {
        ReplaceScanSkipStep(s, name, name, next, q);
        ReplaceScanBySelf(s, name, next, q + 1);
      }
    }
  }

  /** At a match the scan puts the value in and resumes after it. */
  lemma ReplaceScanMatchStep(s: string, name: string, value: string, next: nat, q: nat) returns (q': nat)
    requires next <= q && MatchAt(s, name, q)
    ensures q + |name| <= |s| && q + |name| <= q' && q < q'
    ensures ReplaceScan(s, name, value, next, q) == s[next..q] + value + ReplaceScan(s, name, value, q + |name|, q')
  {
    q' := if name == [] then q + 1 else q + |name|;
  }

  /** Where the pattern does not match the scan moves on by one position. */
  lemma ReplaceScanSkipStep(s: string, name: string, value: string, next: nat, q: nat)
    requires next <= q && next <= |s| && q + |name| <= |s| && !MatchAt(s, name, q)
    ensures ReplaceScan(s, name, value, next, q) == ReplaceScan(s, name, value, next, q + 1)
  {
  }

  lemma Reassemble(s: string, next: nat, i: nat, name: string)
    requires next <= i && i + |name| <= |s| && s[i..i + |name|] == name
    ensures s[next..i] + name + s[i + |name|..] == s[next..]
  {
    assert s[next..] == s[next..i] + s[i..i + |name|] + s[i + |name|..];
  }

  /** Substituting a name by itself changes nothing. */
  lemma ReplaceBySelf(s: string, name: string)
    ensures ReplaceWord(s, name, name) == s
  {
    ReplaceScanBySelf(s, name, 0, 0);
  }

  /** A text that is exactly one word is replaced as a whole. */
  lemma {:induction false} ReplaceWholeWord(name: string, value: string)
    requires name != [] && All(name, IsWordChar)
    ensures ReplaceWord(name, name, value) == value
  {
    assert name[0..|name|] == name;
    assert WordAt(name, 0) && WordAt(name, |name| - 1);
    assert MatchAt(name, name, 0);
    assert ReplaceScan(name, name, value, |name|, |name|) == [];
    assert ReplaceScan(name, name, value, 0, 0) == name[0..0] + value + [];
  }

  /** An empty table leaves the text unchanged. */
  lemma SubstituteNothing(s: string)
    ensures SubstituteAll(s, []) == s
  {
  }

  /** Substituting a table in two parts is substituting the first part, then the second on its result. */
  lemma {:induction false} SubstituteInParts(s: string, t1: seq<Binding>, t2: seq<Binding>)
    ensures SubstituteAll(s, t1 + t2) == SubstituteAll(SubstituteAll(s, t1), t2)
    decreases |t2|
  {
    if t2 == [] {
      assert t1 + t2 == t1;
    } else {
      var t := t1 + t2;
      assert t[..|t| - 1] == t1 + t2[..|t2| - 1];
      assert t[|t| - 1] == t2[|t2| - 1];
      SubstituteInParts(s, t1, t2[..|t2| - 1]);
    }
  }

  // ---------------------------------------------------------------------------
  // The component

  /** What `new Function(body)()` does: returns a value (printed) or throws an error with a message. */
  datatype Evaluation = Returned(value: string) | Threw(message: string)

  /** What `new Function(code)` does with the program text: accepts it or throws a syntax error. */
  datatype Parse = Parsed | SyntaxError(message: string)

  datatype Diagnostic = Diagnostic(from: nat, to: nat, severity: string, message: string)

  /** The function body the simulator evaluates. */
  function ReturnBody(expression: string): string {
    "return (" + expression + ");"
  }

  class CodeMirrorEditorComponent {
    /** The document of the editor view; `None` when no view was created (outside the browser). */
    var doc: Option<string>
    /** The simulation values, in the iteration order of the object's keys. */
    var simulationValues: seq<Binding>
    var simulationResult: Option<string>
    var syntaxErrorMessage: Option<string>

    /** `ngAfterViewInit`: in the browser, a view on an empty document. */
    constructor(isBrowser: bool)
      ensures doc == if isBrowser then Some([]) else None
      ensures simulationValues == [] && simulationResult == None && syntaxErrorMessage == None
    {
      doc := if isBrowser then Some([]) else None;
      simulationValues := [];
      simulationResult := None;
      syntaxErrorMessage := None;
    }

    /** `getEditorContent`: the document, or the empty string when there is no view. */
    function GetEditorContent(): (r: string)
      reads this
      ensures doc.Some? ==> r == doc.value
      ensures doc.None? ==> r == []
    {
      if doc.Some? then doc.value else []
    }

    predicate SelectionFits(sel: Selection)
      reads this
    {
      doc.Some? ==> InDoc(sel, doc.value)
    }

    /** `cutText` on the view's main selection; returns what it wrote to the clipboard. */
    method CutText(sel: Selection) returns (written: Option<string>)
      requires SelectionFits(sel)
      modifies this`doc
      ensures old(doc).Some? ==> doc == Some(Cut(old(doc).value, sel).doc) && written == Cut(old(doc).value, sel).clipboard
      ensures old(doc).None? ==> doc == None && written == None
    {
      written := None;
      if doc.Some? {
        var outcome := Cut(doc.value, sel);
        doc := Some(outcome.doc);
        written := outcome.clipboard;
      }
    }

    /** `copyText`: never changes the document. */
    method CopyText(sel: Selection) returns (written: Option<string>)
      requires SelectionFits(sel)
      ensures doc.Some? ==> written == Copy(doc.value, sel).clipboard
      ensures doc.None? ==> written == None
    {
      written := None;
      if doc.Some? {
        written := Copy(doc.value, sel).clipboard;
      }
    }

    /** `pasteText`, given the text the clipboard read returned. */
    method PasteText(sel: Selection, clipboardText: string)
      requires SelectionFits(sel)
      modifies this`doc
      ensures old(doc).Some? ==> doc == Some(Paste(old(doc).value, sel, clipboardText).doc)
      ensures old(doc).None? ==> doc == None
    {
      if doc.Some? {
        doc := Some(Paste(doc.value, sel, clipboardText).doc);
      }
    }

    /** `deleteText`. */
    method DeleteText(sel: Selection)
      requires SelectionFits(sel)
      modifies this`doc
      ensures old(doc).Some? ==> doc == Some(Delete(old(doc).value, sel).doc)
      ensures old(doc).None? ==> doc == None
    {
      if doc.Some? {
        doc := Some(Delete(doc.value, sel).doc);
      }
    }

    /** `insertTextAtCursor`. */
    method InsertTextAtCursor(sel: Selection, text: string)
      requires SelectionFits(sel)
      modifies this`doc
      ensures old(doc).Some? ==> doc == Some(InsertAtCursor(old(doc).value, sel, text))
      ensures old(doc).None? ==> doc == None
    {
      if doc.Some? {
        doc := Some(InsertAtCursor(doc.value, sel, text));
      }
    }

    /** The `drop` handler, given the payload and the position under the mouse. */
    method OnDrop(dropText: Option<string>, pos: Option<nat>)
      requires doc.Some? && pos.Some? ==> pos.value <= |doc.value|
      modifies this`doc
      ensures old(doc).Some? ==> doc == Some(Drop(old(doc).value, dropText, pos))
      ensures old(doc).None? ==> doc == None
    {
      if doc.Some? {
        doc := Some(Drop(doc.value, dropText, pos));
      }
    }

    /**
     * `syntaxValidator`, run by the linter on the view's document: no
     * diagnostics and no message when the program compiles; otherwise one error
     * at the end of the text and the message `Syntax Error: ...`.
     */
    method SyntaxValidator(parse: string -> Parse) returns (diagnostics: seq<Diagnostic>)
      requires doc.Some?
      modifies this`syntaxErrorMessage
      ensures var code := doc.value;
        parse(code).Parsed? ==> diagnostics == [] && syntaxErrorMessage == None
      ensures var code := doc.value;
        parse(code).SyntaxError? ==>
          var message := parse(code).message;
          && diagnostics == [Diagnostic(|code|, |code|, "error", message)]
          && syntaxErrorMessage == Some("Syntax Error: " + message)
    {
      var code := doc.value;
      diagnostics := [];
      match parse(code)
      case Parsed =>
        syntaxErrorMessage := None;
      case SyntaxError(message) =>
        var pos := |code|;
        diagnostics := diagnostics + [Diagnostic(pos, pos, "error", message)];
        syntaxErrorMessage := Some("Syntax Error: " + message);
    }

    /**
     * `simulateExpression`: substitutes every variable into the editor text and
     * evaluates the result; success stores the value and clears the message,
     * failure clears the value and stores `Evaluation Error: ...`.
     */
    method SimulateExpression(evaluate: string -> Evaluation)
      modifies this`simulationResult, this`syntaxErrorMessage
      ensures var body := ReturnBody(SubstituteAll(GetEditorContent(), simulationValues));
        match evaluate(body)
        case Returned(v) => simulationResult == Some(v) && syntaxErrorMessage == None
        case Threw(m) => simulationResult == None && syntaxErrorMessage == Some("Evaluation Error: " + m)
    {
      var expression := GetEditorContent();
      var evaluated := expression;
      var k := 0;
      while k < |simulationValues|
        invariant k <= |simulationValues|
        invariant evaluated == SubstituteAll(expression, simulationValues[..k])
      {
        var binding := simulationValues[k];
        assert simulationValues[..k + 1][..k] == simulationValues[..k];
        evaluated := ReplaceWord(evaluated, binding.name, binding.value);
        k := k + 1;
      }
      assert simulationValues[..k] == simulationValues;
      match evaluate(ReturnBody(evaluated))
      case Returned(v) =>
        simulationResult := Some(v);
        syntaxErrorMessage := None;
      case Threw(m) =>
        syntaxErrorMessage := Some("Evaluation Error: " + m);
        simulationResult := None;
    }
  }
}
