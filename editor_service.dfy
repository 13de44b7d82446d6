/**
 * The custom contenteditable editor service: the editor element (represented by
 * its text), the statistics it publishes after every change, the saved
 * selection range and the choice of the point where new content goes.
 *
 * A DOM `Range` is represented by whether it lies inside the editor element and
 * by two offsets into the editor's text; the browser's live selection is passed
 * in as a parameter (`None` when the selection has no range).
 */
module EditorServices {
  import opened Wrappers
  import opened Text

  datatype DomRange = DomRange(inEditor: bool, start: nat, end: nat)

  /** The published statistics; `lastUpdated` and `selectedText` are not modelled. */
  datatype EditorState = EditorState(characterCount: nat, wordCount: nat, cursorLine: nat, cursorColumn: nat)

  // ---------------------------------------------------------------------------
  // Statistics

  predicate IsNotWhitespace(c: char) {
    !IsWhitespace(c)
  }

  /** `t.split(/\s+/)`: the pieces between the maximal whitespace runs (`[""]` for the empty string). */
  function Split(t: string): (pieces: seq<string>)
    ensures |pieces| >= 1
    decreases |t|
  {
    var i := Run(t, IsNotWhitespace);
    if i == |t| then [t]
    else
      var j := i + Run(t[i..], IsWhitespace);
      [t[..i]] + Split(t[j..])
  }

  /** The word count of `updateEditorState`: no words when the trimmed text is empty, else the number of pieces of the trimmed text. */
  function WordCount(content: string): (r: nat)
    ensures r == 0 <==> Trim(content) == []
  {
    var t := Trim(content);
    if t == [] then 0 else |Split(t)|
  }

  /** The statistics `updateEditorState` publishes for the editor text `content`. */
  function Stats(content: string): (s: EditorState)
    ensures s.characterCount == |content|
    ensures s.wordCount == Words(content) <= s.characterCount
    ensures s.wordCount == 0 <==> All(content, IsWhitespace)
    ensures s.cursorLine == 1 && s.cursorColumn == 1
  {
    WordCountIsWords(content);
    WordsBound(content, true);
    WordsZero(content, true);
    EditorState(|content|, WordCount(content), 1, 1)
  }

  /**
   * Reference definition of the word count: the number of positions where a
   * maximal run of non-whitespace characters starts. `prevWs` says whether the
   * character before `s` (if any) was whitespace.
   */
  function WordStarts(s: string, prevWs: bool): nat
    decreases |s|
  {
    if s == [] then 0
    else (if prevWs && !IsWhitespace(s[0]) then 1 else 0) + WordStarts(s[1..], IsWhitespace(s[0]))
  }

  function Words(s: string): nat {
    WordStarts(s, true)
  }

  /** Whether the character before the end of `a` is whitespace, given that the one before `a` is `prevWs`. */
  function WsAfter(a: string, prevWs: bool): bool {
    if a == [] then prevWs else IsWhitespace(a[|a| - 1])
  }

  lemma {:induction false} WordStartsConcat(a: string, b: string, prevWs: bool)
    ensures WordStarts(a + b, prevWs) == WordStarts(a, prevWs) + WordStarts(b, WsAfter(a, prevWs))
    decreases |a|
  {
    if a == [] {
      assert a + b == b;
    } else {
      assert (a + b)[0] == a[0];
      assert (a + b)[1..] == a[1..] + b;
      WordStartsConcat(a[1..], b, IsWhitespace(a[0]));
      if |a| > 1 {
        assert a[1..][|a| - 2] == a[|a| - 1];
      }
    }
  }

  /** Whitespace starts no word. */
  lemma {:induction false} WordStartsOfWhitespace(s: string, prevWs: bool)
    requires All(s, IsWhitespace)
    ensures WordStarts(s, prevWs) == 0
    decreases |s|
  {
    if s != [] {
      WordStartsOfWhitespace(s[1..], IsWhitespace(s[0]));
    }
  }

  /** A non-empty run of non-whitespace is one word, which starts here only if whitespace came before. */
  lemma {:induction false} WordStartsOfWord(s: string, prevWs: bool)
    requires s != [] && All(s, IsNotWhitespace)
    ensures WordStarts(s, prevWs) == if prevWs then 1 else 0
    decreases |s|
  {
    if |s| > 1 {
      WordStartsOfWord(s[1..], false);
    }
  }

  lemma {:induction false} WordsBound(s: string, prevWs: bool)
    ensures WordStarts(s, prevWs) <= |s|
    decreases |s|
  {
    if s != [] {
      WordsBound(s[1..], IsWhitespace(s[0]));
    }
  }

  /** After whitespace, there are no words exactly when everything is whitespace. */
  lemma {:induction false} WordsZero(s: string, prevWs: bool)
    requires prevWs
    ensures WordStarts(s, prevWs) == 0 <==> All(s, IsWhitespace)
    decreases |s|
  {
    if s != [] {
      if IsWhitespace(s[0]) {
        WordsZero(s[1..], true);
        if All(s[1..], IsWhitespace) {
          assert forall k | 1 <= k < |s| :: s[k] == s[1..][k - 1];
        }
      }
    }
  }

  /** A word followed by whitespace contributes one word before the rest. */
  lemma {:induction false} WordsAfterFirstGap(t: string, i: nat, j: nat)
    requires 0 < i < j <= |t|
    requires All(t[..i], IsNotWhitespace) && All(t[i..j], IsWhitespace)
    ensures Words(t) == 1 + Words(t[j..])
  {
    assert t == t[..i] + (t[i..j] + t[j..]);
    WordStartsConcat(t[..i], t[i..j] + t[j..], true);
    WordStartsConcat(t[i..j], t[j..], false);
    WordStartsOfWord(t[..i], true);
    WordStartsOfWhitespace(t[i..j], false);
    assert t[i..j][j - i - 1] == t[j - 1];
  }

  /** The first gap of an unpadded string: it starts after a non-empty word and ends before a non-whitespace character. */
  lemma {:induction false} FirstGap(t: string) returns (i: nat, j: nat)
    requires t != [] && !IsWhitespace(t[0]) && !IsWhitespace(t[|t| - 1])
    requires Run(t, IsNotWhitespace) < |t|
    ensures i == Run(t, IsNotWhitespace) && j == i + Run(t[i..], IsWhitespace)
    ensures 0 < i < j < |t|
    ensures All(t[..i], IsNotWhitespace) && All(t[i..j], IsWhitespace)
    ensures !IsWhitespace(t[j])
  {
    i := Run(t, IsNotWhitespace);
    j := i + Run(t[i..], IsWhitespace);
    RunSpec(t, IsNotWhitespace);
    RunFrom(t, IsWhitespace, i);
    assert t[i..][|t| - i - 1] == t[|t| - 1];
    RunStopsBefore(t[i..], IsWhitespace, |t| - i - 1);
  }

  /** One step of the split: the first piece, then the split of what follows the first gap. */
  lemma SplitStep(t: string)
    requires Run(t, IsNotWhitespace) < |t|
    ensures var i := Run(t, IsNotWhitespace);
      |Split(t)| == 1 + |Split(t[i + Run(t[i..], IsWhitespace)..])|
  {
  }

  /** The split and the word count both take one word off the front and go on after the first gap. */
  lemma {:induction false} FirstPiece(t: string) returns (j: nat)
    requires t != [] && !IsWhitespace(t[0]) && !IsWhitespace(t[|t| - 1])
    requires Run(t, IsNotWhitespace) < |t|
    ensures 0 < j < |t| && !IsWhitespace(t[j])
    ensures |Split(t)| == 1 + |Split(t[j..])|
    ensures Words(t) == 1 + Words(t[j..])
  {
    var i;
    i, j := FirstGap(t);
    SplitStep(t);
    WordsAfterFirstGap(t, i, j);
  }

  /** A string without whitespace splits into itself, which is one word. */
  lemma {:induction false} SplitOfOneWord(t: string)
    requires t != [] && Run(t, IsNotWhitespace) == |t|
    ensures |Split(t)| == 1 == Words(t)
  {
    RunSpec(t, IsNotWhitespace);
    assert t[..|t|] == t;
    WordStartsOfWord(t, true);
  }

  /** On a string without padding, the pieces of the split are the words. */
  lemma {:induction false} SplitCountsWords(t: string)
    requires t != [] && !IsWhitespace(t[0]) && !IsWhitespace(t[|t| - 1])
    ensures |Split(t)| == Words(t)
    decreases |t|
  {
    if Run(t, IsNotWhitespace) == |t| {
      SplitOfOneWord(t);
    } else {
      var j := FirstPiece(t);
      var rest := t[j..];
      assert rest[0] == t[j] && rest[|rest| - 1] == t[|t| - 1];
      SplitCountsWords(rest);
    }
  }

  /** Whitespace around a text adds no words. */
  lemma {:induction false} WordsOfPadded(lead: string, t: string, trail: string)
    requires All(lead, IsWhitespace) && All(trail, IsWhitespace)
    ensures Words(lead + t + trail) == Words(t)
  {
    assert lead + t + trail == lead + (t + trail);
    WordStartsConcat(lead, t + trail, true);
    WordStartsOfWhitespace(lead, true);
    WordStartsConcat(t, trail, true);
    WordStartsOfWhitespace(trail, WsAfter(t, true));
  }

  /** The words of a segment with only whitespace around it are the words of the whole string. */
  lemma {:induction false} WordsOfSegment(s: string, i: nat, n: nat)
    requires i + n <= |s|
    requires All(s[..i], IsWhitespace) && All(s[i + n..], IsWhitespace)
    ensures Words(s) == Words(s[i..i + n])
  {
    assert s == s[..i] + s[i..i + n] + s[i + n..];
    WordsOfPadded(s[..i], s[i..i + n], s[i + n..]);
  }

  /** `updateEditorState`'s word count is the number of maximal non-whitespace runs of the text. */
  lemma {:induction false} WordCountIsWords(content: string)
    ensures WordCount(content) == Words(content)
  {
    TrimIsSegment(content);
    WordsOfSegment(content, Run(content, IsWhitespace), |Trim(content)|);
    if Trim(content) != [] {
      TrimEnds(content);
      SplitCountsWords(Trim(content));
    }
  }

  // ---------------------------------------------------------------------------
  // Insertion

  /** The range's offsets, clamped to the text the way a DOM range is bounded by its container. */
  function ClampedStart(t: string, r: DomRange): (s: nat)
    ensures s <= |t|
  {
    if r.start <= |t| then r.start else |t|
  }

  function ClampedEnd(t: string, r: DomRange): (e: nat)
    ensures ClampedStart(t, r) <= e <= |t|
  {
    var s := ClampedStart(t, r);
    if r.end < s then s else if r.end <= |t| then r.end else |t|
  }

  /** `range.deleteContents()` then `range.insertNode(textNode)`: the range's text replaced by `text`. */
  function Splice(t: string, r: DomRange, text: string): (u: string)
    ensures var s := ClampedStart(t, r); var e := ClampedEnd(t, r);
      && |u| == |t| - (e - s) + |text|
      && u[..s] == t[..s]
      && u[s..s + |text|] == text
      && u[s + |text|..] == t[e..]
  {
    var s := ClampedStart(t, r);
    var e := ClampedEnd(t, r);
    var u := t[..s] + text + t[e..];
    assert u[s..s + |text|] == text;
    assert u[s + |text|..] == t[e..];
    u
  }

  // ---------------------------------------------------------------------------
  // The service

  class EditorService {
    const isBrowser: bool
    /** The editor element, by its `innerText`; `None` before `createEditor` and after `destroyEditor`. */
    var editor: Option<string>
    var lastKnownRange: Option<DomRange>
    /** The latest value of `editorState$`. */
    var state: EditorState

    /** An editor element exists only in the browser. */
    ghost predicate Valid()
      reads this
    {
      editor.Some? ==> isBrowser
    }

    constructor(isBrowser: bool)
      ensures Valid()
      ensures this.isBrowser == isBrowser && editor == None && lastKnownRange == None
      ensures state == EditorState(0, 0, 1, 1)
    {
      this.isBrowser := isBrowser;
      editor := None;
      lastKnownRange := None;
      state := EditorState(0, 0, 1, 1);
    }

    /** `createEditor`: in the browser, a fresh empty editor element replaces any previous one. */
    method CreateEditor()
      requires Valid()
      modifies this
      ensures Valid()
      ensures editor == if isBrowser then Some([]) else old(editor)
      ensures lastKnownRange == old(lastKnownRange) && state == old(state)
    {
      if isBrowser {
        editor := Some([]);
      }
    }

    predicate HasEditor()
      reads this
    {
      isBrowser && editor.Some?
    }

    /** `getContent`: the editor's text, or the empty string when there is no editor or no browser. */
    function GetContent(): (r: string)
      reads this
      ensures !HasEditor() ==> r == []
      ensures HasEditor() ==> Some(r) == editor
    {
      if HasEditor() then editor.value else []
    }

    /** `updateEditorState`: publishes the statistics of the current text. */
    method UpdateEditorState()
      modifies this`state
      ensures state == if HasEditor() then Stats(GetContent()) else old(state)
    {
      if isBrowser && editor.Some? {
        state := Stats(editor.value);
      }
    }

    /** `clearEditor`: empties the editor and publishes zero counts. */
    method ClearEditor()
      requires Valid()
      modifies this
      ensures Valid()
      ensures HasEditor() == old(HasEditor())
      ensures old(HasEditor()) ==> GetContent() == [] && state.characterCount == 0 && state.wordCount == 0
      ensures !old(HasEditor()) ==> editor == old(editor) && state == old(state)
      ensures lastKnownRange == old(lastKnownRange)
    {
      if isBrowser && editor.Some? {
        editor := Some([]);
        state := Stats([]);
        assert All([], IsWhitespace);
      }
    }

    /** `destroyEditor`: drops the element; afterwards `getContent` returns the empty string. */
    method DestroyEditor()
      requires Valid()
      modifies this`editor
      ensures Valid()
      ensures editor == None && !HasEditor()
      ensures GetContent() == []
    {
      editor := None;
    }

    /** `saveCurrentRange`: in the browser, a selection with a range overwrites the saved range; otherwise it is kept. */
    method SaveCurrentRange(selection: Option<DomRange>)
      modifies this`lastKnownRange
      ensures isBrowser && selection.Some? ==> lastKnownRange == selection
      ensures !(isBrowser && selection.Some?) ==> lastKnownRange == old(lastKnownRange)
    {
      if isBrowser && selection.Some? {
        lastKnownRange := selection;
      }
    }

    /** The collapsed range at the end of the editor's contents. */
    function EndRange(): (r: DomRange)
      reads this
      ensures r.inEditor && r.start == r.end == |GetContent()|
    {
      DomRange(true, |GetContent()|, |GetContent()|)
    }

    /** `getInsertionRange`: the live selection if it is inside the editor, else the saved range if it is, else the end. */
    function GetInsertionRange(selection: Option<DomRange>): (r: Option<DomRange>)
      reads this
      ensures r.None? <==> !HasEditor()
      ensures r.Some? ==> r.value.inEditor
      ensures r.Some? ==> r == selection || r == lastKnownRange || r.value == EndRange()
      ensures HasEditor() && selection.Some? && selection.value.inEditor ==> r == selection
      ensures HasEditor() && !(selection.Some? && selection.value.inEditor) && lastKnownRange.Some? && lastKnownRange.value.inEditor ==>
        r == lastKnownRange
      ensures HasEditor() && !(selection.Some? && selection.value.inEditor) && !(lastKnownRange.Some? && lastKnownRange.value.inEditor) ==>
        r == Some(EndRange())
    {
      if !isBrowser || editor.None? then None
      else if selection.Some? && selection.value.inEditor then selection
      else if lastKnownRange.Some? && lastKnownRange.value.inEditor then lastKnownRange
      else Some(EndRange())
    }

    /** `insertText`: replaces the insertion range with the text, then publishes the new statistics. */
    method InsertText(text: string, selection: Option<DomRange>)
      requires Valid()
      modifies this
      ensures Valid()
      ensures lastKnownRange == old(lastKnownRange)
      ensures old(HasEditor()) ==>
        var r := old(GetInsertionRange(selection)).value;
        && HasEditor()
        && GetContent() == Splice(old(GetContent()), r, text)
        && state == Stats(GetContent())
      ensures !old(HasEditor()) ==> editor == old(editor) && state == old(state)
    {
      if !isBrowser || editor.None? {
        return;
      }
      var range := GetInsertionRange(selection);
      if range.None? {
        return;
      }
      editor := Some(Splice(editor.value, range.value, text));
      UpdateEditorState();
    }
  }
}
