/**
 * The expression-block record and the pure part of the expression-block
 * service: creating a block, classifying its content as a function call,
 * extracting the function name, deriving the display state, and the
 * find-by-id / map-by-id steps the service uses on its block list.
 */
module ExpressionBlocks {
  import opened Wrappers
  import opened Text
  import opened PropertyBlocks

  datatype ExpressionBlock = ExpressionBlock(
    id: string,
    content: string,
    properties: seq<PropertyBlock>,
    isValid: bool,
    isFunction: bool,
    functionName: Option<string>)

  datatype ExpressionState = ExpressionState(isEmpty: bool, isValid: bool, propertyCount: nat, hasFunction: bool)

  // ---------------------------------------------------------------------------
  // Classifying content

  /**
   * `t` splits as letters, whitespace, `(`, whitespace, `)`, with at least one
   * letter: the strings the pattern `^[A-Za-z]+\s*\(\s*\)$` accepts. The letters
   * are `t[..a]` and the `(` sits at index `b`.
   */
  predicate EmptyCallPieces(t: string, a: nat, b: nat)
    requires 0 < a <= b && b + 1 < |t|
  {
    && All(t[..a], IsAsciiLetter)
    && All(t[a..b], IsWhitespace)
    && t[b] == '('
    && All(t[b + 1..|t| - 1], IsWhitespace)
    && t[|t| - 1] == ')'
  }

  ghost predicate IsEmptyCall(t: string) {
    exists a: nat, b: nat | 0 < a <= b && b + 1 < |t| :: EmptyCallPieces(t, a, b)
  }

  /** The pattern `^[A-Za-z]+\s*\(\s*\)$` run as a left-to-right scan. */
  predicate ScanEmptyCall(t: string) {
    var a := Run(t, IsAsciiLetter);
    var b := a + Run(t[a..], IsWhitespace);
    && 0 < a && b + 1 < |t|
    && t[b] == '('
    && All(t[b + 1..|t| - 1], IsWhitespace)
    && t[|t| - 1] == ')'
  }

  /**
   * `isFunction`: the trimmed content is a name followed by an empty argument
   * list, exactly what the regular expression accepts.
   */
  predicate IsFunction(content: string): (r: bool)
    ensures r <==> IsEmptyCall(Trim(content))
  {
    ScanMatchesPattern(Trim(content));
    ScanEmptyCall(Trim(content))
  }

  /**
   * `c` starts with letters `c[..a]`, then whitespace, then `(` at index `b`:
   * the prefixes the pattern `^([A-Za-z]+)\s*\(` accepts.
   */
  predicate NamedCallPieces(c: string, a: nat, b: nat)
    requires 0 < a <= b < |c|
  {
    All(c[..a], IsAsciiLetter) && All(c[a..b], IsWhitespace) && c[b] == '('
  }

  /** `extractFunctionName`: the leading letters when they are followed by optional whitespace and `(`. */
  function ExtractFunctionName(content: string): (r: Option<string>)
    ensures r.Some? ==> r.value != [] && All(r.value, IsAsciiLetter) && |r.value| <= |content| && r.value == content[..|r.value|]
  {
    var a := Run(content, IsAsciiLetter);
    var b := a + Run(content[a..], IsWhitespace);
    RunSpec(content, IsAsciiLetter);
    if 0 < a && b < |content| && content[b] == '(' then Some(content[..a]) else None
  }

  /** Letters, whitespace and `(` are pairwise disjoint, so a split into pieces fixes where each piece ends. */
  lemma {:induction false} PiecesAreTheRuns(t: string, a: nat, b: nat)
    requires 0 < a <= b < |t|
    requires All(t[..a], IsAsciiLetter) && All(t[a..b], IsWhitespace) && t[b] == '('
    ensures Run(t, IsAsciiLetter) == a
    ensures a + Run(t[a..], IsWhitespace) == b
  {
    if a < b {
      assert t[a..b][0] == t[a];
    }
    RunIsUnique(t, IsAsciiLetter, a);
    assert t[a..][..b - a] == t[a..b];
    RunIsUnique(t[a..], IsWhitespace, b - a);
  }

  /** The scan at the runs finds the pieces it reports. */
  lemma {:induction false} RunsArePieces(t: string)
    ensures var a := Run(t, IsAsciiLetter);
      var b := a + Run(t[a..], IsWhitespace);
      b <= |t| && All(t[..a], IsAsciiLetter) && All(t[a..b], IsWhitespace)
  {
    var a := Run(t, IsAsciiLetter);
    var b := a + Run(t[a..], IsWhitespace);
    RunSpec(t, IsAsciiLetter);
    RunFrom(t, IsWhitespace, a);
  }

  /** A successful scan exhibits the pieces. */
  lemma {:induction false} ScanGivesPieces(t: string)
    requires ScanEmptyCall(t)
    ensures IsEmptyCall(t)
  {
    RunsArePieces(t);
    var a := Run(t, IsAsciiLetter);
    var b := a + Run(t[a..], IsWhitespace);
    assert EmptyCallPieces(t, a, b);
  }

  /** Any split into pieces makes the scan succeed. */
  lemma {:induction false} PiecesGiveScan(t: string, a: nat, b: nat)
    requires 0 < a <= b && b + 1 < |t| && EmptyCallPieces(t, a, b)
    ensures ScanEmptyCall(t)
  {
    PiecesAreTheRuns(t, a, b);
  }

  /** The left-to-right scan accepts exactly what the regular expression accepts. */
  lemma {:induction false} ScanMatchesPattern(t: string)
    ensures ScanEmptyCall(t) <==> IsEmptyCall(t)
  {
    if ScanEmptyCall(t) {
      ScanGivesPieces(t);
    }
    if IsEmptyCall(t) {
      var a, b :| 0 < a <= b && b + 1 < |t| && EmptyCallPieces(t, a, b);
      PiecesGiveScan(t, a, b);
    }
  }

  /** `extractFunctionName` reports a name exactly when the prefix pattern matches, and the name is the matched letters. */
  lemma ExtractFunctionNameMatchesPattern(content: string)
    ensures ExtractFunctionName(content).Some? <==>
      exists a: nat, b: nat | 0 < a <= b < |content| :: NamedCallPieces(content, a, b)
    ensures forall a: nat, b: nat | 0 < a <= b < |content| && NamedCallPieces(content, a, b) ::
      ExtractFunctionName(content) == Some(content[..a])
  {
    RunsArePieces(content);
    var a := Run(content, IsAsciiLetter);
    var b := a + Run(content[a..], IsWhitespace);
    if ExtractFunctionName(content).Some? {
      assert NamedCallPieces(content, a, b);
    }
    forall a': nat, b': nat | 0 < a' <= b' < |content| && NamedCallPieces(content, a', b')
      ensures ExtractFunctionName(content) == Some(content[..a'])
    {
      PiecesAreTheRuns(content, a', b');
    }
  }

  /** When the prefix pattern matches, the extracted name is the run of leading letters. */
  lemma {:induction false} NamedPiecesGiveName(content: string, a: nat, b: nat)
    requires 0 < a <= b < |content| && NamedCallPieces(content, a, b)
    ensures ExtractFunctionName(content) == Some(content[..Run(content, IsAsciiLetter)])
  {
    PiecesAreTheRuns(content, a, b);
  }

  /** Content that does not start with whitespace and is a function call has a function name: its leading letters. */
  lemma {:induction false} FunctionHasName(content: string)
    requires IsFunction(content)
    requires content != [] && !IsWhitespace(content[0])
    ensures ExtractFunctionName(content) == Some(content[..Run(content, IsAsciiLetter)])
  {
    var t := Trim(content);
    RunsArePieces(t);
    var a := Run(t, IsAsciiLetter);
    var b := a + Run(t[a..], IsWhitespace);
    assert 0 < a && b + 1 < |t|;
    TrimOfUnpaddedStart(content);
    PrefixSlices(content, |t|, a, b);
    NamedPiecesGiveName(content, a, b);
  }

  /** `Name()` is a function call named `Name`: the shape of every toolbar function. */
  lemma {:induction false} NameCallIsFunction(name: string)
    requires name != [] && All(name, IsAsciiLetter)
    ensures IsFunction(name + "()")
    ensures ExtractFunctionName(name + "()") == Some(name)
  {
    var t := name + "()";
    assert t[..|name|] == name;
    assert t[|name|] == '(' && t[|t| - 1] == ')';
    PiecesAreTheRuns(t, |name|, |name|);
    UnpaddedTrim(t);
    assert t[|name| + 1..|t| - 1] == [];
  }

  /** `Name(arg)` with anything but whitespace in the argument is not a function call, yet it has a function name. */
  lemma {:induction false} NameWithArgumentIsNotFunction(name: string, arg: string)
    requires name != [] && All(name, IsAsciiLetter)
    requires arg != [] && !IsWhitespace(arg[0])
    ensures !IsFunction(name + "(" + arg + ")")
    ensures ExtractFunctionName(name + "(" + arg + ")") == Some(name)
  {
    var t := name + "(" + arg + ")";
    assert t[..|name|] == name;
    assert t[|name|] == '(' && t[|t| - 1] == ')';
    PiecesAreTheRuns(t, |name|, |name|);
    UnpaddedTrim(t);
    assert t[|name| + 1..|t| - 1][0] == arg[0];
  }

  /** Letters followed by a character that is neither whitespace nor `(`: neither pattern matches. */
  lemma {:induction false} NoCallAfterOperator(t: string, a: nat)
    requires 0 < a < |t| && All(t[..a], IsAsciiLetter)
    requires !IsAsciiLetter(t[a]) && !IsWhitespace(t[a]) && t[a] != '('
    ensures !ScanEmptyCall(t)
    ensures ExtractFunctionName(t) == None
  {
    RunIsUnique(t, IsAsciiLetter, a);
    assert t[a..][0] == t[a];
    RunIsUnique(t[a..], IsWhitespace, 0);
  }

  /** Content that starts with whitespace has no function name. */
  lemma {:induction false} NoNameAfterWhitespace(content: string)
    requires content != [] && IsWhitespace(content[0])
    ensures ExtractFunctionName(content) == None
  {
    RunIsUnique(content, IsAsciiLetter, 0);
  }

  /** Leading whitespace: the classifier trims it away, the name extractor does not, so a function call gets no name. */
  lemma {:induction false} LeadingWhitespaceHidesName(pad: string, name: string)
    requires pad != [] && All(pad, IsWhitespace)
    requires name != [] && All(name, IsAsciiLetter)
    ensures IsFunction(pad + name + "()")
    ensures ExtractFunctionName(pad + name + "()") == None
  {
    var t := name + "()";
    var c := pad + t;
    assert pad + name + "()" == c;
    assert t[0] == name[0];
    TrimAfterPadding(pad, t);
    NameCallIsFunction(name);
    assert c[0] == pad[0];
    NoNameAfterWhitespace(c);
  }

  // ---------------------------------------------------------------------------
  // Creating blocks and deriving their state

  /** `createExpressionBlock`: a block with no properties, not yet valid, classified by its content. */
  function CreateExpressionBlock(freshId: string, content: string): (b: ExpressionBlock)
    ensures b.id == freshId && b.content == content
    ensures b.properties == [] && !b.isValid
    ensures b.isFunction <==> IsEmptyCall(Trim(content))
    ensures b.functionName == ExtractFunctionName(content)
  {
    ExpressionBlock(freshId, content, [], false, IsFunction(content), ExtractFunctionName(content))
  }

  /** `getExpressionState`. Empty and valid are complementary, so the "invalid" styling branch is never taken. */
  function GetExpressionState(b: ExpressionBlock): (s: ExpressionState)
    ensures s.isEmpty != s.isValid
    ensures s.isValid <==> b.properties != []
    ensures s.propertyCount == |b.properties| && s.hasFunction == b.isFunction
  {
    ExpressionState(|b.properties| == 0, |b.properties| > 0, |b.properties|, b.isFunction)
  }

  /** A block whose stored fields agree with what its content and properties determine. */
  predicate Consistent(b: ExpressionBlock) {
    && b.isValid == GetExpressionState(b).isValid
    && b.isFunction == IsFunction(b.content)
    && b.functionName == ExtractFunctionName(b.content)
  }

  /** Every freshly created block is consistent. */
  lemma CreatedIsConsistent(freshId: string, content: string)
    ensures Consistent(CreateExpressionBlock(freshId, content))
  {
  }

  // ---------------------------------------------------------------------------
  // The block list

  /** `blocks.find(b => b.id === id)`, as the index of the first block with the id. */
  function FindById(blocks: seq<ExpressionBlock>, id: string): (r: Option<nat>)
    ensures r.Some? ==> r.value < |blocks| && blocks[r.value].id == id
    ensures r.Some? ==> forall j :: 0 <= j < r.value ==> blocks[j].id != id
    ensures r.None? ==> forall j :: 0 <= j < |blocks| ==> blocks[j].id != id
  {
    if blocks == [] then None
    else if blocks[0].id == id then Some(0)
    else
      match FindById(blocks[1..], id)
      case None => None
      case Some(k) => Some(k + 1)
  }

  /** `blocks.map(b => b.id === updated.id ? updated : b)`. */
  function ReplaceById(blocks: seq<ExpressionBlock>, updated: ExpressionBlock): (r: seq<ExpressionBlock>)
    ensures |r| == |blocks|
    ensures forall j :: 0 <= j < |r| ==> r[j] == if blocks[j].id == updated.id then updated else blocks[j]
  {
    seq(|blocks|, j requires 0 <= j < |blocks| => if blocks[j].id == updated.id then updated else blocks[j])
  }

  predicate UniqueIds(blocks: seq<ExpressionBlock>) {
    forall i, j :: 0 <= i < j < |blocks| ==> blocks[i].id != blocks[j].id
  }

  /** With distinct ids, replacing by id rewrites exactly the one block found and keeps the order. */
  lemma ReplaceByIdWithUniqueIds(blocks: seq<ExpressionBlock>, updated: ExpressionBlock)
    requires UniqueIds(blocks)
    requires FindById(blocks, updated.id).Some?
    ensures ReplaceById(blocks, updated) == blocks[FindById(blocks, updated.id).value := updated]
  {
  }

  /** Appending a block with an id not yet used keeps the ids distinct. */
  lemma AppendFreshKeepsUniqueIds(blocks: seq<ExpressionBlock>, b: ExpressionBlock)
    requires UniqueIds(blocks)
    requires FindById(blocks, b.id).None?
    ensures UniqueIds(blocks + [b])
  {
  }

  /** Replacing by id changes no id, so distinct ids stay distinct. */
  lemma ReplaceByIdKeepsUniqueIds(blocks: seq<ExpressionBlock>, updated: ExpressionBlock)
    requires UniqueIds(blocks)
    requires FindById(blocks, updated.id).Some?
    ensures UniqueIds(ReplaceById(blocks, updated))
  {
  }
}
