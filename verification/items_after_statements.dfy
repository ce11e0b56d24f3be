/** The items-after-statements lint: warns on item declarations (`fn`, `struct`, `mod`, ...)
    written in a block after its first `let` or its first non-declaration statement, since
    items are visible from the start of their scope whatever their position.

    The macro-expansion oracle (`in_macro`) is the parameter `isMacro`; the diagnostic sink is
    the returned sequence, one `Diagnostic` per emitted warning, in emission order.
 */
module ItemsAfterStatements {
  import opened Ast

  /** The fixed text of every warning this lint emits. */
  const Message: string :=
    "adding items after statements is confusing, since items exist from the start of the scope"

  /** One emitted warning: where, and what it says. */
  datatype Diagnostic = Diagnostic(span: Span, message: string)

  /** True of an item declaration whose span comes from a macro expansion. */
  predicate IsMacroItem(s: Stmt, isMacro: Span -> bool) {
    s.IsItem() && isMacro(s.decl.span)
  }

  /** True when position `i` of `stmts` holds a macro-generated item declaration. */
  predicate MacroItemAt(stmts: seq<Stmt>, i: int, isMacro: Span -> bool) {
    0 <= i < |stmts| && IsMacroItem(stmts[i], isMacro)
  }

  /** The warnings for the given item spans, in order, each with the fixed message: reading
      the spans back off them gives the input again. */
  function Diags(spans: seq<Span>): (r: seq<Diagnostic>)
    ensures Spans(r) == spans
    ensures forall d :: d in r ==> d.message == Message
  {
    seq(|spans|, i requires 0 <= i < |spans| => Diagnostic(spans[i], Message))
  }

  /** The spans of a list of warnings, in order. */
  function Spans(ds: seq<Diagnostic>): (r: seq<Span>)
  {
    seq(|ds|, i requires 0 <= i < |ds| => ds[i].span)
  }

  /** The leading phase: how many statements the `while let` loop pulls from the iterator.
      It keeps going over item declarations and stops after the first statement that is not
      one: a `let` (the `break`) or a non-declaration (the pattern fails). That statement has
      been pulled too, so it is counted and never looked at again. The result `k` is pinned
      down by: every statement before the last consumed one is an item, and either the whole
      list was consumed or the last consumed statement is the terminator. */
  function Lead(stmts: seq<Stmt>): (k: nat)
    ensures k <= |stmts|
    ensures stmts != [] ==> 1 <= k
    ensures forall i :: 0 <= i < k - 1 ==> ItemAt(stmts, i)
    ensures k < |stmts| ==> 1 <= k && !ItemAt(stmts, k - 1)
  {
    if stmts == [] then 0
    else if stmts[0].IsItem() then
      var k := Lead(stmts[1..]);
      assert forall i :: 0 <= i < k ==> ItemAt(stmts, i) by {
        forall i | 0 < i < k ensures ItemAt(stmts, i) {
          assert ItemAt(stmts[1..], i - 1);
        }
      }
      assert k < |stmts| - 1 ==> !ItemAt(stmts[1..], k - 1);
      1 + k
    else 1
  }

  /** The index of the first macro-generated item declaration in `stmts`, or `|stmts|` when
      there is none: the point where the flagging phase returns early. */
  function FirstMacroItem(stmts: seq<Stmt>, isMacro: Span -> bool): (k: nat)
    ensures k <= |stmts|
    ensures forall i :: 0 <= i < k ==> !MacroItemAt(stmts, i, isMacro)
    ensures k < |stmts| ==> MacroItemAt(stmts, k, isMacro)
  {
    if stmts == [] then 0
    else if IsMacroItem(stmts[0], isMacro) then 0
    else
      var k := FirstMacroItem(stmts[1..], isMacro);
      assert forall i :: 0 <= i <= k ==> !MacroItemAt(stmts, i, isMacro) by {
        forall i | 0 < i <= k ensures !MacroItemAt(stmts, i, isMacro) {
          assert !MacroItemAt(stmts[1..], i - 1, isMacro);
        }
      }
      assert k < |stmts| - 1 ==> MacroItemAt(stmts[1..], k, isMacro);
      1 + k
  }

  /** The flagging phase over the statements left after the leading phase: every item
      declaration is warned on, `let`s and non-declarations are passed over, and a
      macro-generated item ends the whole scan with nothing emitted for it. */
  function Flag(stmts: seq<Stmt>, isMacro: Span -> bool): (r: seq<Diagnostic>)
    ensures |r| <= |ItemSpans(stmts)|
  {
    if stmts == [] then []
    else
      match stmts[0]
      case StmtDecl(DeclItem(sp)) =>
        if isMacro(sp) then [] else [Diagnostic(sp, Message)] + Flag(stmts[1..], isMacro)
      case _ => Flag(stmts[1..], isMacro)
  }

  /** `check_block`: the whole lint on one block. A macro-generated block is skipped; otherwise
      the statements not consumed by the leading phase go through the flagging phase. */
  function Check(b: Block, isMacro: Span -> bool): (r: seq<Diagnostic>)
    ensures isMacro(b.span) ==> r == []
    ensures |r| <= |ItemSpans(b.stmts)|
  {
    if isMacro(b.span) then []
    else
      var k := Lead(b.stmts);
      ItemSpansAppend(b.stmts[..k], b.stmts[k..]);
      assert b.stmts[..k] + b.stmts[k..] == b.stmts;
      Flag(b.stmts[k..], isMacro)
  }

  /** `check_block` as written: the block guard, then one iterator (the index handed from
      the first loop to the second) shared by the `while let` loop and the `for` loop. */
  method CheckBlock(b: Block, isMacro: Span -> bool) returns (diags: seq<Diagnostic>)
    ensures diags == Check(b, isMacro)
  {
    if isMacro(b.span) {
      return [];
    }
    var i := SkipInitialItems(b.stmts);
    diags := LintFurtherItems(b.stmts, i, isMacro);
  }

  /** The `while let` loop: pulls statements while they are item declarations, and also
      pulls the first one that is not. Returns how many statements it pulled. */
  method SkipInitialItems(stmts: seq<Stmt>) returns (i: nat)
    ensures i == Lead(stmts)
  {
    i := 0;
    assert stmts[0..] == stmts;
    while i < |stmts|
      invariant 0 <= i <= |stmts|
      invariant Lead(stmts) == i + Lead(stmts[i..])
    {
      var s := stmts[i];
      LeadStep(stmts, i);
      i := i + 1;
      if !s.IsItem() {
        break;
      }
    }
  }

  /** The `for` loop over the statements from index `start` on: warns on each item, passes
      over everything else, and returns early on a macro-generated item. */
  method LintFurtherItems(stmts: seq<Stmt>, start: nat, isMacro: Span -> bool)
    returns (diags: seq<Diagnostic>)
    requires start <= |stmts|
    ensures diags == Flag(stmts[start..], isMacro)
  {
    diags := [];
    var i := start;
    while i < |stmts|
      invariant start <= i <= |stmts|
      invariant Flag(stmts[start..], isMacro) == diags + Flag(stmts[i..], isMacro)
    {
      var s := stmts[i];
      FlagStep(stmts, i, isMacro);
      i := i + 1;
      if s.IsItem() {
        if isMacro(s.decl.span) {
          assert diags + [] == diags;
          return;
        }
        diags := diags + [Diagnostic(s.decl.span, Message)];
      }
    }
  }

  /** One step of the leading phase at index `i`. */
  lemma LeadStep(stmts: seq<Stmt>, i: nat)
    requires i < |stmts|
    ensures Lead(stmts[i..]) == if stmts[i].IsItem() then 1 + Lead(stmts[i + 1..]) else 1
  {
    assert stmts[i..][0] == stmts[i] && stmts[i..][1..] == stmts[i + 1..];
  }

  /** One step of the flagging phase at index `i`. */
  lemma FlagStep(stmts: seq<Stmt>, i: nat, isMacro: Span -> bool)
    requires i < |stmts|
    ensures Flag(stmts[i..], isMacro) ==
              if !stmts[i].IsItem() then Flag(stmts[i + 1..], isMacro)
              else if isMacro(stmts[i].decl.span) then []
              else [Diagnostic(stmts[i].decl.span, Message)] + Flag(stmts[i + 1..], isMacro)
  {
    assert stmts[i..][0] == stmts[i] && stmts[i..][1..] == stmts[i + 1..];
  }
}
