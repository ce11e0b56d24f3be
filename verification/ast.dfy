/** The slice of the compiler's syntax tree that the items-after-statements lint reads:
    a block is an ordered list of statements plus its own span, and a statement is either
    a declaration (a `let` local or a nested item such as `fn`, `struct`, `mod`) or anything
    else (an expression, an expression with `;`, a macro invocation).
 */
module Ast {

  /** An opaque source extent: two byte positions and the identifier of the macro expansion
      the span belongs to (the compiler's `expn_id`), which is what macro origin is judged
      from. The lint only passes spans to the macro oracle and to the diagnostic sink. */
  datatype Span = Span(lo: nat, hi: nat, expn: nat)

  /** The payload of a declaration statement: a local binding or a named item. */
  datatype Decl = DeclLocal | DeclItem(span: Span)

  /** A statement. `NonDecl` stands for every statement kind that is not a declaration
      (expression statements, semicolon statements and macro statements). */
  datatype Stmt = StmtDecl(decl: Decl) | NonDecl
  {
    /** True of a declaration statement whose payload is an item. */
    predicate IsItem() {
      StmtDecl? && decl.DeclItem?
    }
  }

  /** True when position `i` of `stmts` holds an item declaration. */
  predicate ItemAt(stmts: seq<Stmt>, i: int) {
    0 <= i < |stmts| && stmts[i].IsItem()
  }

  /** A lexical block: its statements in textual order, and its own span. */
  datatype Block = Block(stmts: seq<Stmt>, span: Span)

  /** The spans of the item declarations among `stmts`, in statement order. */
  function ItemSpans(stmts: seq<Stmt>): (r: seq<Span>)
  {
    if stmts == [] then []
    else if stmts[0].IsItem() then [stmts[0].decl.span] + ItemSpans(stmts[1..])
    else ItemSpans(stmts[1..])
  }

  /** Collecting item spans distributes over concatenation of statement lists. */
  lemma {:induction false} ItemSpansAppend(a: seq<Stmt>, b: seq<Stmt>)
    ensures ItemSpans(a + b) == ItemSpans(a) + ItemSpans(b)
  {
    if a != [] {
      assert (a + b)[0] == a[0];
      assert (a + b)[1..] == a[1..] + b;
      ItemSpansAppend(a[1..], b);
    } else {
      assert a + b == b;
    }
  }
}
