/** What the items-after-statements lint promises about one block, proved of the model:
    which items it warns on, in which order, and what each kind of statement does to the scan.
 */
module Properties {
  import opened Ast
  import opened ItemsAfterStatements

  // ---------------------------------------------------------------------------------------
  // A declarative reference for the flagging phase and for the whole check
  // ---------------------------------------------------------------------------------------

  /** Every warning of the flagging phase carries the fixed message and is at a hand-written
      item declaration of the scanned statements; there are at most as many warnings as items. */
  lemma {:induction false} FlagSound(stmts: seq<Stmt>, isMacro: Span -> bool)
    ensures |Flag(stmts, isMacro)| <= |ItemSpans(stmts)|
    ensures forall d :: d in Flag(stmts, isMacro) ==>
              d.message == Message && !isMacro(d.span) && StmtDecl(DeclItem(d.span)) in stmts
  {
    if stmts != [] {
      var tail := stmts[1..];
      FlagSound(tail, isMacro);
      assert forall d :: d in Flag(tail, isMacro) ==> StmtDecl(DeclItem(d.span)) in stmts by {
        forall d | d in Flag(tail, isMacro) ensures StmtDecl(DeclItem(d.span)) in stmts {
          assert StmtDecl(DeclItem(d.span)) in tail;
        }
      }
    }
  }

  /** `check_block`'s guarantees: nothing for a macro-generated block; every warning carries
      the fixed message and is at a hand-written item declaration among the statements left
      after the leading phase; never more warnings than item declarations. */
  lemma CheckSound(b: Block, isMacro: Span -> bool)
    ensures isMacro(b.span) ==> Check(b, isMacro) == []
    ensures |Check(b, isMacro)| <= |ItemSpans(b.stmts)|
    ensures forall d :: d in Check(b, isMacro) ==>
              d.message == Message && !isMacro(d.span)
              && StmtDecl(DeclItem(d.span)) in b.stmts[Lead(b.stmts)..]
  {
    var k := Lead(b.stmts);
    FlagSound(b.stmts[k..], isMacro);
    ItemSpansAppend(b.stmts[..k], b.stmts[k..]);
    assert b.stmts[..k] + b.stmts[k..] == b.stmts;
  }

  /** The flagging phase warns, with the fixed message, on exactly the item declarations that
      come before the first macro-generated one, in statement order. */
  lemma {:induction false} FlagIsItemsBeforeFirstMacroItem(stmts: seq<Stmt>, isMacro: Span -> bool)
    ensures Flag(stmts, isMacro) == Diags(ItemSpans(stmts[..FirstMacroItem(stmts, isMacro)]))
  {
    if stmts != [] && !IsMacroItem(stmts[0], isMacro) {
      var k := FirstMacroItem(stmts, isMacro);
      var tail := stmts[1..];
      FlagIsItemsBeforeFirstMacroItem(tail, isMacro);
      assert stmts[..k] == [stmts[0]] + tail[..k - 1];
      ItemSpansAppend([stmts[0]], tail[..k - 1]);
      assert [stmts[0]][1..] == [];
      var spans := ItemSpans(tail[..k - 1]);
      if stmts[0].IsItem() {
        DiagsCons(stmts[0].decl.span, spans);
      }
    } else if stmts != [] {
      assert stmts[..0] == [];
    }
  }

  /** The warning list of one more span is that span's warning, then the rest. */
  lemma DiagsCons(sp: Span, spans: seq<Span>)
    ensures Diags([sp] + spans) == [Diagnostic(sp, Message)] + Diags(spans)
  {
    assert forall i :: 0 <= i < |spans| ==> ([sp] + spans)[i + 1] == spans[i];
  }

  /** The flagging phase over two consecutive runs of statements: if the first run holds a
      macro-generated item the second is never reached, otherwise the warnings of both runs
      are emitted one after the other. */
  lemma {:induction false} FlagAppend(a: seq<Stmt>, b: seq<Stmt>, isMacro: Span -> bool)
    ensures Flag(a + b, isMacro) ==
              if FirstMacroItem(a, isMacro) < |a| then Flag(a, isMacro)
              else Flag(a, isMacro) + Flag(b, isMacro)
  {
    if a == [] {
      assert a + b == b;
    } else {
      assert (a + b)[0] == a[0];
      assert (a + b)[1..] == a[1..] + b;
      FlagAppend(a[1..], b, isMacro);
    }
  }

  /** The whole check, stated without the scan: nothing for a macro-generated block; otherwise
      one warning per item declaration after the leading phase and before the first
      macro-generated item, in statement order. */
  lemma CheckReference(b: Block, isMacro: Span -> bool)
    ensures Check(b, isMacro) ==
              if isMacro(b.span) then []
              else
                var rest := b.stmts[Lead(b.stmts)..];
                Diags(ItemSpans(rest[..FirstMacroItem(rest, isMacro)]))
  {
    if !isMacro(b.span) {
      FlagIsItemsBeforeFirstMacroItem(b.stmts[Lead(b.stmts)..], isMacro);
    }
  }

  // ---------------------------------------------------------------------------------------
  // Order, multiplicity and the exempt leading run
  // ---------------------------------------------------------------------------------------

  /** The warned spans are a contiguous run of the block's item spans, in statement order,
      starting right after the `p` items the leading phase consumed: so the leading items are
      never warned on, no item is warned on twice, and there are never more warnings than
      items. */
  lemma CheckInStatementOrder(b: Block, isMacro: Span -> bool)
    ensures var r := Check(b, isMacro);
            var p := |ItemSpans(b.stmts[..Lead(b.stmts)])|;
            p + |r| <= |ItemSpans(b.stmts)| && Spans(r) == ItemSpans(b.stmts)[p..p + |r|]
  {
    var k := Lead(b.stmts);
    var lead, rest := b.stmts[..k], b.stmts[k..];
    assert b.stmts == lead + rest;
    ItemSpansAppend(lead, rest);
    FlagEmitsItemPrefix(rest, isMacro);
    var r := Check(b, isMacro);
    var a, c := ItemSpans(lead), ItemSpans(rest);
    assert Spans(r) == c[..|r|];
    assert (a + c)[|a|..|a| + |r|] == c[..|r|];
  }

  /** The flagging phase warns on a prefix of the scanned statements' item spans. */
  lemma {:induction false} FlagEmitsItemPrefix(stmts: seq<Stmt>, isMacro: Span -> bool)
    ensures var r := Flag(stmts, isMacro);
            |r| <= |ItemSpans(stmts)| && Spans(r) == ItemSpans(stmts)[..|r|]
  {
    if stmts != [] {
      FlagEmitsItemPrefix(stmts[1..], isMacro);
    }
  }

  /** A block made only of item declarations is never warned on: the leading phase consumes
      every statement. */
  lemma AllItemsBlockSilent(b: Block, isMacro: Span -> bool)
    requires forall i :: 0 <= i < |b.stmts| ==> b.stmts[i].IsItem()
    ensures Check(b, isMacro) == []
  {
    assert Lead(b.stmts) == |b.stmts|;
  }

  /** A block without item declarations is never warned on. */
  lemma NoItemsSilent(b: Block, isMacro: Span -> bool)
    requires forall i :: 0 <= i < |b.stmts| ==> !b.stmts[i].IsItem()
    ensures Check(b, isMacro) == []
  {
    NoItemsNoSpans(b.stmts);
    CheckSound(b, isMacro);
  }

  lemma {:induction false} NoItemsNoSpans(stmts: seq<Stmt>)
    requires forall i :: 0 <= i < |stmts| ==> !stmts[i].IsItem()
    ensures ItemSpans(stmts) == []
  {
    if stmts != [] {
      NoItemsNoSpans(stmts[1..]);
    }
  }

  // ---------------------------------------------------------------------------------------
  // How each statement kind affects the scan
  // ---------------------------------------------------------------------------------------

  /** The leading phase ends at the first statement that is not an item, a `let` or a
      non-declaration alike, and consumes it. */
  lemma {:induction false} LeadEndsAtFirstNonItem(pre: seq<Stmt>, t: Stmt, rest: seq<Stmt>)
    requires forall i :: 0 <= i < |pre| ==> pre[i].IsItem()
    requires !t.IsItem()
    ensures Lead(pre + [t] + rest) == |pre| + 1
  {
    if pre != [] {
      assert (pre + [t] + rest)[0] == pre[0];
      assert (pre + [t] + rest)[1..] == pre[1..] + [t] + rest;
      LeadEndsAtFirstNonItem(pre[1..], t, rest);
    } else {
      assert (pre + [t] + rest)[0] == t;
    }
  }

  /** `Lead`'s contract pins its result down: any count with the same description is the
      number of statements the leading loop consumes. */
  lemma LeadIsUnique(stmts: seq<Stmt>, k: nat)
    requires k <= |stmts| && (stmts != [] ==> 1 <= k)
    requires forall i :: 0 <= i < k - 1 ==> ItemAt(stmts, i)
    requires k < |stmts| ==> 1 <= k && !ItemAt(stmts, k - 1)
    ensures k == Lead(stmts)
  {
  }

  /** Once a statement that is not an item has occurred, what follows does not change where
      the leading phase ends. */
  lemma {:induction false} LeadOfExtension(pre: seq<Stmt>, more: seq<Stmt>)
    requires exists i :: 0 <= i < |pre| && !pre[i].IsItem()
    ensures Lead(pre + more) == Lead(pre)
    ensures forall i :: 0 <= i < |pre| && !pre[i].IsItem() ==> Lead(pre) <= i + 1
  {
    assert (pre + more)[0] == pre[0];
    if pre[0].IsItem() {
      assert (pre + more)[1..] == pre[1..] + more;
      var i :| 0 <= i < |pre| && !pre[i].IsItem();
      assert !pre[1..][i - 1].IsItem();
      LeadOfExtension(pre[1..], more);
    }
  }

  /** An item right after the statement that ends the leading phase is warned on, whether
      that statement is a `let` or an expression: the exempt prefix ends at the first
      non-item, not only at the first `let`. */
  lemma ItemAfterTerminatorFlagged(pre: seq<Stmt>, t: Stmt, sp: Span, rest: seq<Stmt>,
                                   blockSpan: Span, isMacro: Span -> bool)
    requires forall i :: 0 <= i < |pre| ==> pre[i].IsItem()
    requires !t.IsItem()
    requires !isMacro(blockSpan) && !isMacro(sp)
    ensures Check(Block(pre + [t] + [StmtDecl(DeclItem(sp))] + rest, blockSpan), isMacro)
            == [Diagnostic(sp, Message)] + Check(Block(pre + [t] + rest, blockSpan), isMacro)
  {
    var s1 := pre + [t] + [StmtDecl(DeclItem(sp))] + rest;
    var s2 := pre + [t] + rest;
    assert s1 == pre + [t] + ([StmtDecl(DeclItem(sp))] + rest);
    LeadEndsAtFirstNonItem(pre, t, [StmtDecl(DeclItem(sp))] + rest);
    LeadEndsAtFirstNonItem(pre, t, rest);
    assert s1[|pre| + 1..] == [StmtDecl(DeclItem(sp))] + rest;
    assert s2[|pre| + 1..] == rest;
  }

  /** The example in the lint's documentation: a call, then `fn foo`, then a call. The item
      comes after a statement, so it is warned on, even though no `let` precedes it. */
  lemma DocExampleWarns(foo: Span, blockSpan: Span, isMacro: Span -> bool)
    requires !isMacro(blockSpan) && !isMacro(foo)
    ensures Check(Block([NonDecl, StmtDecl(DeclItem(foo)), NonDecl], blockSpan), isMacro)
            == [Diagnostic(foo, Message)]
  {
    ItemAfterTerminatorFlagged([], NonDecl, foo, [NonDecl], blockSpan, isMacro);
    assert Check(Block([NonDecl, NonDecl], blockSpan), isMacro) == [];
  }

  /** After the leading phase, a `let` or a non-declaration statement emits nothing and does
      not stop the scan: removing it leaves the warnings unchanged. */
  lemma NonItemAfterLeadIsNoOp(pre: seq<Stmt>, t: Stmt, rest: seq<Stmt>, blockSpan: Span,
                               isMacro: Span -> bool)
    requires exists i :: 0 <= i < |pre| && !pre[i].IsItem()
    requires !t.IsItem()
    ensures Check(Block(pre + [t] + rest, blockSpan), isMacro)
            == Check(Block(pre + rest, blockSpan), isMacro)
  {
    if !isMacro(blockSpan) {
      assert pre + [t] + rest == pre + ([t] + rest);
      CheckOfExtension(pre, [t] + rest, blockSpan, isMacro);
      CheckOfExtension(pre, rest, blockSpan, isMacro);
      FlagOfNonItem(t, rest, isMacro);
    }
  }

  /** The flagging phase passes over a statement that is not an item. */
  lemma FlagOfNonItem(t: Stmt, rest: seq<Stmt>, isMacro: Span -> bool)
    requires !t.IsItem()
    ensures Flag([t] + rest, isMacro) == Flag(rest, isMacro)
  {
    assert ([t] + rest)[0] == t && ([t] + rest)[1..] == rest;
  }

  /** After the leading phase, a macro-generated item ends the scan: nothing is emitted for it
      or for anything after it, so the warnings are those of the statements before it. */
  lemma MacroItemSilencesRest(pre: seq<Stmt>, sp: Span, rest: seq<Stmt>, blockSpan: Span,
                              isMacro: Span -> bool)
    requires exists i :: 0 <= i < |pre| && !pre[i].IsItem()
    requires isMacro(sp)
    ensures Check(Block(pre + [StmtDecl(DeclItem(sp))] + rest, blockSpan), isMacro)
            == Check(Block(pre, blockSpan), isMacro)
  {
    if !isMacro(blockSpan) {
      var tail := [StmtDecl(DeclItem(sp))] + rest;
      assert pre + [StmtDecl(DeclItem(sp))] + rest == pre + tail;
      CheckOfExtension(pre, tail, blockSpan, isMacro);
      assert tail[0] == StmtDecl(DeclItem(sp));
      var f := Flag(pre[Lead(pre)..], isMacro);
      assert f + [] == f;
    }
  }

  /** After the leading phase and before any macro-generated item, a hand-written item gets
      exactly one warning, placed between the warnings for the statements before it and
      those for the statements after it. */
  lemma ItemAfterLeadFlaggedOnce(pre: seq<Stmt>, sp: Span, rest: seq<Stmt>, blockSpan: Span,
                                 isMacro: Span -> bool)
    requires exists i :: 0 <= i < |pre| && !pre[i].IsItem()
    requires forall i :: Lead(pre) <= i < |pre| ==> !IsMacroItem(pre[i], isMacro)
    requires !isMacro(blockSpan) && !isMacro(sp)
    ensures var before := Check(Block(pre, blockSpan), isMacro);
            var without := Check(Block(pre + rest, blockSpan), isMacro);
            |before| <= |without|
            && Check(Block(pre + [StmtDecl(DeclItem(sp))] + rest, blockSpan), isMacro)
               == before + [Diagnostic(sp, Message)] + without[|before|..]
  {
    var k := Lead(pre);
    var item := StmtDecl(DeclItem(sp));
    assert pre + [item] + rest == pre + ([item] + rest);
    CheckOfExtension(pre, [item] + rest, blockSpan, isMacro);
    CheckOfExtension(pre, rest, blockSpan, isMacro);
    NoMacroItemInSuffix(pre, k, isMacro);
    FlagOfItem(sp, rest, isMacro);
    var f, g := Flag(pre[k..], isMacro), Flag(rest, isMacro);
    assert Check(Block(pre, blockSpan), isMacro) == f;
    assert Check(Block(pre + rest, blockSpan), isMacro) == f + g;
    assert Check(Block(pre + [item] + rest, blockSpan), isMacro) == f + ([Diagnostic(sp, Message)] + g);
    InsertBetween(f, Diagnostic(sp, Message), g);
  }

  lemma InsertBetween<T>(f: seq<T>, d: T, g: seq<T>)
    ensures |f| <= |f + g| && f + ([d] + g) == f + [d] + (f + g)[|f|..]
  {
    assert (f + g)[|f|..] == g;
  }

  /** The flagging phase meeting a hand-written item: one warning, then the rest. */
  lemma FlagOfItem(sp: Span, rest: seq<Stmt>, isMacro: Span -> bool)
    requires !isMacro(sp)
    ensures Flag([StmtDecl(DeclItem(sp))] + rest, isMacro) == [Diagnostic(sp, Message)] + Flag(rest, isMacro)
  {
    assert ([StmtDecl(DeclItem(sp))] + rest)[1..] == rest;
  }

  /** Once the leading phase has ended inside `pre`, the check of `pre` followed by `more` is
      the flagging phase over what `pre` has left, then `more`. */
  lemma CheckOfExtension(pre: seq<Stmt>, more: seq<Stmt>, blockSpan: Span, isMacro: Span -> bool)
    requires exists i :: 0 <= i < |pre| && !pre[i].IsItem()
    requires !isMacro(blockSpan)
    ensures Check(Block(pre + more, blockSpan), isMacro)
            == if FirstMacroItem(pre[Lead(pre)..], isMacro) < |pre[Lead(pre)..]|
               then Flag(pre[Lead(pre)..], isMacro)
               else Flag(pre[Lead(pre)..], isMacro) + Flag(more, isMacro)
  {
    var k := Lead(pre);
    LeadOfExtension(pre, more);
    assert (pre + more)[k..] == pre[k..] + more;
    FlagAppend(pre[k..], more, isMacro);
  }

  /** Where `pre` has no macro-generated item from position `k` on, the suffix from `k` has
      none at all. */
  lemma NoMacroItemInSuffix(pre: seq<Stmt>, k: nat, isMacro: Span -> bool)
    requires k <= |pre|
    requires forall i :: k <= i < |pre| ==> !IsMacroItem(pre[i], isMacro)
    ensures FirstMacroItem(pre[k..], isMacro) == |pre[k..]|
  {
    forall j | 0 <= j < |pre[k..]| ensures !MacroItemAt(pre[k..], j, isMacro) {
      assert pre[k..][j] == pre[k + j];
    }
  }
}
