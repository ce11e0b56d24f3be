# items_after_statements, modelled in Dafny

A model of clippy's `items_after_statements` lint (`ItemsAfterStatemets::check_block`). The lint
looks at one block's statements in order. It warns on item declarations (`fn`, `struct`, `mod`,
...) that come after ordinary statements, because an item is visible from the start of its scope
whatever its position. The scan has three parts:

1. A block whose own span comes from a macro expansion is skipped.
2. The leading phase (the `while let` loop) pulls statements off the iterator while they are item
   declarations. It stops at the first statement that is not an item: a `let` (the `break`) or a
   non-declaration (the `while let` pattern fails). That statement has been pulled too, so it is
   never looked at again.
3. The flagging phase (the `for` loop) warns on every later item declaration, with one fixed
   message. `let`s and non-declarations are passed over. A macro-generated item ends the whole
   scan, with no warning for it or for anything after it.

Files:

- `ast.dfy` (module `Ast`): spans (byte positions and expansion identifier), declarations
  (`DeclLocal` or `DeclItem(span)`), statements (`StmtDecl(decl)` or `NonDecl`) and blocks,
  plus `ItemSpans`, which lists a statement list's item spans in order.
- `items_after_statements.dfy` (module `ItemsAfterStatements`): the lint. `Lead` is the leading
  phase, `Flag` the flagging phase, and `Check` the whole `check_block` as a pure function.
  `CheckBlock` is a method shaped like the source: `SkipInitialItems` is the `while let` loop,
  and `LintFurtherItems` is the `for` loop with its early `return`. The index is handed from the
  first loop to the second. The method is proved equal to `Check`.
- `properties.dfy` (module `Properties`): the lint's promises about one block, proved of `Check`.

The macro-expansion oracle `in_macro(cx, span)` is the parameter `isMacro: Span -> bool`. The
model does not fix it, so every result holds for any oracle. The diagnostic sink is the returned
sequence of `Diagnostic(span, message)` values, in emission order.

Statement kinds follow the code. In this version of the syntax tree a declaration is either
`DeclLocal` or `DeclItem`, so there is no third "other declaration" kind. Every statement that is
not `StmtDecl` (`StmtExpr`, `StmtSemi`, `StmtMac`) is `NonDecl`. A `NonDecl` ends the leading phase
just as a `let` does: the exempt prefix is the run of items before the first non-item, not the
items before the first `let`.

## Model

| member | source | states |
|---|---|---|
| `ItemsAfterStatements.Lead` | src/items_after_statements.rs:45-51 | The number of statements the leading loop consumes. It is at least 1 for a non-empty block. Every statement before the last consumed one is an item. Either the whole block is consumed, or the last consumed statement is a `let` or a non-declaration. These facts determine the number uniquely. |
| `ItemsAfterStatements.FirstMacroItem` | src/items_after_statements.rs:55-58 | The position where the flagging loop returns early: no statement before it is a macro-generated item, and the statement at it is one (or it is the end of the list). |
| `ItemsAfterStatements.Flag` | src/items_after_statements.rs:53-64 | The flagging loop as a pure function. Its own contract only bounds the number of warnings by the number of item declarations. What it emits is fixed by `Properties.FlagIsItemsBeforeFirstMacroItem` and `Properties.FlagAppend`. |
| `ItemsAfterStatements.Check` | src/items_after_statements.rs:41-65 | The whole `check_block` as a pure function. Its own contract says a macro-generated block gets no warning and there are never more warnings than items. What it emits is fixed by `Properties.CheckReference` and `Properties.CheckInStatementOrder`. |
| `ItemsAfterStatements.CheckBlock` | src/items_after_statements.rs:41-65 | The source's control flow gives exactly the warnings of the pure function `Check`. The block guard comes first, then one index is handed from the `while let` loop to the `for` loop. |
| `ItemsAfterStatements.SkipInitialItems` | src/items_after_statements.rs:45-51 | The `while let` loop pulls exactly `Lead` statements: every leading item, plus the first statement that is not an item. |
| `ItemsAfterStatements.LintFurtherItems` | src/items_after_statements.rs:53-64 | The `for` loop, with its early `return` on a macro-generated item, emits exactly what the flagging phase `Flag` specifies for the remaining statements. |
| `Properties.FlagSound` | src/items_after_statements.rs:53-64 | Each warning from the flagging loop carries the fixed message and is at a hand-written item declaration of the statements scanned. There are at most as many warnings as item declarations. |
| `Properties.CheckSound` | src/items_after_statements.rs:41-65 | A macro-generated block gets no warning. Every warning carries the fixed message, is at a span the oracle calls hand-written, and is the span of an item declaration after the statements consumed by the leading phase. There are never more warnings than item declarations. |
| `Properties.FlagIsItemsBeforeFirstMacroItem` | src/items_after_statements.rs:53-64 | The flagging loop warns on exactly the item declarations before the first macro-generated item, in statement order, one each, with the fixed message. |
| `Properties.FlagAppend` | src/items_after_statements.rs:53-64 | Over two consecutive runs of statements, the flagging loop gives the first run's warnings only, if that run holds a macro-generated item. Otherwise it gives both runs' warnings, one after the other. |
| `Properties.CheckReference` | src/items_after_statements.rs:42-64 | The whole check without the scan: empty for a macro-generated block. Otherwise one warning per item declaration that comes after the leading phase and before the first macro-generated item, in order. |
| `Properties.FlagEmitsItemPrefix` | src/items_after_statements.rs:53-64 | The flagging loop's warnings are, in order, the first item spans of the statements it scans, one per item. |
| `Properties.CheckInStatementOrder` | src/items_after_statements.rs:45-64 | The warned spans are a contiguous, in-order run of the block's item spans. The run starts just after the items the leading phase consumed. So leading items are never warned on, no item gets two warnings, and the count never exceeds the number of items. |
| `Properties.AllItemsBlockSilent` | src/items_after_statements.rs:46-51 | A block made only of item declarations gets no warning. |
| `Properties.NoItemsSilent` | src/items_after_statements.rs:53-64 | A block with no item declaration gets no warning. |
| `Properties.LeadEndsAtFirstNonItem` | src/items_after_statements.rs:47-50 | Behind a run of items, the first non-item ends the leading phase and is consumed with it. The non-item may be a `let` or a non-declaration. |
| `Properties.LeadIsUnique` | src/items_after_statements.rs:45-51 | Any count that meets `Lead`'s description equals `Lead`: the description of the leading loop determines where it stops. |
| `Properties.LeadOfExtension` | src/items_after_statements.rs:47-51 | Once a non-item has occurred, statements appended later do not move the end of the leading phase. |
| `Properties.CheckOfExtension` | src/items_after_statements.rs:45-64 | Once the leading phase has ended inside a prefix, the check of a longer block is the flagging loop over the prefix's remainder, then over the appended statements, unless the remainder holds a macro item. |
| `Properties.ItemAfterTerminatorFlagged` | src/items_after_statements.rs:47-61 | A hand-written item right after the statement that ends the leading phase gets one warning, placed ahead of the others. This holds whether that statement is a `let` or an expression. |
| `Properties.DocExampleWarns` | src/items_after_statements.rs:22-28 | The documented example (a call, `fn foo`, a call) gets exactly one warning, at `fn foo`. |
| `Properties.NonItemAfterLeadIsNoOp` | src/items_after_statements.rs:53-55 | After the leading phase, a `let` or a non-declaration emits nothing and does not stop the scan: removing it changes no warning. |
| `Properties.MacroItemSilencesRest` | src/items_after_statements.rs:55-58 | After the leading phase, a macro-generated item ends the scan. Nothing is emitted for it or anything after it, so the warnings are those of the statements before it. |
| `Properties.ItemAfterLeadFlaggedOnce` | src/items_after_statements.rs:53-61 | After the leading phase, and with no macro-generated item between the end of the leading phase and it, a hand-written item gets exactly one warning. Macro-generated items inside the leading run do not matter, because the leading loop never asks the oracle. It sits between the warnings of the statements before it and those of the statements after it. |

## Left out

- Lint registration (`declare_lint!`, `LintPass::get_lints`, `lint_array!`, lines 30-38): the host
  framework's registration boilerplate, with no logic of its own.
- `EarlyContext` and the body of `utils::in_macro`: `utils` is not part of this model, so the
  oracle is an arbitrary function parameter.
- The rendering and emission of `struct_span_lint(...).emit()`, and the lint identifier it is
  passed. A warning is modelled as a (span, message) value appended to the result.
- Parsing, syntax-tree construction and the traversal that calls `check_block` once per block.
  Each call is independent, so nothing across blocks is modelled.
- Spans are reduced to two byte positions and an expansion identifier. The lint only compares
  them and hands them on, and the oracle is free to judge macro origin from any of the three.
