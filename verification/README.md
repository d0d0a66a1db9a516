# Verified model of the Kconfig engine and of mkpimage

A Dafny model of two parts of Buildroot:

* the Kconfig engine under `buildroot/support/kconfig`: a small compiler and
  evaluator for a logic of three values (n < m < y) over symbols, with its
  expression optimiser (`expr.c`), the restructuring of the menu tree
  (`menu.c`), the lazily memoised evaluation of symbols and choices
  (`symbol.c`), and the reader and writer of configuration files
  (`confdata.c`);
* the boot image packer `buildroot/package/mkpimage/mkpimage.c`: a table-driven
  CRC-32, ARM branch instructions and a header with a checksum.

Check it with `dafny verify dfyconfig.toml` (Dafny 4.11).

## How the model is built

What the C code does in place is modelled in place. Expressions are nodes whose
type and operands are overwritten (`ExprNodes`), reached through pointers into
the tree that may alias (`ExprSlots`, `ExprOptimizer`); menu entries are linked
nodes that are relinked (`MenuTree`, `MenuFinalize`); symbols and choices are
objects with cached results and flags (`SymbolEval`, `ChoiceEval`,
`CheckDeps`); texts and images are buffers (`Escape`, `Mkpimage`, `Crc`). Every
such method is proved equal to a function on plain values, and the theorems
about meaning are lemmas about these functions:

| in place | on values | meaning |
|---|---|---|
| `ExprNodes`, `ExprSlots`, `ExprOptimizer` | `Transforms`, `EliminateEqs`, `Spines`, `Joins`, `EliminateDups` | value of an expression (`Exprs`) |
| `SubmenuTest` | `Submenus` | implication between conditions, and its limits (`SubmenuLimits`) |
| `MenuTree`, `MenuFinalize` | `MenuSpec`, `MenuInheritance`, `MenuClaims`, `MenuValues` | `MenuConditions`, `MenuEffects`, `MenuRequests` |
| `SymbolEval` | `SymbolSpec` | recursive definition of the values |
| `ChoiceEval` | `Choices` | exclusivity (`ChoiceConditions`) |
| `CheckDeps` | paths in the graph of dependencies | existence of a cycle |
| `Escape`, `ConfigFile` | `ConfigText`, `NumberTexts`, `Defconfig`, `ConfReads` | `DefconfigSpec` |
| `Crc`, `Mkpimage` | `CrcTable`, `CrcDivision` | `Polynomials`, `BootImage`, `ShortImages` |

*Well-formed assignments* (`Exprs.WfEnv`) are those the evaluator produces:
bools are never m, and nothing is m without modules. *Well-formed expressions*
(`Exprs.WfExpr`) compare no symbols of type S_OTHER, and compare a bool or
tristate only with a symbol, or y, m or n, or another constant that does not
read as a number; strings and numbers are compared with anything.

## What the proofs found

These hold of the code as it is; each is proved with the exact condition.

* Setting a tristate again to the value it has skips the invalidation of the
  caches; with modules the cached value can then be wrong
  (`SymbolSpec.SameValueSet`, `SymbolSpec.SameValueSetCanFail`).
* A minimal configuration saved with modules need not load to the same values
  (`Defconfig.SaveThenLoad`, `Defconfig.SaveThenLoadCanFail`); nor does one
  whose active range is empty, or starts below zero for a hexadecimal number.
  Even without modules a symbol loses its user value, unless that is the default,
  if it has both a prompt and option env, or is a text that is selected
  (`Defconfig.SaveThenLoadWithoutModules`, `Defconfig.EnvironmentIsLost`,
  `Defconfig.SelectedStringIsLost`); the first is accepted silently, the second
  with a warning.
* What the file keeps conf_read can still drop: a hexadecimal number clamped to
  a negative bound is read back as the largest number, and rejected
  (`ConfReads.SaveThenConfRead`, `ConfReads.OneIsDropped`).
* Recursive dependencies are printed but not counted as errors: every call of
  sym_check_deps from outside returns NULL
  (`CheckDeps.DependencyChecker.CheckAll`).
* A select by a bool can be weaker than what is written, m instead of y
  (`MenuRequests.RequestsAreMeant`, `MenuRequests.BoolSelectsLess`).
* An entry does not always depend on the minimum of the conditions around it: a
  value of a tristate choice that is no tristate is n unless the choice is y
  (`MenuConditions.PlainMinimumIff`, `MenuConditions.WrittenMinimumIff`,
  `MenuConditions.PlainMinimumFails`).
* The test for automatic submenus is unsound for conditions with undefined or
  text symbols, which read n while their text is not "n": it puts an entry that
  can be y under one that is n (`SubmenuLimits.SubmenuFails`). The bounds that
  it rests on hold for all conditions over some symbols exactly if each is a
  bool, a tristate, y, m or n, or undefined and named n
  (`SubmenuLimits.AlwaysBracketedIff`).
* Evaluating a choice can clear its user value, and evaluating it once more
  then resets it (`Choices.EvaluatingAgain`).
* A choice that lost its y because no value is visible can be set to n, the
  value it shows, without being evaluated again, although it would be m
  (`Choices.SameChoiceSet`).
* For a version 1 image without barebox header, inputs of 80 to 84 bytes are
  accepted although there is no room for both trampoline and CRC: with 80 bytes
  the trampoline does not fit and the CRC overwrites the checksum of the header;
  with 81 to 84 the CRC overwrites the trampoline
  (`ShortImages.ShortImageFails`); from 85 bytes on the padding leaves room
  (`BootImage.PaddingSuffices`). The header stores the length of a version 0
  image modulo 256 KiB, which the limit on its size keeps exact.

Where comments and code disagree the model follows the code. The comment above
`expr_eq` calls two AND or OR expressions equal if every operand of one equals
some operand of the other; the code removes operands in pairs, so A && A && B
is not equal to A && B. The comment above `expr_transform` says that it returns
a new expression; the code rewrites its argument. The comment above
`sym_get_string_default` speaks of modules=n only; bools are promoted too, and
ranges are ignored.

## Model

| member | source | states |
|---|---|---|
| `Exprs.CompareTri` | buildroot/support/kconfig/expr.c:1064-1103 | comparing a bool or tristate for (in)equality with y, m, n or a well-formed constant is the comparison of the tristates, although the code compares texts and numbers |
| `Exprs.NegatedCompare` | buildroot/support/kconfig/expr.c:762-784 | negating a relation in place of a comparison gives exactly the opposite truth value, also for texts that cannot be ordered, as long as no operand is S_OTHER |
| `Exprs.ConstantOneEqualsMod` | buildroot/support/kconfig/expr.c:1000-1005 | why the constants are limited: a tristate that is m compares equal to the constant 1 |
| `Transforms.DeMorganWeight` | buildroot/support/kconfig/expr.c:786-803 | the measure under which a De Morgan step goes down although the tree grows |
| `Transforms.TransformKeepsValue` | buildroot/support/kconfig/expr.c:686-841 | expr_transform keeps the value of every expression under every well-formed assignment |
| `Transforms.TransformIsNormal` | buildroot/support/kconfig/expr.c:686-841 | its result is a normal form: negations stand only over non-constant symbols, no bool is compared with y, m or n, and no comparison is negated |
| `Transforms.NormalIffFixed` | buildroot/support/kconfig/expr.c:686-841 | the normal forms are exactly the expressions that expr_transform leaves alone |
| `Transforms.TransformIdempotent` | buildroot/support/kconfig/expr.c:686-841 | transforming twice is transforming once |
| `Transforms.TransformWf` | buildroot/support/kconfig/expr.c:686-841 | it stays inside the well-formed expressions, so it can be followed by the other rewrites |
| `ExprNodes.TransformInPlace` | buildroot/support/kconfig/expr.c:686-841 | the in-place rewriting of the node tree yields a proper tree (no node shared, only old or new nodes) whose view is the transformed view |
| `EliminateEqs.EliminateYnKeepsValue` | buildroot/support/kconfig/expr.c:308-389 | folding y and n away keeps the value under every assignment |
| `EliminateEqs.EliminateYnFolds` | buildroot/support/kconfig/expr.c:308-389 | nothing that could be folded is left, and a tree in which something could be folded gets strictly smaller |
| `ExprNodes.EliminateYnInPlace` | buildroot/support/kconfig/expr.c:308-389 | the copying of a node over its parent computes exactly that, inside the nodes of the tree |
| `EliminateEqs.ExprEqSound` | buildroot/support/kconfig/expr.c:251-295 | what expr_eq calls equal has the same value under every assignment, through the mutual recursion with __expr_eliminate_eq |
| `EliminateEqs.EliminateEq1Factors` | buildroot/support/kconfig/expr.c:149-189 | what __expr_eliminate_eq removes from both expressions is one common factor c: both values are what is left, joined with the same c |
| `EliminateEqs.EliminateEqResidual` | buildroot/support/kconfig/expr.c:220-240 | if nothing but y is left of the second expression, the first is at most the second in every assignment |
| `ExprOptimizer.Optimizer.Eq` | buildroot/support/kconfig/expr.c:251-295 | on nodes: decides the same relation, works on copies and leaves both trees and trans_count as they were |
| `ExprOptimizer.Optimizer.EliminateEqIn` | buildroot/support/kconfig/expr.c:220-240 | on nodes: both trees stay proper and disjoint, and their views are the eliminated views |
| `ExprOptimizer.Optimizer.EliminateEq1In` | buildroot/support/kconfig/expr.c:149-189 | on nodes: the same for the walk over two trees through pointers to their operands |
| `Joins.JoinKeepsValue` | buildroot/support/kconfig/expr.c:423-575 | every rule of expr_join_or and expr_join_and gives an expression whose value is that of the two operands joined, under every well-formed assignment |
| `Joins.JoinShape` | buildroot/support/kconfig/expr.c:423-575 | a join is the first operand, or a new symbol or comparison, and stays well-formed |
| `ExprOptimizer.Optimizer.JoinOrNew` | buildroot/support/kconfig/expr.c:423-485 | on nodes: builds the joined expression, or NULL, from fresh nodes |
| `ExprOptimizer.Optimizer.JoinAndNew` | buildroot/support/kconfig/expr.c:487-575 | on nodes: the same for AND |
| `EliminateDups.Dups1KeepsValue` | buildroot/support/kconfig/expr.c:588-643 | one walk of a tree against itself keeps the value of the whole tree, wherever its two positions are |
| `EliminateDups.Dups1Shrinks` | buildroot/support/kconfig/expr.c:588-643 | a walk that joins something leaves a foldable constant; one that joins nothing leaves the tree alone |
| `EliminateDups.PassShrinks` | buildroot/support/kconfig/expr.c:656-678 | a pass that counts a join makes the tree strictly smaller once it is folded: the loop terminates |
| `EliminateDups.EliminateDupsKeepsValue` | buildroot/support/kconfig/expr.c:656-678 | expr_eliminate_dups keeps the value of every well-formed expression under every well-formed assignment |
| `EliminateDups.EliminateDupsIsFixed` | buildroot/support/kconfig/expr.c:656-678 | no operand of the result can be joined any more |
| `DupsNormalForm.EliminateDupsKeepsNnf` | buildroot/support/kconfig/expr.c:656-678 | it keeps negation normal form, as expr_trans_bool needs it |
| `ExprOptimizer.Optimizer.Dups1At` | buildroot/support/kconfig/expr.c:588-643 | the walk with two aliased struct expr ** into one tree computes exactly the walk on values, whichever nodes the two pointers meet in |
| `ExprOptimizer.Optimizer.EliminateDupsIn` | buildroot/support/kconfig/expr.c:656-678 | on nodes: the loop over the global trans_count ends in a proper tree whose view is the deduplicated view, and restores trans_count |
| `ExprSlots.Replaced` | buildroot/support/kconfig/expr.c:623-635 | storing a tree through a pointer into the spine changes the view at that place only |
| `ExprSlots.LeavesApart` | buildroot/support/kconfig/expr.c:609-610 | two different positions in the tree are different pointers, so e1 == e2 is detected by pointer comparison |
| `ExprNodes.Copy` | buildroot/support/kconfig/expr.c:65-104 | a copy has the same view and no node in common with the original |
| `Submenus.ContainsSymbolSound` | buildroot/support/kconfig/expr.c:843-869 | an expression that does not contain a symbol does not depend on its value |
| `Submenus.DependsSymbolSound` | buildroot/support/kconfig/expr.c:871-898 | an expression that depends on a symbol is n whenever the symbol is n |
| `Submenus.TransCompareSandwich` | buildroot/support/kconfig/expr.c:914-977 | the comparison of any expression with n is two-valued; it has e != n as an upper and e = y as a lower bound (for the equality: e = n and e != y), as far as the symbols standing alone on that side read n as the text n, which bools and tristates always do |
| `Submenus.TransCompareExact` | buildroot/support/kconfig/expr.c:914-977 | it is exact where moreover no symbol standing alone is m |
| `Submenus.TransCompareInexact` | buildroot/support/kconfig/expr.c:945-946 | it is not exact in general: !A with A = m |
| `SubmenuLimits.BracketedIff` | buildroot/support/kconfig/expr.c:914-977 | in one assignment, all expressions over a set of symbols lie between those bounds if and only if none of the symbols reads n under another text |
| `SubmenuLimits.SafeLeafIff` | buildroot/support/kconfig/expr.c:969-970 | a symbol never reads n under another text if and only if it is a bool, a tristate, y, m or n, or an undefined symbol of the name n |
| `SubmenuLimits.AlwaysBracketedIff` | buildroot/support/kconfig/expr.c:914-977 | both together: in all well-formed assignments all expressions over a set of symbols lie between the bounds if and only if all the symbols are of those kinds |
| `SubmenuLimits.SubmenuFails` | buildroot/support/kconfig/menu.c:448-483 | the submenu test accepts (SYM || Q) && U != n below the condition U; where the symbol U reads n under another text the entry can be y while its parent is n |
| `SubmenuLimits.SubmenuUnsound` | buildroot/support/kconfig/menu.c:448-483 | so for every symbol of another kind there is an entry that the test puts under a condition on it, and an assignment in which the entry is y and the condition n |
| `ExprNodes.TransCompareNew` | buildroot/support/kconfig/expr.c:914-977 | on nodes: a new tree with that view; the argument is left alone |
| `Submenus.TransBoolKeepsVisibility` | buildroot/support/kconfig/expr.c:394-418 | on negation normal forms expr_trans_bool may lower y to m but never changes whether the value is n |
| `Submenus.TransBoolNeedsNormal` | buildroot/support/kconfig/expr.c:394-418 | under a negation it does change that, which is why the normal form is needed |
| `ExprNodes.TransBoolInPlace` | buildroot/support/kconfig/expr.c:394-418 | on nodes: the same rewriting in place |
| `Submenus.SubmenuSound` | buildroot/support/kconfig/menu.c:448-483 | the submenu test is sound end to end, for every parent symbol and all conditions: an entry that depends on a bool or tristate is n where this is n; any other entry that is y has a parent that is not n, and where no symbol is m every entry that is not n has, if what stands alone under negations in the entry and outside them in the parent reads n as the text n |
| `SubmenuTest.Examine` | buildroot/support/kconfig/menu.c:455-483 | the test as the code runs it, on copies of the two conditions, decides exactly that relation and leaves both conditions alone |
| `SubmenuTest.Contains` | buildroot/support/kconfig/expr.c:843-869 | decides on nodes whether the symbol occurs |
| `SubmenuTest.Depends` | buildroot/support/kconfig/expr.c:871-898 | decides on nodes whether the symbol is a conjunct |
| `SymbolSpec.SolutionIsSpec` | buildroot/support/kconfig/symbol.c:357-498 | there is exactly one assignment of results that solves the equations of an acyclic set of symbols: the recursive definition |
| `SymbolSpec.SpecIsSolution` | buildroot/support/kconfig/symbol.c:357-498 | and the recursive definition does solve them |
| `SymbolSpec.RankIrrelevant` | buildroot/support/kconfig/symbol.c:357-498 | the values do not depend on the order in which the symbols are ranked |
| `SymbolSpec.EnvIsWellFormed` | buildroot/support/kconfig/symbol.c:475-478 | every state of the evaluator is a well-formed assignment: bools are never m, and nothing is m without modules |
| `SymbolSpec.SpecNeverMod` | buildroot/support/kconfig/symbol.c:475-478 | a symbol that behaves as a bool is never m |
| `SymbolSpec.UserReachesOnlyUp` | buildroot/support/kconfig/symbol.c:357-498 | a user value cannot influence a symbol that does not come after its own |
| `SymbolSpec.SetThenGet` | buildroot/support/kconfig/symbol.c:511-566 | a value that sym_tristate_within_range accepts is exactly what the symbol has afterwards, despite select, imply, visibility and promotion |
| `SymbolSpec.SameValueSet` | buildroot/support/kconfig/symbol.c:532-566 | recording the value a symbol has already keeps all values exactly under KeepsValue, a condition on the last results; this is when the cache may be kept |
| `SymbolSpec.KeepsValueWithoutModules` | buildroot/support/kconfig/symbol.c:532-566 | without modules that condition always holds |
| `SymbolSpec.SafeWithoutModules` | buildroot/support/kconfig/symbol.c:532-566 | so without modules it holds at every request of every run |
| `SymbolSpec.SameValueSetCanFail` | buildroot/support/kconfig/symbol.c:562-563 | with modules it can fail: a concrete symbol whose cached value becomes wrong |
| `SymbolEval.Evaluator.constructor` | buildroot/support/kconfig/symbol.c:357-363 | a freshly read set of symbols is a coherent cache |
| `SymbolEval.Evaluator.CalcExpr` | buildroot/support/kconfig/expr.c:1026-1104 | evaluating an expression evaluates the symbols it needs and returns the value it has in the recursive definition |
| `SymbolEval.Evaluator.CalcValue` | buildroot/support/kconfig/symbol.c:357-498 | sym_calc_value leaves every symbol flagged SYMBOL_VALID with the value of the recursive definition, also when entered recursively |
| `SymbolEval.Evaluator.CalcVisibility` | buildroot/support/kconfig/symbol.c:209-270 | sym_calc_visibility computes visibility, direct, reverse and implied dependency |
| `SymbolEval.Evaluator.CalcTri` | buildroot/support/kconfig/symbol.c:415-478 | the value of a bool or tristate: user value, default, imply and select, in this order of precedence |
| `SymbolEval.Evaluator.CalcText` | buildroot/support/kconfig/symbol.c:399-408 | the value of a text or number: user value or default |
| `SymbolEval.Evaluator.ValidateRange` | buildroot/support/kconfig/symbol.c:155-187 | a number outside the active range becomes the bound it violates |
| `SymbolEval.Evaluator.ClearAllValid` | buildroot/support/kconfig/symbol.c:500-509 | nothing is valid afterwards; values and user values stay |
| `SymbolEval.Evaluator.SetTristate` | buildroot/support/kconfig/symbol.c:532-566 | it accepts what the stored value and visibility allow, which on an evaluated symbol is exactly what the definition says; records the user value; and leaves the cache coherent if and only if it invalidated it or KeepsValue held |
| `SymbolEval.Evaluator.Run` | buildroot/support/kconfig/symbol.c:357-566 | refinement over every run: whatever is read and set in whatever order, every text read, of whatever type of symbol, is the one a machine without cache computes; with modules, as long as every setting of a value to itself meets KeepsValue; without modules, always |
| `Choices.MembersFollow` | buildroot/support/kconfig/symbol.c:220-235 | in a choice that is n no value is visible; in one that is y a value is visible as y or not at all |
| `Choices.ExactlyOne` | buildroot/support/kconfig/symbol.c:304-334 | exclusivity: in a choice that is y exactly the chosen value is y; in a choice that is n all values are n |
| `Choices.DefaultFrom` | buildroot/support/kconfig/symbol.c:284-292 | the default is the first one whose condition holds and whose value is visible |
| `Choices.FirstVisible` | buildroot/support/kconfig/symbol.c:294-301 | otherwise the first visible value |
| `Choices.SetChoiceThenGet` | buildroot/support/kconfig/symbol.c:511-566 | an accepted value of the choice is what it has afterwards, exactly unless it is y and no value is visible |
| `Choices.SetMemberThenGet` | buildroot/support/kconfig/symbol.c:532-566 | setting a visible value to y makes it the only y, and the choice keeps its user value when it is evaluated, if all visible values then have one |
| `Choices.RequestedMemberValue` | buildroot/support/kconfig/symbol.c:511-566 | an accepted value of a choice value is what it has afterwards, exactly unless it is y and the choice will not be y or will not show it |
| `Choices.SameChoiceSet` | buildroot/support/kconfig/symbol.c:562-563 | setting a choice to the value it has keeps the cache right, exactly unless it is n only because no value is visible and rev_dep is m |
| `Choices.SameMemberSet` | buildroot/support/kconfig/symbol.c:562-563 | setting a choice value to what it is always keeps the cache right |
| `Choices.EvaluatingAgain` | buildroot/support/kconfig/symbol.c:311-320 | clearing SYMBOL_DEF_USER of the choice: evaluating again gives the same value if and only if all visible values have user values or rev_dep alone makes the choice y |
| `Choices.EvaluatingAgainCanReset` | buildroot/support/kconfig/symbol.c:320-320 | a concrete optional choice that falls from y to n when it is evaluated again |
| `ChoiceEval.Choice.CalcValue` | buildroot/support/kconfig/symbol.c:357-498 | sym_calc_value on a choice, through its values and back: its whole new state, and that of the visibilities it computes |
| `ChoiceEval.Choice.CalcVisibility` | buildroot/support/kconfig/symbol.c:209-235 | sym_calc_visibility on a value, which evaluates the choice through its prompts |
| `ChoiceEval.Choice.ChoiceDefault` | buildroot/support/kconfig/symbol.c:278-302 | finds the value that the definition calls the default |
| `ChoiceEval.Choice.CalcChoice` | buildroot/support/kconfig/symbol.c:304-334 | the value chosen, the reset to n without one, and the user flag that is left |
| `ChoiceEval.Choice.CalcChoiceValue` | buildroot/support/kconfig/symbol.c:357-498 | keeps every value flagged valid right |
| `ChoiceEval.Choice.CalcMember` | buildroot/support/kconfig/symbol.c:357-498 | sym_calc_value on a value: it and everything else flagged valid has its defined value |
| `ChoiceEval.Choice.OneIsYes` | buildroot/support/kconfig/symbol.c:304-334 | in every state the methods lead to, once all is evaluated, a choice that is y has exactly one value that is y |
| `ChoiceEval.Choice.SetIsKept` | buildroot/support/kconfig/symbol.c:311-330 | after a visible value of an evaluated choice that is y has been set to y, which gives all visible values a user value, evaluating the choice gives that value and keeps SYMBOL_DEF_USER: the set is not forgotten |
| `ChoiceEval.Choice.SetMember` | buildroot/support/kconfig/symbol.c:532-566 | sym_set_tristate_value on a choice value: acceptance, all user values afterwards, the visible values all having one where SetIsKept needs it, and the cache stays right |
| `ChoiceEval.Choice.SetChoice` | buildroot/support/kconfig/symbol.c:532-566 | sym_set_tristate_value on the choice: the same; on an evaluated choice the cache stays right exactly under the condition of SameChoiceSet |
| `ChoiceConditions.PromptIsUnder` | buildroot/support/kconfig/menu.c:328-398 | what an entry of a choice inherits, through whatever ifs inside the choice, bounds the value of its prompt by the choice |
| `ChoiceConditions.FinalizedChoice` | buildroot/support/kconfig/menu.c:328-398 | so the assumption of the theorems on choices holds of every choice whose values have the prompts that menu_finalize makes, each of them any number, with or without the condition that the choice is y |
| `ChoiceConditions.FinalizedChoiceHasOneYes` | buildroot/support/kconfig/symbol.c:304-334 | exclusivity from the conditions as they are written: in a choice that is y some value is y and no two values are not n |
| `CheckDeps.OrderedMeansAcyclic` | buildroot/support/kconfig/symbol.c:1312-1344 | if all symbols can be listed after what they depend on, there is no cycle |
| `CheckDeps.DependencyChecker.PrintRecursive` | buildroot/support/kconfig/symbol.c:1128-1204 | what is printed is a cycle of the graph |
| `CheckDeps.DependencyChecker.CheckExpr` | buildroot/support/kconfig/symbol.c:1206-1238 | follows every symbol of an expression unless something has been reported |
| `CheckDeps.DependencyChecker.CheckDeps` | buildroot/support/kconfig/symbol.c:1312-1344 | one check keeps the flags and the stack consistent; without a report the symbol and all it needs are done; a symbol that is returned is still on the stack |
| `CheckDeps.DependencyChecker.CheckSymDeps` | buildroot/support/kconfig/symbol.c:1241-1273 | follows exactly rev_dep, the conditions of all properties but selects, and the values of defaults |
| `CheckDeps.DependencyChecker.CheckAll` | buildroot/support/kconfig/zconf.y:554-557 | the sweep over all symbols reports something if and only if the graph has a cycle, and reports only cycles; it never counts an error, because every call from outside returns NULL |
| `MenuTree.Next` | buildroot/support/kconfig/confdata.c:722-734 | one step of the stackless walk leads to the next node in preorder |
| `MenuTree.OnePlace` | buildroot/support/kconfig/confdata.c:722-734 | the links determine what is below, beside and above a node |
| `MenuTree.NoRepeats` | buildroot/support/kconfig/confdata.c:722-734 | no node comes twice |
| `MenuTree.Walk` | buildroot/support/kconfig/confdata.c:792-825 | the whole walk terminates and visits exactly the descendants of the root, each once, in preorder |
| `MenuConditions.RewriteMValue` | buildroot/support/kconfig/menu.c:81-104 | rewrite_m makes a bare m read as m && MODULES, and changes nothing else |
| `MenuConditions.UnderIsMinimum` | buildroot/support/kconfig/menu.c:348-352 | a dependency put under another has the minimum of the two values, and stays a normal form |
| `MenuConditions.PropCondIsMinimum` | buildroot/support/kconfig/menu.c:392-398 | so has the condition of a property, except that y may become m where the symbol is no tristate |
| `MenuConditions.InheritedIsMeant` | buildroot/support/kconfig/menu.c:334-398 | what the entries inherit is the minimum of their own and all enclosing conditions up to the closest choice |
| `MenuConditions.StrictMeans` | buildroot/support/kconfig/menu.c:524-533 | the conjunct added to a condition limits it to where the choice is y |
| `MenuConditions.MadeMeans` | buildroot/support/kconfig/menu.c:517-533 | whatever becomes of an entry in the last loop, its dependency, its prompt and all its properties keep their values or are all limited to where the choice is y |
| `MenuConditions.DependenciesAreMeant` | buildroot/support/kconfig/menu.c:296-577 | after menu_finalize every entry, wherever it has been moved, depends on that minimum, and where it is a value of a tristate choice but no tristate, also on the choice being y |
| `MenuConditions.PlainMinimumIff` | buildroot/support/kconfig/menu.c:517-533 | the plain minimum is still the value, if and only if it is not such an entry with a choice that is not y and a minimum that is not n |
| `MenuConditions.WrittenMinimumIff` | buildroot/support/kconfig/menu.c:517-533 | the same from the file: for the only entry of its symbol, standing directly in a choice, the plain minimum is still the value if and only if the choice is no tristate or y, or the entry a tristate, or the minimum n |
| `MenuConditions.PlainMinimumFails` | buildroot/support/kconfig/menu.c:517-533 | a concrete menu in which it is not: a bool in a tristate choice that is m |
| `MenuConditions.SubmenuIsMaximal` | buildroot/support/kconfig/menu.c:452-494 | an automatic submenu takes all consecutive entries that belong to the symbol, and no others |
| `MenuSpec.FlattenKeepsPreorder` | buildroot/support/kconfig/menu.c:567-576 | flattening keeps the order of all nodes |
| `MenuSpec.FinalizeKeepsPreorder` | buildroot/support/kconfig/menu.c:296-577 | the whole restructuring keeps the order of all nodes |
| `MenuSpec.LogIsPreorder` | buildroot/support/kconfig/menu.c:423-488 | menu_finalize is called exactly once on every node that ends up in the subtree, parents first |
| `MenuSpec.FinalizeTidies` | buildroot/support/kconfig/menu.c:539-576 | no node below the finalized one has children but no prompt text |
| `MenuInheritance.FinalizeInherits` | buildroot/support/kconfig/menu.c:334-398 | the conditions of every node are those inherited from its original parent, although siblings are taken and moved, or those with what becoming a value of a choice adds |
| `MenuClaims.FinalizePlaces` | buildroot/support/kconfig/menu.c:499-537 | the symbol of every entry that ends up in a choice is a value of a choice, and an entry by which it has become one is in that choice, also if it was moved out of an if |
| `MenuClaims.FinalizeOnce` | buildroot/support/kconfig/menu.c:499-537 | no symbol becomes a value of a choice twice |
| `MenuValues.WrittenValue` | buildroot/support/kconfig/menu.c:499-537 | from the file: the only entry of its symbol that stands directly in a choice, anywhere in the tree, and belongs to no entry before it there, is a value of this choice afterwards |
| `MenuValues.FirstStays` | buildroot/support/kconfig/menu.c:452-483 | the first entry of a choice belongs to no entry before it |
| `MenuEffects.FinalizeAsks` | buildroot/support/kconfig/menu.c:401-413 | whatever the tree, exactly the selects and implies of the entries, under the conditions they inherit, are added to rev_dep and implied, none of them lost |
| `MenuEffects.WhenSetMeans` | buildroot/support/kconfig/menu.c:401-413 | each under the minimum of the selecting symbol and the condition of its property |
| `MenuEffects.DepIsMaximum` | buildroot/support/kconfig/menu.c:401-413 | the disjunction built step by step is the maximum of what has been added |
| `MenuEffects.SelectsAreMeant` | buildroot/support/kconfig/menu.c:296-577 | after menu_finalize rev_dep of every symbol is the maximum, over all entries that select it, of the minimum of the entry and the condition of the select (and m for a mandatory choice); implied likewise |
| `MenuRequests.RequestsAreMeant` | buildroot/support/kconfig/menu.c:296-577 | in terms of the conditions of the file: rev_dep (or implied) is n if and only if the maximum of the minima of selecting symbol, select condition, dependency and all enclosing conditions is n, is never more, and is that maximum if only tristates select |
| `MenuRequests.BoolSelectsLess` | buildroot/support/kconfig/menu.c:392-408 | it can be less: a bool that selects if M != n selects only to m where M is m |
| `MenuFinalize.MenuFinalizer.MarkEntry` | buildroot/support/kconfig/menu.c:499-537 | one turn of the last loop at an entry of a choice: the entry on the nodes, its properties in place, and what it adds to the choice |
| `MenuFinalize.MenuFinalizer.PropagateLoop` | buildroot/support/kconfig/menu.c:343-414 | the first loop on the linked nodes: conditions of the entries and their properties, and what is added to rev_dep and implied |
| `MenuFinalize.MenuFinalizer.Splice` | buildroot/support/kconfig/menu.c:567-576 | moving the children of a node behind it by relinking leaves a consistent list with correct parents |
| `MenuFinalize.MenuFinalizer.FlattenLoop` | buildroot/support/kconfig/menu.c:498-577 | the last loop on the linked nodes, which also visits the nodes it has just moved up, and makes all of them values of the choice |
| `MenuFinalize.MenuFinalizer.TakeFollowing` | buildroot/support/kconfig/menu.c:452-494 | automatic submenus by relinking: the nodes taken, and the nodes left, form consistent lists |
| `MenuFinalize.MenuFinalizer.Finalize` | buildroot/support/kconfig/menu.c:296-577 | menu_finalize on linked nodes refines the function on forests; it terminates on the size of the node and its later siblings |
| `MenuFinalize.MenuFinalizer.FinalizeRoot` | buildroot/support/kconfig/menu.c:296-577 | on the root: same preorder, every link and parent consistent, every node finalized exactly once, no node but the root with children and no prompt text, conditions as inherited with what values of choices add, these values where they belong and claimed once |
| `Escape.RoundTrip` | buildroot/support/kconfig/symbol.c:962-1003 | every string survives escaping and unescaping, whatever follows the closing quote |
| `Escape.EscapedInjective` | buildroot/support/kconfig/symbol.c:962-1003 | different strings are written differently |
| `Escape.CountEscaped` | buildroot/support/kconfig/symbol.c:969-981 | the first pass counts exactly the length of the buffer |
| `Escape.EscapeStringValue` | buildroot/support/kconfig/symbol.c:962-1003 | the second pass fills exactly that buffer with the quoted string and its NUL |
| `Escape.UnescapeInPlace` | buildroot/support/kconfig/confdata.c:163-174 | the strpbrk/memmove loop leaves the unescaped string in place, and fails exactly if there is no closing quote |
| `NumberTexts.NumberRoundTrip` | buildroot/support/kconfig/symbol.c:182-186 | a number written by sym_validate_range is valid and is read back, except that a negative hexadecimal number comes back as the maximum |
| `NumberTexts.PrintInjective` | buildroot/support/kconfig/symbol.c:182-186 | different numbers are written differently |
| `NumberTexts.ValidIsPrintable` | buildroot/support/kconfig/symbol.c:591-632 | a valid number holds no line end and no NUL |
| `DefconfigSpec.DefaultIsUnsetValue` | buildroot/support/kconfig/symbol.c:732-801 | sym_get_string_default is the value the symbol has without user value, except that it ignores the range |
| `DefconfigSpec.TriSurvives` | buildroot/support/kconfig/confdata.c:689-698 | a bool or tristate survives writing and reading if and only if it is neither selected as m, visible as m and y by default, nor set to another value than its default although option env keeps it from being written |
| `DefconfigSpec.TriSurvivesWithoutModules` | buildroot/support/kconfig/confdata.c:689-698 | without modules the first of these does not happen |
| `DefconfigSpec.ClampTwice` | buildroot/support/kconfig/symbol.c:155-187 | checking the range twice gives the same exactly unless the bound is read back beyond the other one |
| `DefconfigSpec.TextSurvives` | buildroot/support/kconfig/confdata.c:689-698 | a text or number survives if and only if the range gives the same twice, and no user value other than the default is kept from being written because the symbol is selected or has option env |
| `DefconfigSpec.Survives` | buildroot/support/kconfig/confdata.c:689-698 | any symbol, whatever its declaration, survives if and only if its value is not one of those |
| `ConfigText.ParseAssign` | buildroot/support/kconfig/confdata.c:347-372 | a written setting is parsed back to its name and text, with LF and with CR LF |
| `ConfigText.ParseIsNotSet` | buildroot/support/kconfig/confdata.c:315-346 | so is a line of a symbol that is not set |
| `ConfigText.LineRoundTrip` | buildroot/support/kconfig/confdata.c:487-507 | the line written for a symbol, read back, gives its value to this symbol and to no other |
| `ConfigText.ApplyNamed` | buildroot/support/kconfig/confdata.c:358-372 | a line changes the user value of the symbol it names and of no other |
| `Defconfig.LoadSaved` | buildroot/support/kconfig/confdata.c:667-738 | after writing and reading every symbol has the user value of its line, or none |
| `Defconfig.SaveThenLoad` | buildroot/support/kconfig/confdata.c:667-738 | saving the minimal configuration and loading it gives every symbol the same value if and only if no symbol holds one of the values that get lost |
| `Defconfig.QuotedDefault` | buildroot/support/kconfig/symbol.c:399-408 | a string that is not set gets the text of its quoted default |
| `Defconfig.QuotedTextsSurvive` | buildroot/support/kconfig/confdata.c:667-738 | whatever text is quoted as a default and in comparisons, and whatever the user has set, every value survives |
| `Defconfig.QuotedTextsAreConfigurations` | buildroot/support/kconfig/zconf.y:518-522 | the theorems apply to quoted texts that are empty or could be no name |
| `Defconfig.SaveThenLoadWithoutModules` | buildroot/support/kconfig/confdata.c:667-738 | without modules and with proper ranges every symbol keeps its value if and only if no visible symbol that is selected or has option env holds a user value other than its default |
| `Defconfig.EnvironmentIsLost` | buildroot/support/kconfig/symbol.c:1405-1433 | a concrete symbol with a prompt and option env does not keep its value |
| `Defconfig.SelectedStringIsLost` | buildroot/support/kconfig/confdata.c:689-692 | nor does a concrete string that is selected |
| `Defconfig.SaveThenLoadCanFail` | buildroot/support/kconfig/confdata.c:697-698 | with modules a concrete configuration does not survive |
| `ConfReads.SaveThenConfRead` | buildroot/support/kconfig/confdata.c:407-476 | conf_read in full: in every run of its two loops, in whatever order of the symbols and with whatever evaluations on the way, every symbol has its value after the first loop and reads as before after the second, if and only if the file loses nothing and the checks drop nothing |
| `ConfReads.PassesIff` | buildroot/support/kconfig/confdata.c:448-471 | one symbol, written, read and checked, whatever its declaration: it keeps its value if and only if the file cannot hold it or it is a number that is clamped to a bound which is read back out of range, and whose default is not clamped to the same bound |
| `ConfReads.DropsNegativeHex` | buildroot/support/kconfig/confdata.c:457-465 | what the checks drop although the file keeps it is a hexadecimal number clamped to a negative upper bound |
| `ConfReads.ProperRangesPass` | buildroot/support/kconfig/confdata.c:457-465 | with a range that is not empty, and not negative if hexadecimal, nothing is dropped |
| `ConfReads.NegativeHexIsDropped` | buildroot/support/kconfig/confdata.c:457-465 | a family of configurations that are kept by the file and dropped by the checks |
| `ConfReads.OneIsDropped` | buildroot/support/kconfig/confdata.c:457-465 | a concrete one of them: 1 between -9 and -5, with the default -7 |
| `ConfigFile.StringDefault` | buildroot/support/kconfig/symbol.c:732-801 | sym_get_string_default on the symbols, without disturbing the cache |
| `ConfigFile.WriteSymbol` | buildroot/support/kconfig/confdata.c:628-647 | writes the line of the symbol |
| `ConfigFile.WriteEntry` | buildroot/support/kconfig/confdata.c:688-720 | writes the symbol at its first entry only, if it can be changed and differs from its default |
| `ConfigFile.WriteDefconfig` | buildroot/support/kconfig/confdata.c:667-738 | the walk over the menu tree writes exactly the file of the theorems above, for every order of the menu |
| `ConfigFile.SetValue` | buildroot/support/kconfig/confdata.c:125-193 | conf_set_sym_val, with the in-place unescaping |
| `ConfigFile.GetLine` | buildroot/support/kconfig/confdata.c:216-242 | the next line, with its line end |
| `ConfigFile.FindCell` | buildroot/support/kconfig/symbol.c:882-907 | finds the symbol of that name |
| `ConfigFile.ReadConfig` | buildroot/support/kconfig/confdata.c:250-405 | whatever the file, the user values are those of the theorems above, and nothing is left valid |
| `CrcTable.TableIsRight` | buildroot/package/mkpimage/mkpimage.c:104-148 | every word of the table is the byte, on top of the register, shifted out bit by bit |
| `CrcTable.StepsAreLinear` | buildroot/package/mkpimage/mkpimage.c:150-158 | shifting bit by bit is linear in the register |
| `Crc.UpdateIsEightSteps` | buildroot/package/mkpimage/mkpimage.c:155-155 | one table look-up is eight steps of the bit-by-bit register |
| `Crc.ComputeCrc32` | buildroot/package/mkpimage/mkpimage.c:150-158 | the loop over the buffer |
| `CrcDivision.CrcIsRemainder` | buildroot/package/mkpimage/mkpimage.c:150-158 | for every buffer and start value the CRC is the remainder of the message, followed by 32 zeros and with the start value added on top, divided by the generator polynomial of section 3.2.9 of IEEE 802.3 |
| `Polynomials.DivisionIsRight` | buildroot/package/mkpimage/mkpimage.c:150-158 | that long division is a division: the message is quotient times generator plus remainder |
| `Polynomials.RemainderIsUnique` | buildroot/package/mkpimage/mkpimage.c:150-158 | and its remainder is the only one |
| `BootImage.BranchReads` | buildroot/package/mkpimage/mkpimage.c:163-171 | a branch instruction, decoded, leads to its destination if and only if that is a multiple of 4 away and within 32 MB |
| `Mkpimage.Branch` | buildroot/package/mkpimage/mkpimage.c:163-171 | stores the instruction and nothing else |
| `Mkpimage.Checksum` | buildroot/package/mkpimage/mkpimage.c:237-239 | sums the bytes before the checksum field |
| `Mkpimage.AddSocfpgaHeader` | buildroot/package/mkpimage/mkpimage.c:175-255 | refuses sizes that are no multiple of 4 and leaves the buffer alone; otherwise the buffer is the packed image, in which the later stores win |
| `BootImage.PackedV0Decodes` | buildroot/package/mkpimage/mkpimage.c:208-247 | the header of version 0 decodes back: word, version, length below 256 KiB, checksum, branch |
| `BootImage.PackedV1Decodes` | buildroot/package/mkpimage/mkpimage.c:190-247 | the header of version 1 decodes back, and following the entry, over the trampoline if there is one, reaches the start address |
| `BootImage.CrcMatches` | buildroot/package/mkpimage/mkpimage.c:249-252 | the last word of every packed image is the CRC of everything before it |
| `BootImage.RestIsKept` | buildroot/package/mkpimage/mkpimage.c:175-255 | nothing else in the image is changed |
| `BootImage.PaddingSuffices` | buildroot/package/mkpimage/mkpimage.c:336-340 | which inputs leave room: all with a barebox header; without one, 85 bytes for version 1; from 81 bytes on the header and the trampoline still fit; with 80 the CRC would lie over the checksum |
| `ShortImages.StartsIffNoOverlap` | buildroot/package/mkpimage/mkpimage.c:196-203 | without a barebox header all images of a size start correctly if and only if nothing overlaps at that size |
| `ShortImages.ShortImageFails` | buildroot/package/mkpimage/mkpimage.c:251-252 | a concrete image of 88 bytes whose CRC overwrites the trampoline |

## Left out

- Front ends (`conf.c`, `mconf.c`, `nconf.c`, `gconf.c`, `qconf.cc`, lxdialog), help texts, gettext, regular expression search, random and bulk configuration: user interface.
- Files as such (opening, renaming, temporary files, the split configuration directories), environment variables, warnings and messages: a file is its sequence of characters, and the prefix `CONFIG_` a parameter.
- E_LIST and E_RANGE expressions, `expr_trans_compare` against m and y, and symbols of type S_OTHER: the code gives them no uniform meaning.
- Memory: `free`, allocation failure, and reuse of freed nodes. Struct assignment `*e = *other` copies the fields of the node.
- The pointers `struct expr **` of `expr_eliminate_eq` and `__expr_eliminate_eq` are in- and out-parameters, as the two trees are disjoint there; those of `expr_eliminate_dups1`, which alias, are modelled as places (`ExprSlots.Slot`).
- Submenus.SubmenuSound: conditions in which no symbol of type S_OTHER stands alone; the parser makes none of that type.
- SymbolEval.Evaluator.Run: the value of MODULES does not change during a run. Changing MODULES itself, `sym_set_string_value`, SYMBOL_CHANGED and the warning about unmet dependencies are not modelled.
- SymbolEval.Evaluator.SetTristate: bools and tristates; on a symbol that has not been evaluated, recording the value it shows already says nothing about the cache.
- SymbolEval.Evaluator.ClearAllValid: the change count and the evaluation of MODULES at its end, as MODULES is fixed.
- SymbolEval.Evaluator.CalcValue: symbols outside choices; choices are in `ChoiceEval`. The results kept in properties (`visible.tri`) are recomputed where the code reads them.
- SymbolEval.Evaluator.CalcVisibility: without what it does for choice values, which is `ChoiceEval.Choice.CalcVisibility`.
- SymbolEval.Evaluator.CalcTri: without choices, and without the warning.
- ChoiceEval.Choice.CalcValue: one choice, whose values have no defaults of their own and whose defaults name its values; every prompt of a value refers to the choice, as `menu_finalize` makes it. The symbols outside the choice have fixed values, so evaluating them does not appear. SYMBOL_WRITE, SYMBOL_CHANGED and the selection of all choice values after reading a file are not modelled.
- ChoiceEval.Choice.CalcChoiceValue: the same.
- ChoiceEval.Choice.CalcMember: the same.
- ChoiceEval.Choice.SetMember: on a value that has not been evaluated, recording what it shows already says nothing about the cache.
- ChoiceEval.Choice.SetChoice: the same for the choice.
- Choices.ExactlyOne: requires that prompts of the values are at most the choice (`PromptsUnder`), which `ChoiceConditions.FinalizedChoice` proves of the prompts that `menu_finalize` makes.
- CheckDeps.DependencyChecker.CheckAll: without choices and their values. A report is the list of symbols on the cycle, not its text.
- CheckDeps.DependencyChecker.PrintRecursive: the same.
- CheckDeps.DependencyChecker.CheckDeps: the same.
- CheckDeps.DependencyChecker.CheckSymDeps: the same.
- MenuFinalize.MenuFinalizer.FinalizeRoot: conditions are values there, while their rewriting on nodes is `ExprOptimizer` and `SubmenuTest`; the sharing of one condition between an entry and its property is not captured. The effects on symbols are a list, which `MenuEffects` reads; dir_dep, the inference of missing types, the P_CHOICE property beyond which symbols are in it, and warnings are not modelled. A symbol defined in several places has one entry here per place, each with its own properties; choices have a prompt where it says that values are placed, as the code asks for with a warning.
- MenuFinalize.MenuFinalizer.Finalize: the same.
- MenuConditions.DependenciesAreMeant: what contains entries is a menu, an if or a choice, as the grammar has it; well-formed conditions.
- Defconfig.SaveThenLoad: no choices; different names for all symbols that are no quoted constants, without space, `=`, line end, NUL or leading `#`, and other than y, m and n, which covers every unquoted word that the lexer reads; quoted constants have any text; no NUL or line end in user values, which are valid texts. `sym_find` is a search through all symbols instead of a hash table.
- ConfigFile.StringDefault: the symbol has been evaluated, as by its caller.
- ConfigFile.WriteEntry: symbols outside choices.
- ConfigFile.SetValue: without the branch for S_OTHER, which turns the symbol into a tristate or text, and without the return value, of which the reader makes warnings.
- ConfigFile.FindCell: y, m and n give nothing here and the constants there.
- ConfigFile.ReadConfig: a line that assigns to y, m or n itself is ignored, while the code overwrites the constant; a last line without line end that is shorter than the prefix is compared within its length.
- ConfigFile.WriteDefconfig: menu entries without symbol write nothing, so their visibility is not computed. The full configuration of `conf_write` shares the walk (`MenuTree.Walk`) and the lines; its headings are not modelled, nor are the printers for autoconf and tristate.conf.
- ConfReads.SaveThenConfRead: the loops over all symbols are sequences of states, not methods on the symbols of `SymbolEval`, whose caches do not allow for the stale values that a reset leaves; without choices. Which values a file that loses some would have after the checks is not stated for more than one symbol (`ConfReads.PassesIff`).
- The parser and lexer of Kconfig files: declarations are given as values.
- Mkpimage.AddSocfpgaHeader: the buffer has room for the header and the trampoline, as every input of more than 80 bytes has; with 80 bytes, padded to 84, there is none for the trampoline. A little-endian host for the CRC word. Reading and writing files, options and the contents of the barebox header are not modelled, beyond the arithmetic of the padding.
- ShortImages.StartsIffNoOverlap: sizes with that room, and no barebox header.
- BootImage.PackedV1Decodes: sizes and start addresses below 4 GiB, as `unsigned` has it.
- Python tooling, `makedevs.c`, `mkpasswd` and the toolchain wrapper: input and output, or easy filtering of arguments.
