# Verified models of the configuration engine, the network driver queues and the flash tools

A Dafny 4.11 model of the parts of the firmware tree in which most of the reasoning lies, with proofs of what
they keep over all inputs and all runs.

* **Configuration engine** (`scripts/config`). Three-valued dependency expressions and the optimiser over them,
  menu restructuring on linked entries, the memoising value calculator with its choices, the search for recursive
  dependencies, and the configuration file writer and reader.
* **Broadcom driver** (`package/broadcom-57xx/src`). The two-ended ring used without a lock, the receive
  descriptors that move among three such rings, and the auto-negotiation state machine of section 37.3.1.5 of
  IEEE 802.3z.
* **Tools** (`package/ezp-mtd`, `package/bcclient/src`). The table-driven CRC, the erase-ahead flash writer, the
  tag-length-value packets of the finder protocol and the bounded shell quoter.

Expressions are values. A valuation respects types: bool symbols are never m, the built-in constants have their
values, other constants stand for their own text (interning in `symbol.c:657-701` makes different constants have
different texts). The optimiser's `struct expr **` slots are the leaves of one operator level (`Levels.dfy`).
Code that changes things step by step is a method on a class or an array with its loops, and each such method is
proved against a specification function; the lemmas are about those functions. `dafny verify dfyconfig.toml`
checks everything.

## What came out

* `expr_eliminate_dups` always terminates and never changes a value that is y or n. Its second pass uses the
  excluded middle, so a level that is m is decided: `FiringExact` says exactly when one such rewriting keeps the
  value, `EliminateDupsDecidesM` is an expression of value m that the whole function turns into n, and
  `EliminateDupsExact` covers all valuations without m leaves.
* `expr_eq` is exact where no literal y or n is an operand: it holds if and only if both sides are equal up to the
  order of operands, at every depth, but of two foreign constants on one level both are left over (`ExprEqExact`).
  Below a NOT literals can mislead it: it then is no equivalence, and the order of operands can matter
  (`LiteralsMislead`).
* Which siblings `menu_finalize` takes in is exact, too (`AbsorbsExact`). A conjunction takes the residue path if it
  contains all conjuncts of the base condition; a condition that is no conjunction does not, even if it is the base
  condition itself (`UsedUpExact`).
* `expr_trans_compare` turns a comparison around when it meets NOT. `Taken` is what it then decides, for every
  expression. On normal forms it is right if and only if reading every negated m as the target does not change
  whether the expression has that value (`TransCompareReads`), and it errs in one direction only (`NormalTaken`).
* Hence a menu entry can be put under a symbol it does not need: `AbsorbedWithoutBase` is such an entry, visible
  where its new parent's symbol and prompt are both n. With these two at n, an absorbed entry shows if and only if
  its own comparison is wrong (`AbsorbedNeedsBase`, `ShownWithoutBase`), which takes an operand of NOT that is m
  (`HiddenWithoutNegatedMod`).
* `sym_check_deps` called from outside always returns NULL: whatever symbol the search met again is dropped by
  the call that owns it. Whether a cycle exists is told only by the printed warning, which is what `CheckAll`
  characterises.
* The search misses two kinds of edges that the value calculator reads: deselection (`rev_dep_inv`), and from a
  choice the visibility of its members (P_CHOICE is skipped, `symbol.c:819`). Values can be calculated along ranks
  if and only if followed and missed edges together have no cycle (`RanksIffNoCycle`, `CheckDeclarations`); then
  every run, in any order and from any values left before, ends in the one solution (`RunSolves`, `OneSolution`).
  A harmless deselect keeps its ranks (`OneDeselect`); two symbols that deselect each other pass the search and
  have two solutions (`DeselectEscapesSearch`). A default of a choice under a condition that reads the choice is
  reported without need (`NeedlessWarning`).
* `sym_clear_all_valid` keeps the pick of a choice. In every run, whatever is declared, in whatever order values are
  asked for and whatever picks are left, a fully visible member is y if and only if it is the old pick and was
  calculated before the choice dropped it, or the new pick and was calculated after the choice stored it
  (`WinnerIs`). So without an old pick at most one member is y (`AtMostOneYes`), two are exactly if both happens
  (`TwoYesExactly`), and two choices of which one reads a member of the other show that it can (`TwoYes`), without
  a warning (`StaleEscapesSearch`).
* The member picked need not be y. With `B depends on A` in front of `A`, asking for the choice first leaves no
  member y, asking for A first makes A y (`ChoiceFirst`, `MemberFirst`); `PickedIsYes` is the exact condition, and
  the search does not warn (`LateEscapesSearch`). Without such cycles it is y exactly if it is fully visible, and no
  other visible member is (`RunExactlyOne`).
* Invisible members of a choice are outside its rule: several can be y through their defaults
  (`InvisibleMembersBothYes`).
* A value that `sym_set_tristate_value` accepts is the value the symbol gets when everything is calculated again
  (`AcceptedIsRecomputed`), with exceptions that can be told before. For a choice: y when no member can be picked,
  and keeping the n of such a choice that is selected as m (`AcceptedChoice`). For a fully visible member, y is got if
  and only if the choice is y: accepting does not look at the choice, so y is accepted for a bool member of a
  tristate choice at m, and the member stays n (`AcceptedMember`, `MixedStaysNo`). A hidden member that is y by
  default can lose it by being set to y, since the choice then forgets whom the user had chosen (`HiddenBecomesNo`);
  it does not where the choice goes on pointing to the same member (`HiddenMemberStays`).
* A menu title is read back without effect unless it is `CONFIG_`, the name of a known bool or tristate and
  ` is not set` (`TitleExact`, `TitleDoesHarm`).
* `EntryCnt` of the driver's ring can be -1 for a moment (`CounterBelowZero`); it is never off by more than one.
* What the link partner can do is taken from the call in complete ack init, not from the words that were matched
  before (`PartnerKnown`): a call in which nothing is received leaves all its abilities off.
* In `autoneg.c` the mismatch branch of ack detect (lines 304-307) is never taken (`AckAlwaysCompletes`), since
  every sample makes AbilityMatchCfg equal to RxConfig.
* `mtd_write` compares the result of `write()`, an int, with a size_t, so -1 counts as a full write. The program
  then returns 0 although nothing was written. When it returns 0 the flash begins with the input exactly if no
  write reported an error (`MtdWrite.Write`, `ErrorGoesUnnoticed`).
* Against m, `expr_trans_compare` is right for symbols and comparisons only; through NOT it is always wrong
  (`NegationAgainstMod`). No caller in the tree asks for m.
* The CRC distinguishes any two buffers of one length that differ only within 32 consecutive bits
  (`BurstDetected`), for signed and unsigned char alike.
* `AddExtTagToTagList` cuts the length to one byte before it checks it, so 256 + n bytes are accepted as n.
* A line of a configuration file may be 1023 characters long without its newline: the newline is then read as a
  line of its own and does no harm (`ReadTextLine`).
* The quoter's "should not happen" returns -1 and -2 cannot happen; -3 means a buffer smaller than three.

## Model

| member | source | states |
|---|---|---|
| Equality.EliminateYnKeepsValue | scripts/config/expr.c:235-316 | removing y and n operands keeps the value under every valuation |
| Equality.EliminateYnShrinks | scripts/config/expr.c:235-316 | the result has no y or n operand left; it is smaller exactly if there was one, else the same tree |
| Equality.MatchTreesBalanced | scripts/config/expr.c:135-166 | each side equals the matched operands combined with its own residue |
| Equality.ExprEqSound | scripts/config/expr.c:193-233 | expressions that expr_eq calls equal have equal values under every valuation |
| Equality.UsedUpBounds | scripts/config/expr.c:168-188 | when the residue of b is y, a is at most b under every valuation, also across an AND pass and an OR pass |
| Equality.ExtractMeans | scripts/config/expr.c:830-879 | each side is worth the common part expr_extract_eq returns together with what is left of it |
| ExprShapes.PassLeaves | scripts/config/expr.c:135-166 | a pass over two literal-free levels leaves of each side exactly what the other does not have, and what cannot be taken out |
| ExprShapes.ExprEqExact | scripts/config/expr.c:193-233 | where no literal y or n is an operand, expr_eq answers yes if and only if the two are equal up to the order of operands at every depth and no level holds two foreign constants |
| ExprShapes.PermutedEqual | scripts/config/expr.c:207-217 | two such nests with the same operands in any order are equal for expr_eq if and only if no level holds two foreign constants |
| ExprShapes.ExprEqReflexive | scripts/config/expr.c:193-233 | without foreign constants every expression is equal to itself for expr_eq, with literals or without |
| ExprShapes.LiteralsMislead | scripts/config/expr.c:193-233 | with literals below a NOT the order can matter: an OR of three operands that is not equal to itself turned around |
| Normalise.TransformNormal | scripts/config/expr.c:640-775 | expr_transform terminates with NOT only directly over symbols that are not y, m or n |
| Normalise.TransformIdempotent | scripts/config/expr.c:640-775 | a second expr_transform changes nothing; the unchanged expressions are exactly the normal ones |
| Normalise.TransformKeepsValue | scripts/config/expr.c:640-775 | expr_transform keeps the value under every type-respecting valuation |
| Normalise.TransBoolKeepsNo | scripts/config/expr.c:321-345 | on a normal expression expr_trans_bool keeps "is it n" both ways, so the promoted visibility of a symbol that is no tristate is unchanged |
| Normalise.TransBoolExact | scripts/config/expr.c:321-345 | where no symbol is m, expr_trans_bool keeps the value |
| Normalise.TransBoolChangesValue | scripts/config/expr.c:321-345 | the exact value is not kept: a normal expression whose y becomes m |
| Normalise.TransBoolComplete | scripts/config/expr.c:321-345 | afterwards no tristate symbol is tested against n, at any depth; without such a test nothing is changed |
| Normalise.TransCompareCorrect | scripts/config/expr.c:881-940 | against y or n, the comparison built is y or n as e equals or differs from the target, if no operand of NOT is m |
| Normalise.TransCompareMeans | scripts/config/expr.c:881-940 | of any expression and for y and n, the comparison built decides `Taken`: each symbol by itself, with NOT turning the answer around |
| Normalise.TransCompareExact | scripts/config/expr.c:881-940 | of any expression, the comparison is right under a valuation if and only if e is taken to equal the target exactly when it does |
| Normalise.TransCompareReads | scripts/config/expr.c:881-940 | on normal forms the comparison with y (n) is right if and only if reading every operand of NOT that is m so that the NOT has the target value does not change whether the expression is y (n) |
| Normalise.NormalTaken | scripts/config/expr.c:881-940 | on normal forms an equality that holds is never missed; the comparison errs in the other direction only |
| Normalise.TransCompareNegation | scripts/config/expr.c:912-913 | through NOT over one symbol the comparison is right if and only if the symbol is not m |
| Normalise.TransCompareTwoValued | scripts/config/expr.c:881-940 | the comparison built is never m |
| Normalise.AtomAgainstMod | scripts/config/expr.c:915-936 | against m, symbols and comparisons are compared right |
| Normalise.NestAgainstMod | scripts/config/expr.c:891-911 | against m, an AND or OR stands for its own comparison, which is right if and only if it is n |
| Normalise.NegationAgainstMod | scripts/config/expr.c:912-913 | against m, NOT over a symbol or comparison is always answered wrong |
| Duplicates.JoinKeepsValue | scripts/config/expr.c:347-506 | whenever two operands are joined, the new one has the value of their AND or OR |
| Duplicates.Dups1Ok | scripts/config/expr.c:508-558 | the first pass keeps the value under every valuation and counts a change only with a y or n operand to show for it |
| Duplicates.FiringExact | scripts/config/expr.c:575-600 | a rewriting by the excluded middle makes the level n or y, and this is its value if and only if the level was not m |
| Duplicates.Dups2Ok | scripts/config/expr.c:560-614 | the second pass keeps every value but m |
| Duplicates.RoundOk | scripts/config/expr.c:616-638 | a round that counts a change leaves a strictly smaller tree; one that counts none leaves the tree itself, settled |
| Duplicates.QuietMeansSettled | scripts/config/expr.c:508-614 | when both passes count nothing, no two operands of any level can be joined and no excluded middle is left |
| Duplicates.EliminateDupsLoop | scripts/config/expr.c:616-638 | the while loop ends with the fixed point of the rounds, settled and no larger |
| Duplicates.EliminateDupsCorrect | scripts/config/expr.c:616-638 | y and n are kept under every valuation, the result is settled and no larger |
| DuplicateRules.JoinsExactly | scripts/config/expr.c:347-506 | two operands are joined if and only if expr_eq holds of them or they are one of the listed pairs of their operator |
| DuplicateRules.ResidueExact | scripts/config/expr.c:575-606 | without literals the excluded middle applies to an operand and a part of its level if and only if every operand of the negation is in the part, as often |
| DuplicateRules.SettledMeans | scripts/config/expr.c:616-638 | afterwards no two operands of a level are equal or such a pair; without literals equal is equal up to order |
| DuplicateRules.SettledMiddle | scripts/config/expr.c:616-638 | afterwards no operand has all operands of its negation in its level |
| DuplicateLimits.EliminateDupsExact | scripts/config/expr.c:508-638 | the whole function keeps the value wherever no leaf is m |
| DuplicateLimits.FiringDecidesM | scripts/config/expr.c:575-581 | (FOO or BAR) and (not FOO and not BAR), both m: one rewriting applies, and m becomes n |
| DuplicateLimits.EliminateDupsDecidesM | scripts/config/expr.c:560-638 | on that expression the whole function returns n, also where its value is m |
| NormalForms.EliminateDupsNormal | scripts/config/expr.c:508-638 | expr_eliminate_dups keeps negation-normal form |
| MenuTree.HoistPreorder | scripts/config/menu.c:309-318 | moving children of entries without a prompt text up keeps the preorder |
| MenuTree.Finalize | scripts/config/menu.c:197-339 | the finalized entry and the siblings left hold all entries in the same preorder, and the calls are those of its preorder, each once |
| MenuTree.FinalizeAll | scripts/config/menu.c:254-255 | finalizing a list keeps its preorder and calls every entry once |
| MenuTree.Absorb | scripts/config/menu.c:257-281 | exactly a run of following siblings that qualify is taken in, and the first one left does not qualify |
| Absorption.DependsExact | scripts/config/expr.c:801-828 | expr_depends_symbol holds if and only if some operand of the conjunction is the symbol, symbol=y, symbol=m or symbol!=n |
| Absorption.UsedUpExact | scripts/config/expr.c:168-188 | without literals the residue of b is y if and only if b is y or a is a conjunction with every conjunct of b, as often |
| Absorption.CoversExact | scripts/config/menu.c:267-276 | of conditions in normal form, the residue path holds if and only if the base form is y or all its conjuncts are among those of the sibling's conjunction |
| Absorption.AbsorbsExact | scripts/config/menu.c:257-281 | exactly which siblings qualify: those that mention the symbol and have a conjunct that needs it, or take the residue path |
| Absorption.AbsorbsUnlimited | scripts/config/menu.c:257-281 | behind an entry without a condition on its prompt every sibling whose condition mentions the symbol qualifies |
| Absorption.FinalizeTakes | scripts/config/menu.c:257-281 | an entry with a symbol and no list takes in the next entry if and only if that qualifies, and goes on until one does not; nothing is taken in otherwise |
| Absorption.HoistLeaves | scripts/config/menu.c:309-318 | an entry with a prompt text, or without children, is left as it is |
| MenuMeaning.NotNoValue | scripts/config/menu.c:257-268 | the rewritten dependency says whether the dependency is other than n if and only if its comparison with n is right |
| MenuMeaning.CoversBounds | scripts/config/menu.c:267-276 | absorption through the residue path: the sibling's form is at most the base form, so it needs the base |
| MenuMeaning.ContainsIsMentions | scripts/config/expr.c:777-828 | expr_contains_symbol holds exactly for the symbols whose value the expression reads, and expr_depends_symbol implies it |
| MenuMeaning.DependsBounds | scripts/config/expr.c:801-828 | a dependency for which expr_depends_symbol holds is n whenever the symbol is n |
| MenuMeaning.AbsorbedNeedsBase | scripts/config/menu.c:257-281 | an absorbed sibling whose own comparison is right is visible only if the base symbol or the base prompt is other than n, whatever the comparison of the base does |
| MenuMeaning.ShownWithoutBase | scripts/config/menu.c:257-281 | where base symbol and base prompt are n, an absorbed sibling is visible if and only if its own comparison is wrong |
| MenuMeaning.HiddenWithoutNegatedMod | scripts/config/menu.c:257-281 | there the sibling is n once every negated m is read as n, and so n unless some operand of NOT is m |
| MenuExamples.AbsorbedWithoutBase | scripts/config/menu.c:257-281 | an absorbed sibling that is visible where base symbol and base prompt are n, its own comparison being wrong |
| MenuMeaning.PushDownValue | scripts/config/menu.c:217-241 | a pushed-down dependency is the AND of both, or decides an m |
| MenuMeaning.PushedForm | scripts/config/menu.c:217-222 | a pushed-down dependency is there if one of the two is, and nothing is left to eliminate in it |
| MenuMeaning.ConditionForm | scripts/config/menu.c:228-241 | the same of a property condition, which for a symbol that is no tristate tests no tristate symbol against n |
| MenuMeaning.ConditionValue | scripts/config/menu.c:217-241 | a rewritten property condition is n whenever the AND of its path is, and agrees where no symbol is m |
| MenuMeaning.FinalizeEntries | scripts/config/menu.c:197-339 | through all absorption and hoisting every entry carries exactly what pushing down along its original path gives |
| MenuMeaning.PushForestMeans | scripts/config/menu.c:217-241 | for the whole tree, every condition means the conjunction down its original path |
| MenuMeaning.FinalizeHidesNothing | scripts/config/menu.c:288-319 | afterwards no entry without a prompt text has children, at any depth |
| ProperChoices.InsideIsFinal | scripts/config/menu.c:197-339 | the entries below a choice, as rewritten, are entries of the finished tree |
| ProperChoices.FinalizedIsProper | scripts/config/menu.c:217-241 | with the prompts menu_finalize leaves, every member of a choice has prompts that mention the choice or are n whatever the values |
| ReverseDeps.RevDepAtLeast | scripts/config/menu.c:242-251 | the reverse dependency is at least selector AND condition of every select (deselect) of the symbol |
| ReverseDeps.RevDepAttained | scripts/config/menu.c:242-251 | and its value is that of one of them: nothing else adds to it |
| ReverseDeps.RewrittenIsTree | scripts/config/menu.c:223-281 | the entries appended by the calls, each list first and then the calls for its entries, are those of the finished tree below the root, each once and as it is at the end |
| ReverseDeps.SelectForces | scripts/config/menu.c:242-251 | with the expressions built in that order, a symbol is in every solution at least what any select in the tree asks for, unless it is deselected or belongs to a choice |
| ReverseDeps.DeselectForces | scripts/config/menu.c:247-251 | with the expressions built in that order, a deselect whose selector and condition are y makes its target n in every solution |
| MenuStore.Menus.Finalize | scripts/config/menu.c:197-339 | on linked entries: the pointers spell the finalized tree and the siblings left, the calls are as specified, nothing else is touched |
| MenuStore.Menus.FinalizeAlone | scripts/config/menu.c:256-319 | absorption and hoisting for an entry without a list, in place |
| MenuStore.Menus.FinalizeList | scripts/config/menu.c:205-255 | an entry with a list: push down, finalize, hoist, in place |
| MenuStore.Menus.RewriteKids | scripts/config/menu.c:223-253 | the first loop leaves the children with the dependency pushed into each |
| MenuStore.Menus.FinalizeKids | scripts/config/menu.c:254-255 | the second loop finalizes every entry still in the list |
| MenuStore.Menus.AbsorbSiblings | scripts/config/menu.c:257-286 | the siblings taken in hang below the entry with it as their parent, and the rest follows it |
| MenuStore.Menus.HoistKids | scripts/config/menu.c:288-319 | the last loop leaves the hoisted list |
| MenuStore.Menus.Splice | scripts/config/menu.c:309-318 | the children of one entry get the new parent and are linked in behind it |
| MenuWalk.ParentHoldsEntry | scripts/config/menu.c:277-319 | the parent pointer of every entry names the node whose list, followed by next, reaches the entry |
| MenuWalk.Climb | scripts/config/confdata.c:507-519 | going up by parent pointers lands on exactly what preorder has next |
| MenuWalk.Walk | scripts/config/confdata.c:437-520 | the walk without a stack visits the recursive preorder |
| MenuWalk.FinalizeAndWalk | scripts/config/confdata.c:437-520 | after menu_finalize on the root the walk still visits the preorder of the menus as they were read |
| Graphs.OrderedMeansNoCycle | scripts/config/symbol.c:771-840 | an order in which every symbol comes after what it uses excludes every cycle |
| Graphs.RanksIffAcyclic | scripts/config/symbol.c:771-840 | of a finite dependency graph, ranks that go down along every edge exist if and only if there is no cycle |
| DependencyCheck.Checker.CheckExpr | scripts/config/symbol.c:771-799 | a reported symbol is still marked; without a warning everything mentioned was finished |
| DependencyCheck.Checker.CheckSymbol | scripts/config/symbol.c:801-840 | the marks are left as found; without a warning the symbol is finished |
| DependencyCheck.Checker.CheckAll | scripts/config/symbol.c:771-840 | called on all symbols, it warns if and only if the followed dependencies have a cycle, and else has finished all symbols in an order of use |
| SymbolValues.AnyPromptIsMax | scripts/config/symbol.c:202-207 | the visibility is at least that of every prompt and that of one of them |
| ValueMeaning.VisibleMeans | scripts/config/symbol.c:196-217 | a symbol is visible if and only if some prompt is not n and no deselect is y, and fully if and only if some prompt is y, or m and the symbol no tristate |
| ValueMeaning.SelectedMeans | scripts/config/symbol.c:219-229 | the reverse dependency is its value, with m made y for a bool, and n for members |
| ValueMeaning.TriValueIs | scripts/config/symbol.c:302-335 | in a solution a bool or tristate symbol that is no choice is: as the pick says for fully visible members, n if deselected, else the user's value or the first default that applies, between reverse dependency and visibility, and that default itself if hidden and unselected |
| ValueMeaning.TakesDefault | scripts/config/symbol.c:316-325 | fully visible, not selected and without a user value a symbol has the value of its first default that applies |
| ValueMeaning.TextIs | scripts/config/symbol.c:337-355 | a string, int or hex symbol has the user's text if visible, else that of the symbol its first applying default names |
| ValueMeaning.NameIs | scripts/config/symbol.c:293-297 | a symbol of no known type has its own name as its text and counts as n |
| ValueMeaning.ChoiceValueIs | scripts/config/symbol.c:302-362 | a choice has what its bounds make of the user's value, and falls to n if that is y and nobody is visible |
| ValueMeaning.PicksUser | scripts/config/symbol.c:237-243 | a choice that is y points to the user's member if that is visible |
| ValueMeaning.PicksDefault | scripts/config/symbol.c:245-254 | otherwise to the member of the first default that applies and names a visible one |
| ValueMeaning.PicksMember | scripts/config/symbol.c:256-263 | otherwise to the first visible member |
| ValueMeaning.RunFollows | scripts/config/symbol.c:196-380 | with ranks, values and picks of every run, in any order and from any values left before, follow all these rules |
| SymbolValues.DefaultIsFirst | scripts/config/symbol.c:123-133 | the default taken is the first whose condition is not n |
| SymbolValues.HiddenIgnoresUser | scripts/config/symbol.c:317-332 | a symbol neither visible nor selected has the same value whatever the user set |
| SymbolValues.CalcRespects | scripts/config/symbol.c:333-334 | calculated values fit their types; a bool is never m |
| SymbolValues.CalcBounds | scripts/config/symbol.c:314-326 | a visible or selected symbol lies between its reverse dependency and the larger of that and its visibility, a choice before its pick |
| SymbolValues.ChoiceBounds | scripts/config/symbol.c:314-362 | the final value of such a choice has the same upper bound, and is at least its reverse dependency if and only if it is not one that is selected, y and has nobody to pick |
| ValueMemo.RunRespects | scripts/config/symbol.c:270-392 | no run over any declarations, recursive or not, leaves a calculated value that does not fit its type: a bool is never m |
| ValueMemo.CallBounds | scripts/config/symbol.c:314-326 | in every call, nested ones included, a symbol other than a choice or a fully visible member gets a value between the reverse dependency found and the larger of it and the visibility found, or n if it is found deselected then |
| ValueMemo.ChoiceCallBounds | scripts/config/symbol.c:314-362 | in every call the same for the final value of a choice, where the lower bound fails if and only if it finds nobody to pick and is selected |
| ValueDeps.RankedIffAcyclic | scripts/config/symbol.c:270-380 | ranks for the calculation exist if and only if what it reads has no cycle |
| ValueDeps.OneSolution | scripts/config/symbol.c:270-380 | without recursive dependencies there is one solution, picks included, so the order of calls does not matter |
| ValueSetting.ForcedIsFixed | scripts/config/symbol.c:414-438 | of a symbol that is hidden, or shown no higher than it is selected, only the value it has is accepted |
| ValueSetting.OthersAreFree | scripts/config/symbol.c:414-438 | of any other symbol the values from its selection up to its visibility, no m for a bool; of a fully visible member only y |
| ValueSetting.OwnStands | scripts/config/symbol.c:414-470 | setting the user value of a symbol moves neither its own visibility, selection and deselection nor, if it is a choice, whom it would pick |
| MemberSetting.AcceptedIsRecomputed | scripts/config/symbol.c:414-470 | an accepted value of any symbol but a choice is the value calculated afterwards, whatever else moves; y of a fully visible member if and only if its choice is y before; y of a hidden member, which is y before, if the choice and new members are left undisturbed |
| MemberSetting.AcceptedMember | scripts/config/symbol.c:433-460 | after y is stored for a fully visible member the choice has the value it had, points to the member if and only if it is y, and then the member is y |
| MemberSetting.HiddenMemberStays | scripts/config/symbol.c:433-460 | storing y for a hidden member moves nothing where the choice goes on pointing to the same member and no new member is visible as m |
| SettingExamples.MixedStaysNo | scripts/config/symbol.c:414-460 | a bool member of a tristate choice at m: y is accepted, and it is n before and after |
| SettingExamples.HiddenBecomesNo | scripts/config/symbol.c:433-460 | a hidden member that is y by default: y is accepted, and it is n afterwards |
| ValueSetting.RefusedIsOutOfReach | scripts/config/symbol.c:414-431 | a refused value could not be had with any user value, of members and deselected or hidden symbols as well |
| ValueSetting.AcceptedChoice | scripts/config/symbol.c:414-470 | for a choice, an accepted value is the one calculated afterwards if and only if, by the values before, it is not y with nobody to pick and not the n of a choice selected as m |
| ValueSetting.RefusedChoice | scripts/config/symbol.c:414-431 | a refused value of a choice could be had only as the n of a choice with nobody to pick |
| ValueCalculator.Calculator.EvalExpr | scripts/config/expr.c:942-981 | with the memo, on the symbols themselves: the value and the state the specification gives |
| ValueCalculator.Calculator.CalcVisibility | scripts/config/symbol.c:196-229 | visibility, selection and deselection as specified, calculating what they read on the way |
| ValueCalculator.Calculator.CalcChoice | scripts/config/symbol.c:231-268 | the three loops pick the first candidate that may be taken, calculating conditions and visibilities in turn |
| ValueCalculator.Calculator.CalcValue | scripts/config/symbol.c:270-380 | one call does to all symbols what the specification says, for any declarations, choices and members included, recursive or not |
| ValueCalculator.Calculator.CalcAll | scripts/config/symbol.c:270-392 | the calls for all symbols, one after the other |
| MemoSound.CalcSound | scripts/config/symbol.c:270-380 | with ranks, every symbol calculated holds what its declaration gives under any values of the symbols not calculated yet |
| MemoSound.RunSolves | scripts/config/symbol.c:270-392 | with ranks, every run in any order and from any values left before ends in a solution of the declarations |
| Consistency.FollowedAre | scripts/config/symbol.c:801-840 | what the search follows from a symbol: reverse dependency, prompts and defaults, of a choice the conditions of its defaults |
| Consistency.FollowedIsRead | scripts/config/symbol.c:771-840 | whatever the calculator reads is followed or among the missed edges (deselection, a choice's members, a member's choice); of symbols outside choices this is exact |
| Consistency.RanksIffNoCycle | scripts/config/symbol.c:771-840 | ranks exist if and only if followed and missed edges together have no cycle |
| Consistency.CheckDeclarations | scripts/config/symbol.c:771-840 | from the search on all symbols to the ranks: silence gives them where nothing is missed, a warning excludes them unless it is needless, and they exist if and only if there is no cycle with the missed edges |
| Consistency.DeselectEscapesSearch | scripts/config/symbol.c:315-316 | two symbols that deselect each other pass the search and have two solutions |
| Consistency.OneDeselect | scripts/config/symbol.c:315-316 | a single deselect keeps its ranks |
| Consistency.LateEscapesSearch | scripts/config/symbol.c:819 | a choice whose first member reads the second passes the search without ranks |
| Consistency.StaleEscapesSearch | scripts/config/symbol.c:819 | two choices of which one reads a member of the other pass the search without ranks, too |
| Consistency.NeedlessWarning | scripts/config/symbol.c:819-828 | a choice with a default under a condition that reads the choice is reported although there are ranks |
| ChoiceRuns.CalcOne | scripts/config/symbol.c:231-380 | every call keeps the invariant: a fully visible member is y exactly if the pick it found, the old one, none or the one stored, is itself |
| ChoiceRuns.CalcAllOne | scripts/config/symbol.c:231-392 | every run keeps it, for any declarations |
| Choices.WinnerIs | scripts/config/symbol.c:231-380 | in every run, from any picks left before, a fully visible member is y if and only if it is the old pick, calculated before this was dropped, or the new pick, calculated after this was stored |
| Choices.TwoYesExactly | scripts/config/symbol.c:231-380 | two such members of a choice exist if and only if its old pick was calculated before it was dropped and another member, newly picked, after it was stored |
| Choices.AtMostOneYes | scripts/config/symbol.c:231-380 | without an old pick of this choice two of its visible members are never both y |
| Choices.FoundInRun | scripts/config/symbol.c:281-363 | around any call for the choice, at the top or nested: which pick a member found, read from when it was calculated, before the clear, up to the end of the call, or in calls that follow |
| Choices.BeforeThePick | scripts/config/symbol.c:306-313 | a visible member calculated by the end of the call for its choice, a nested one or not, is y if and only if it is the old pick, calculated before this was dropped |
| Choices.PickedIsYes | scripts/config/symbol.c:306-363 | the visible member pointed to at the end is y if and only if it was calculated after it was picked, or as the old pick before this was dropped |
| Choices.ExactlyOneYes | scripts/config/symbol.c:231-268 | in a solution a choice that is y points to a visible member, and of its visible members just this one is y if it is fully visible, and none if it is visible as m |
| Choices.RunExactlyOne | scripts/config/symbol.c:231-392 | with ranks every run ends so for every choice that is y; with a bool member picked exactly one visible member is y |
| Choices.ChosenIsYes | scripts/config/symbol.c:231-268 | in a solution the member the user chose is the one picked, and y, where it is fully visible and its choice is y |
| ChoiceExamples.ChoiceFirst | scripts/config/symbol.c:306-363 | calculating the choice first: it is y and points to A, A is fully visible, and no member is y |
| ChoiceExamples.MemberFirst | scripts/config/symbol.c:306-363 | calculating A first: the choice points to A and A is y |
| ChoiceExamples.TwoYes | scripts/config/symbol.c:383-392 | a pick that survives sym_clear_all_valid: two visible members of one choice end as y |
| Choices.InvisibleMembersBothYes | scripts/config/symbol.c:327-332 | two invisible members that are both y by default |
| ConfFile.EscapedBack | scripts/config/confdata.c:187-196 | unescaping what was escaped, with anything behind the closing quote, gives the string back |
| ConfFile.PutEscaped | scripts/config/confdata.c:477-492 | the printing loop puts a backslash before every quote and backslash and nothing else |
| ConfFile.TakeString | scripts/config/confdata.c:187-200 | the loop that moves backslashes out in place gives the unescaped text, or nothing when no quote closes it |
| ConfFile.SlashedBack | scripts/config/confdata.c:187-200 | a backslash is dropped before any character, whether it had to be there or not |
| ConfFile.Unclosed | scripts/config/confdata.c:187-200 | without a closing quote no text is taken |
| ConfFile.ReadTextLine | scripts/config/confdata.c:113-116 | a line of at most 1023 characters besides its newline is read whole |
| ConfFile.SettingRead | scripts/config/confdata.c:116-220 | the line printed for a symbol sets that symbol to the printed value and nothing else |
| ConfFile.LetterRead | scripts/config/confdata.c:148-183 | a line that gives n, y or m sets a bool or tristate symbol, but no bool to m, and touches nothing else |
| ConfFile.SetsNoExact | scripts/config/confdata.c:118-146 | a comment switches a symbol off exactly if it is the name of a bool or tristate symbol and " is not set", with anything behind it |
| ConfFile.IntIsNumeral | scripts/config/symbol.c:502-514 | an int is valid if and only if it is the decimal form of a number, or -0 |
| ConfFile.HexIsNumeral | scripts/config/symbol.c:515-523 | a hex is valid if and only if it is hexadecimal digits, with 0x or 0X in front or without |
| ConfFile.TitleExact | scripts/config/confdata.c:118-146 | a title is read without effect if it is harmless, and else switches a known symbol off |
| ConfFile.TitleDoesHarm | scripts/config/confdata.c:118-146 | a title that switches a symbol off |
| ConfFile.RoundTrip | scripts/config/confdata.c:437-502 | reading a printed file sets exactly the printed symbols, in order, to the printed values |
| ConfFile.Restored | scripts/config/confdata.c:437-502 | every symbol written once has its value back, whatever was set before |
| ConfFile.WriteItems | scripts/config/confdata.c:437-502 | the writer prints the specified text for titles and symbols |
| ConfWrite.WriteMenus | scripts/config/confdata.c:437-502 | the loop over the menus prints a symbol with SYMBOL_WRITE at the first of its menus only and takes the flag back |
| ConfWrite.TitlesAreHeadings | scripts/config/confdata.c:437-502 | all headings are printed, in the order of the walk |
| ConfWrite.PrintedOnce | scripts/config/confdata.c:437-502 | no symbol is printed twice, and only symbols with a menu are |
| ConfWrite.WrittenIsRestored | scripts/config/confdata.c:437-502 | after reading, the symbols with the flag and a menu have their values back, all others are as before |
| ConfFile.Reader.ReadFile | scripts/config/confdata.c:112-242 | the reading loop has the specified effect of the text, piece by piece as fgets delivers it |
| Queue.Ring.PushHead | package/broadcom-57xx/src/queue.h:161-181 | unless full, the entry is put before the head; otherwise nothing changes |
| Queue.Ring.PushTail | package/broadcom-57xx/src/queue.h:192-216 | unless full, the entry is put at the tail; otherwise nothing changes |
| Queue.Ring.PopHead | package/broadcom-57xx/src/queue.h:225-253 | the entry at the head is taken, or 0 if there is none |
| Queue.Ring.PopTail | package/broadcom-57xx/src/queue.h:262-285 | the entry at the tail is taken, or 0 if there is none |
| Queue.Ring.GetHead | package/broadcom-57xx/src/queue.h:294-315 | the entry at the given distance from the head, if there are so many |
| Queue.Ring.GetTail | package/broadcom-57xx/src/queue.h:324-341 | the entry at the given distance from the tail, if there are so many |
| QueueThreads.ProducerKeeps | package/broadcom-57xx/src/queue.h:192-216 | every read and write of the pusher keeps the invariant, and it gives up only on a full ring |
| QueueThreads.ConsumerKeeps | package/broadcom-57xx/src/queue.h:225-253 | every read and write of the popper keeps the invariant, and at a report of empty the ring is empty |
| QueueThreads.RunSafe | package/broadcom-57xx/src/queue.h:192-253 | in every interleaving popped entries are a prefix of pushed ones, the difference is in the ring, and EntryCnt is off by at most one |
| QueueThreads.CounterBelowZero | package/broadcom-57xx/src/queue.h:192-253 | an interleaving after which EntryCnt is -1 |
| Receive.Receiver.Initialize | package/broadcom-57xx/src/b57um.c:4470-4504 | the loop has the effect of its turns as specified |
| Receive.Receiver.Indicate | package/broadcom-57xx/src/b57um.c:5039-5184 | the loop has the effect of its turns as specified, for both tasklet settings |
| Receive.Receiver.Replenish | package/broadcom-57xx/src/b57um.c:5224-5272 | the loop has the effect of its turns, with the limit and the failure as specified |
| Receive.Receiver.FreeRemaining | package/broadcom-57xx/src/b57um.c:5458-5477 | the loop empties the out-of-buffer queue as specified |
| Receive.InitOnce | package/broadcom-57xx/src/b57um.c:4470-4504 | pop-head and push-tail handle each descriptor once: the untouched ones are still in front, in order |
| Receive.InitReady | package/broadcom-57xx/src/b57um.c:4470-4504 | afterwards every free descriptor has a buffer |
| Receive.InitExact | package/broadcom-57xx/src/b57um.c:4470-4504 | after its turn a descriptor has a buffer if it had one or got one, and otherwise waits for one |
| Receive.IndicateKeeps | package/broadcom-57xx/src/b57um.c:5039-5184 | descriptors are conserved, the received queue is emptied, and free descriptors have buffers |
| Receive.IndicateExact | package/broadcom-57xx/src/b57um.c:5039-5184 | which received descriptors keep or get a buffer, and which go back to the free queue, by error, new buffer and tasklet setting |
| Receive.RefillKeeps | package/broadcom-57xx/src/b57um.c:5224-5272 | descriptors are conserved, free ones have buffers, and it stops short only before a descriptor without one |
| Receive.RefillLimited | package/broadcom-57xx/src/b57um.c:5224-5272 | at most max new buffers are allocated, each with one success; a shortage is reported exactly where the next allocation fails, and it stops early only at max |
| Receive.DrainKeeps | package/broadcom-57xx/src/b57um.c:5458-5477 | descriptors are conserved and every waiting one comes back free and without a buffer |
| Receive.RunConserves | package/broadcom-57xx/src/b57um.c:5039-5272 | over every sequence of arrivals, indications and replenishments no descriptor is lost, doubled or offered without a buffer |
| Receive.LifetimeConserves | package/broadcom-57xx/src/b57um.c:4470-5477 | the same from initialisation through any such sequence to the final free |
| Autoneg.Negotiator.Autoneg8023z | package/broadcom-57xx/src/autoneg.c:122-436 | one call has the specified effect on all fields and the specified status |
| Autoneg.StepRank | package/broadcom-57xx/src/autoneg.c:193-434 | a call stays, moves on by one state, passes over ack detect, or starts again |
| Autoneg.AckAlwaysCompletes | package/broadcom-57xx/src/autoneg.c:296-315 | with an acknowledged word ack detect always goes on to complete ack |
| Autoneg.FirstCall | package/broadcom-57xx/src/autoneg.c:193-216 | the state UNKNOWN that AutonegInit leaves is gone after one call |
| Autoneg.InOrder | package/broadcom-57xx/src/autoneg.c:193-434 | every run from AutonegInit or AN_ENABLE to LINK_OK went through restart, ability detect, ack detect init, complete ack and idle detect in this order |
| Autoneg.LinkTakesTime | package/broadcom-57xx/src/autoneg.c:193-434 | from the restart of the attempt to LINK_OK more than 36000 microseconds pass |
| Autoneg.RunMatched | package/broadcom-57xx/src/autoneg.c:147-186 | in every run the match counter and flag stand for equal words in consecutive samples |
| Autoneg.FlagsAre | package/broadcom-57xx/src/autoneg.c:147-186 | idle match, ack match and the saved word are those of the last sample |
| Autoneg.ThreeEqualWords | package/broadcom-57xx/src/autoneg.c:258-286 | ability detect is left only after three consecutive equal words other than zero |
| Autoneg.DetectsThrice | package/broadcom-57xx/src/autoneg.c:277-286 | ability detect is left in exactly the calls that end three such samples |
| Autoneg.Sent | package/broadcom-57xx/src/autoneg.c:193-434 | zero is sent from restart, the advertised word from ability detect, that word with ACK from ack detect; the management registers are those of the state |
| Autoneg.PartnerKnown | package/broadcom-57xx/src/autoneg.c:317-351 | from complete ack to LINK_OK the registers of the link partner hold the word received in the call that left complete ack init in this attempt, which has no invalid bits |
| Autoneg.AnsweredLinks | package/broadcom-57xx/src/autoneg.c:193-434 | with a partner that keeps sending one valid word, and ACK once it is sent ACK, the attempt is never given up and reaches LINK_OK within 36000 microseconds and eight calls, with the partner's abilities stored |
| Autoneg.StatusIs | package/broadcom-57xx/src/autoneg.c:189-435 | when a call reports done and when failure, which then leaves the state as it is |
| Autoneg.FailsOnPages | package/broadcom-57xx/src/autoneg.c:353-386 | in a run complete ack fails only if both ends announced a next page |
| Autoneg.TimerIs | package/broadcom-57xx/src/autoneg.c:189-435 | when a call reports a running link timer |
| Autoneg.StartsAgain | package/broadcom-57xx/src/autoneg.c:288-414 | an attempt is given up only in ack detect, complete ack and idle detect, and there exactly when matched words of zero are received |
| Autoneg.ZeroStartsAgain | package/broadcom-57xx/src/autoneg.c:147-414 | in a run three samples of zero give it up there |
| Autoneg.LinkReported | package/broadcom-57xx/src/autoneg.c:416-420 | mr_link_ok is set by the call after the one that reached LINK_OK, and stays |
| Autoneg.CompleteReported | package/broadcom-57xx/src/autoneg.c:416-420 | mr_an_complete is set by that call |
| Autoneg.IdleIsSilent | package/broadcom-57xx/src/autoneg.c:382-422 | in idle detect and at LINK_OK SEND_CONFIGS is clear |
| Crc.InitCrc32 | package/ezp-mtd/jffs2root.c:49-64 | entry n is n shifted eight times through the polynomial |
| Crc.PolyIsStandard | package/ezp-mtd/jffs2root.c:52 | the constant has exactly the bits of the generator polynomial of section 3.2.9 of IEEE 802.3, reflected |
| Crc.LookIsSerial | package/ezp-mtd/jffs2root.c:66-72 | one table step is eight steps of the bit-serial register, for signed and unsigned char |
| Crc.Crc32Buf | package/ezp-mtd/jffs2root.c:66-72 | on every buffer the table checksum is the bit-serial one, all ones at the start, no final complement |
| Crc.BurstDetected | package/ezp-mtd/jffs2root.c:66-72 | buffers of one length that differ, within 32 consecutive bits, have different checksums |
| MtdWrite.RunAscends | package/ezp-mtd/mtd.c:628-641 | the erase commands name each block once, in ascending order |
| MtdWrite.EraseAhead | package/ezp-mtd/mtd.c:628-641 | after the loop w <= e < w + erasesize, and everything sent and erased before is intact |
| MtdWrite.WriteOut | package/ezp-mtd/mtd.c:646-654 | a short write stops the program; an error does not, and sends nothing |
| MtdWrite.Write | package/ezp-mtd/mtd.c:591-663 | for every split of the input: bytes go only into erased cells, the rest is untouched, it returns 0 unless an erase was refused or a write was short, and then the flash begins with header and image if and only if no write reported an error |
| MtdWrite.BeginsIfSent | package/ezp-mtd/mtd.c:591-663 | the flash begins with the input if and only if all of it was sent |
| MtdWrite.ErrorGoesUnnoticed | package/ezp-mtd/mtd.c:646-654 | a device whose writes fail: the program returns 0 and the flash does not hold the input |
| Tags.TagList.AddTag | package/bcclient/src/protocols.c:90-108 | a plain entry is added unless the list is full or the data too long; the list stays well formed unless the id becomes TAG_EXTENSION |
| Tags.TagList.AddExtTag | package/bcclient/src/protocols.c:110-132 | an extension entry is added unless the list is full or the cut length too large |
| Tags.TagsToBuffer | package/bcclient/src/protocols.c:62-76 | the buffer holds all tags one after the other, or 0 is returned when they do not fit |
| Tags.HeaderFields | package/bcclient/src/protocols.h:434-443 | every header field is read back from its place, low byte first |
| Tags.MakePacket | package/bcclient/src/protocols.c:26-54 | header and tags in their layout, or 0 when they do not fit |
| Tags.EntrySeen | package/bcclient/src/protocols.c:299-319 | an encoded entry answers exactly to its own id, with its own data |
| Tags.GetTagData | package/bcclient/src/protocols.c:291-323 | on the bytes of any list the data of the first plain or extension entry with the id, cut to the buffer; 0 and an untouched buffer if there is none |
| Tags.Exchange | package/bcclient/src/protocols.c:26-323 | end to end: a list packed, put into a packet and searched answers with what was added first under the id, whenever the buffers are large enough |
| ShellQuote.QuotedReads | package/bcclient/src/bcclient.c:151-223 | by sections 2.2.2 and 2.2.3 of the POSIX Shell Command Language the quoted text is one word equal to the input |
| ShellQuote.QuotedGrows | package/bcclient/src/bcclient.c:156-187 | a longer input has a longer quoted form, so the prefix kept is the longest that fits |
| ShellQuote.Step | package/bcclient/src/bcclient.c:156-187 | a character is added whole, or the output so far can still be closed and no form with the character fits |
| ShellQuote.Quote | package/bcclient/src/bcclient.c:151-223 | every buffer of three or more holds the quoted form of the longest prefix that fits, read back as that prefix; smaller ones give -3 |

## Left out

- malloc, free, sharing of nodes and leaks in expr.c: expressions are trees as values, rewritten level by level instead of through pointers to slots.
- E_RANGE and E_CHOICE nodes, expr_print and expr_compare_type: not part of what the optimiser rewrites.
- menu_finalize: setting symbol types and choice flags and the range warnings (menu.c:206-216, 289-308, 321-338) are left out; the order, the links and the conditions of all entries are in.
- MenuStore.Menus.RewriteKids: the appending to reverse dependencies in the same loop is modelled on values, in the module ReverseDeps, over the finished entries; the pointer is not.
- ReverseDeps.RewrittenIsTree: the order of appending is given by a function that follows the recursion of menu_finalize, not by the loops of MenuStore.
- ReverseDeps.SelectForces: the m that a choice which must be made gets from its own prompt (menu.c:334-338) is left out; it concerns choices only.
- sym_validate_range and sym_string_within_range: range properties only add bounds on single numbers.
- ValueCalculator.Calculator.CalcValue: a choice is not itself a member of another choice; SYMBOL_WRITE, the change marks and sym_validate_range (symbol.c:363) are left out.
- ValueCalculator.Calculator.CalcVisibility: a deselected symbol counts as not selected, while the code keeps the rev_dep.tri it had before (symbol.c:219-220). This differs only if a second evaluation of rev_dep_inv (symbol.c:315) gives another answer, which ranks exclude.
- MemberSetting.AcceptedIsRecomputed: the members of a choice are those in its list, bool or tristate. The values after are those of a solution of the changed declarations; when the value asked for is the one the symbol has, the code stores it without starting a new calculation, so the exceptions show at the next one. For a hidden member set to y the condition is sufficient only: another pick may or may not move its default.
- Choices.FoundInRun: what follows a nested call is any sequence of calls, not the rest of the calculations around it; for these Choices.WinnerIs speaks of whole runs.
- Consistency.RanksIffNoCycle: choices whose defaults are other than members, defaults under a condition that reads the choice itself (see NeedlessWarning) and selected members, whose rev_dep is followed but never read, are excluded; there a warning may be needless.
- Consistency.CheckDeclarations: only declared symbols are read.
- sym_lookup and its hash chains: symbols are given by identity.
- ConfFile.Reader.ReadFile: the update of a choice symbol behind each member line (confdata.c:221-237) and the warnings are left out; a last line that is a lone '#' without newline, where the code looks at old buffer contents, is taken as an ordinary comment.
- ConfFile.RoundTrip: harmful titles and lines over 1023 characters are excluded, because the reader takes the first for settings and breaks up the second.
- ConfWrite.WriteMenus: the flags are those that the calls of sym_calc_value in the loop leave; a symbol keeps its value once it is valid, so they are given from the start. Which menus the walk visits is MenuWalk.Walk; visibility of headings and the values come in as parameters.
- The heading of the file, its time stamp, the renaming of files and conf_read's comparison with saved values: input and output around the printed settings.
- conf.c, mconf.c, kconfig_load.c, util.c, zconf parser: dialogs, processes, loading and parsing.
- Queue: sizes and indices do not wrap at machine width; memory is sequentially consistent at the barriers.
- Receive: the three rings are given by their contents and a push to a full ring is dropped, as the contracts of Queue.Ring say; the chip is one step that moves the oldest free descriptor to the received queue. What indication does with packet data, VLAN tags and checksums is left out.
- Autoneg.LinkTakesTime: CurrentTime_us does not go back and does not wrap during the run.
- Autoneg: the eight invalid bits of a configuration word are one number; registers are the bits the machine uses.
- Crc: words are sequences of bits; the header update of --move and --clean and the Realtek checksum of jffs2root are left out.
- MtdWrite.Write: a read() that fails is left out (its -1 is added to an unsigned length); image_check, image_verify and mtd_erase are left out.
- Tags.GetTagData: packets are those the builders make; on others the code reads beyond the packet. Byte order is any, but the same for writer and reader of extension ids, which the code does not convert.
- Integer and string tag builders in protocols.c: the first differ only in their data, the array builders have length limits of their own.
- ShellQuote.Quote: the input is given as characters other than NUL.
- The rest of b57um.c, other drivers, firmware arrays, mount.cifs.c, ddns.c, ated.c, router.c, encrypt.c: register access, system calls and opaque data.
