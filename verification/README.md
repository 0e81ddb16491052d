# Verified models of the iaxcsi/incsi code base

These Dafny modules model the algorithmic core of the channel-state-information drivers in this repository: the
Kconfig engine, the resizable hash table, the BER decoder and a few dense kernel algorithms that are vendored with
the iwlwifi driver, and the number crunching of the CSI tools. `dafny verify dfyconfig.toml` checks all of them.

| module | models |
|---|---|
| `KconfigExpr` | dependency expressions, symbols and their three-valued meaning (n < m < y; AND is min, OR is max, NOT is 2 - x); every rewriting below is proved against `Value` |
| `KconfigEquality`, `KconfigReflexive` | unit elimination and equality modulo reordering |
| `KconfigDups` | joining duplicate operands in place, in one aliased tree |
| `KconfigTransform` | negation pushing, rewriting into comparisons, and the dependency pipeline of menu_finalize for one condition |
| `KconfigDepends` | the dependencies that menu_finalize hands down the whole tree of entries |
| `KconfigMenu` | relinking of the menu tree (automatic submenus, flattening) and the walk of conf_write |
| `KconfigSymbol` | the memoising evaluator of symbol values as functions on the state of all symbols |
| `KconfigCalls` | what every call of it keeps, seen from symbols that depend on each other only |
| `KconfigValues` | what its results mean: the values solve the equations of the configuration language |
| `KconfigChoice` | choices: exactly one member is y |
| `KconfigCalc` | the evaluator's code, which updates the symbols in place, and what a call, or clearing and asking for all symbols, establishes |
| `KconfigEscape` | writing and reading string values in .config |
| `RHashTable` | inserts, table attachment and rehashing of lib-rhashtable under every interleaving |
| `RHashNested`, `RHashRace` | its nested bucket array, and insertions that race for its pages |
| `Asn1Indefinite`, `Asn1Parsed`, `Asn1Decoder` | the BER decoder against the grammar of ITU-T X.690 (sections 8.1.2, 8.1.3, 8.1.5) |
| `Arc4`, `MulDiv`, `Refcount` | the ARC4 cipher, 64-bit multiply-and-divide, dropping the last reference under a lock |
| `QFunc`, `CsiUnpack` | the Q-function table and its inverse, the unpackers of bit-packed CSI |

An environment is `Consistent` when a bool is never m and nothing is m while MODULES is n; it is `Sane` for the
literals of an expression when, besides, none of them reads as the number of n, m or y (0, 1 or 2, in any base and
spelling). `KconfigSymbol.AllValidConsistent` shows that the evaluator establishes the former; the latter is about the
text of the Kconfig files only, holds for words and where there are no literals (`KconfigDups.WordsAreApart`), and
whenever it holds there are such environments (`KconfigDups.SaneEnvironment`).

## What was found

- Joining `A="2"` and `A!=y` (or `A!="0x2"`) changes the value, since a tristate symbol that is y is compared with
  "2" as the number 2 (`KconfigDups.NumeralFails`, `TwoSpellings`). All joins of expressions with given literals keep
  the value if and only if no literal reads as the number of n, m or y (`KconfigDups.JoinsPreserveValueExactly`).
- expr_transform turns NOT of an ordering into the opposite ordering; for operands that cannot be ordered both are n,
  so the value is kept exactly when the comparison is ordered (`KconfigTransform.NegatedOrdering`); for a symbol A without
  a type, `!(A < A)` is y and becomes n (`UndefinedOrdering`).
- expr_trans_bool drops `!=n` also below a NOT over an m-valued symbol, where it may not; the pipeline of
  menu_finalize never leaves one there (`KconfigTransform.TransBoolUnderNot`, `PropertyCondition`). It is also applied
  to the condition of a `select` by a bool symbol, where the value is used as it is: y may become m
  (`KconfigTransform.SelectWeakened`), and does not if no tested symbol is m (`TransBoolSelect`).
- expr_trans_compare turns `!(A)` compared with n (or y) into a test that is right if and only if A is not m
  (`KconfigTransform.TransCompareUnderNot`). So the "superset" test of menu_finalize may put an item that is m into the
  submenu of a symbol that is hidden (`SupersetFails`).
- A value that the user sets is limited by the visibility and `select`, except when that limit is m, y is implied, and
  the user or a `select` asks for m or y (`KconfigValues.Limits`, with the configuration `ImplyLifts`).
- sym_clear_all_valid calculates MODULES first so that no symbol counts as m while MODULES is n. That fails where
  MODULES depends on a tristate symbol: it is calculated by the old value of MODULES (`KconfigSymbol.ModulesTooLate`).
- A string with a newline is written to .config but not read back (`KconfigEscape.WrittenIsReadBack`).
- mul_u64_u64_div_u64 may wrap in its last, approximate step: 2^62 * 11 / 3, which fits 64 bits, gives 0
  (`MulDiv.WrapsToZero`). It does not where the exact quotient is below 2^64 by more than the error bound
  (`MulDiv.WithinWhenRoom`).
- asn1_ber_decoder takes the octet 00, which X.690 keeps for end-of-contents, as the tag of a value where the program
  lets it: MATCH_ANY accepts 00 00 (`Asn1Decoder.AcceptsEndOfContents`). MATCH_JUMP on a primitive tag accepts a header
  without its contents (`Asn1Decoder.AcceptsHeader`). Whatever else it accepts is a list of data values, and a program
  without such operations accepts nothing else (`Asn1Decoder.Decoder.Run`).

Where code and comments disagree, the code is followed. The comment of expr_eq says that every operand of one
expression equals some operand of the other; the code matches operands one to one. The comment at
lib-asn1_decoder.c:236 says that a constructed expected tag makes the constructed bit mandatory in the data; the code
ignores that bit exactly then.

## Model

| member | source | states |
|---|---|---|
| KconfigExpr.CompareWithTri | iwlwifi/iaxcsi-iwlwifi/kconf/expr.c:1026-1104 | comparing a bool or tristate symbol with y, m or n, although done on strings and parsed numbers, compares the tristate values |
| KconfigExpr.CompareWithLiteral | iwlwifi/iaxcsi-iwlwifi/kconf/expr.c:981-1104 | comparing a bool or tristate symbol with another literal is equality exactly when the literal reads as the number of the symbol's value |
| KconfigEquality.EliminateYnValue | iwlwifi/iaxcsi-iwlwifi/kconf/expr.c:308-389 | eliminating the units y and n keeps the value in every environment |
| KconfigEquality.EliminateYnShape | iwlwifi/iaxcsi-iwlwifi/kconf/expr.c:308-389 | no connective is left with y or n as an operand, the tree never grows, and it shrinks if a connective had its own unit; no NOT is put over a compound |
| KconfigEquality.EliminateYnFixed | iwlwifi/iaxcsi-iwlwifi/kconf/expr.c:308-389 | it leaves alone exactly the expressions in which no connective has y or n as an operand |
| KconfigEquality.WalkSplits | iwlwifi/iaxcsi-iwlwifi/kconf/expr.c:149-215 | the walk takes one common part out of both trees: each input has the value of (common op rest), for one op, in all environments |
| KconfigEquality.EliminateEqSplits | iwlwifi/iaxcsi-iwlwifi/kconf/expr.c:220-246 | the same for the whole elimination, for one of AND and OR |
| KconfigEquality.ExprEqSound | iwlwifi/iaxcsi-iwlwifi/kconf/expr.c:251-295 | expressions found equal have equal values in all environments; the mutual recursion with the elimination ends |
| KconfigEquality.WalkLeavesNothingCommon | iwlwifi/iaxcsi-iwlwifi/kconf/expr.c:149-215 | after the walk no operand of one tree equals an operand of the other, the constants y and n aside |
| KconfigReflexive.ExprEqReflexive | iwlwifi/iaxcsi-iwlwifi/kconf/expr.c:251-295 | every expression, with its operands repeated or nested in any way, is found equal to itself |
| KconfigDups.JoinOrSound | iwlwifi/iaxcsi-iwlwifi/kconf/expr.c:423-485 | a joined pair has the value of the OR |
| KconfigDups.ConstantRule | iwlwifi/iaxcsi-iwlwifi/kconf/expr.c:531-543 | `a=b && a!=c` has the value of `a=b` if and only if a does not equal both b and c |
| KconfigDups.ConstantRuleSound | iwlwifi/iaxcsi-iwlwifi/kconf/expr.c:531-543 | for constants no literal among which is such a number, the rule keeps the value in every consistent environment |
| KconfigDups.JoinAndSound | iwlwifi/iaxcsi-iwlwifi/kconf/expr.c:487-579 | a joined pair has the value of the AND, in consistent environments where no literal of the pair reads as the number of n, m or y |
| KconfigDups.JoinsPreserveValueExactly | iwlwifi/iaxcsi-iwlwifi/kconf/expr.c:487-579 | for any set of literals: the joins of all expressions with these literals keep the value in all consistent environments if and only if none of them reads as the number of n, m or y |
| KconfigDups.NumeralFails | iwlwifi/iaxcsi-iwlwifi/kconf/expr.c:531-543 | for every literal that does read as such a number: two tests whose join has another value |
| KconfigDups.WordsAreApart | iwlwifi/iaxcsi-iwlwifi/kconf/expr.c:991-1024 | literals that do not end in a hex digit are no such numbers, whatever strtoll makes of them |
| KconfigDups.SaneEnvironment | iwlwifi/iaxcsi-iwlwifi/kconf/expr.c:981-1104 | the environments that the theorems below speak of exist, for every set of literals that are no such numbers |
| KconfigDups.TwoSpellings | iwlwifi/iaxcsi-iwlwifi/kconf/expr.c:531-543 | the counterexample: "2" and "0x2" make the join y where the conjunction is n |
| KconfigDups.MergeSound | iwlwifi/iaxcsi-iwlwifi/kconf/expr.c:588-643 | either join, through the operator it is called for |
| KconfigDups.StepJoin | iwlwifi/iaxcsi-iwlwifi/kconf/expr.c:588-643 | overwriting the two slots of a joined pair, which lie in one tree, keeps the value of the whole tree and leaves a unit below the operator |
| KconfigDups.IrreducibleOperands | iwlwifi/iaxcsi-iwlwifi/kconf/expr.c:656-678 | what a pass without a join guarantees: no two operands of one operator can be joined, at any depth |
| KconfigDups.Simplifier.Dups1 | iwlwifi/iaxcsi-iwlwifi/kconf/expr.c:588-643 | the walk of a tree against itself keeps its value, counts its joins, changes nothing if there were none, and then leaves no joinable pair between the two slots |
| KconfigDups.Simplifier.DupsLeaves | iwlwifi/iaxcsi-iwlwifi/kconf/expr.c:588-643 | the same where both slots hold operands |
| KconfigDups.Simplifier.EliminateDups | iwlwifi/iaxcsi-iwlwifi/kconf/expr.c:656-678 | the loop ends, restores the counter, keeps the value in all environments sane for the tree's literals, adds no literal, does not grow the tree, puts no NOT over a compound, and leaves no two joinable operands |
| KconfigTransform.Transform | iwlwifi/iaxcsi-iwlwifi/kconf/expr.c:686-841 | the re-transformation after De Morgan ends: a weight that counts NOT twice never grows |
| KconfigTransform.TransformNormal | iwlwifi/iaxcsi-iwlwifi/kconf/expr.c:686-841 | in the result NOT stands over non-constant symbols only, and no bool symbol is compared with y, m or n for (in)equality |
| KconfigTransform.TransformFixed | iwlwifi/iaxcsi-iwlwifi/kconf/expr.c:686-841 | it leaves alone exactly the normal expressions, and is idempotent |
| KconfigTransform.TransformValue | iwlwifi/iaxcsi-iwlwifi/kconf/expr.c:686-841 | it keeps the value in every consistent environment where the orderings are defined |
| KconfigTransform.NegatedOrdering | iwlwifi/iaxcsi-iwlwifi/kconf/expr.c:718-740 | a negated ordering keeps its value if and only if it is defined |
| KconfigTransform.UndefinedOrdering | iwlwifi/iaxcsi-iwlwifi/kconf/expr.c:718-740 | an ordering that is not, and loses its value |
| KconfigTransform.TransBoolVisibility | iwlwifi/iaxcsi-iwlwifi/kconf/expr.c:394-418 | with no compound under a NOT, dropping `!=n` keeps the visibility after m counts as y |
| KconfigTransform.TransBoolUnderNot | iwlwifi/iaxcsi-iwlwifi/kconf/expr.c:394-418 | under a NOT it is kept if and only if the symbol is not m |
| KconfigTransform.TransBoolSelect | iwlwifi/iaxcsi-iwlwifi/kconf/menu.c:392-412 | in the condition of a `select` the value is kept where no symbol tested for not being n is m |
| KconfigTransform.SelectWeakened | iwlwifi/iaxcsi-iwlwifi/kconf/menu.c:392-412 | and where the tested symbol is m, y becomes m |
| KconfigTransform.RewriteMValue | iwlwifi/iaxcsi-iwlwifi/kconf/menu.c:81-104 | the rewriting gives a literal m the meaning m && MODULES |
| KconfigTransform.Inherit | iwlwifi/iaxcsi-iwlwifi/kconf/menu.c:342-354 | the dependency of an item is the lesser of the inherited one and its own, read with m as m && MODULES |
| KconfigTransform.PropertyCondition | iwlwifi/iaxcsi-iwlwifi/kconf/menu.c:392-398 | the whole pipeline keeps the condition of a property: its value for a tristate symbol, its visibility after m counts as y for any other |
| KconfigTransform.TransCompareValue | iwlwifi/iaxcsi-iwlwifi/kconf/expr.c:914-977 | the comparison built is y if the expression equals the constant (or differs from it) and n otherwise, negated symbols not being m |
| KconfigTransform.TransCompareUnderNot | iwlwifi/iaxcsi-iwlwifi/kconf/expr.c:914-977 | for a negated symbol the comparison with n or y built is right if and only if the symbol is not m |
| KconfigTransform.TransCompareOrdered | iwlwifi/iaxcsi-iwlwifi/kconf/expr.c:914-977 | no undefined ordering is introduced |
| KconfigTransform.NotNo | iwlwifi/iaxcsi-iwlwifi/kconf/menu.c:461-475 | the expression built for "is not n" is y or n accordingly, where no symbol below a NOT is m |
| KconfigTransform.SupersetSound | iwlwifi/iaxcsi-iwlwifi/kconf/menu.c:472-481 | if eliminating common operands reduces the parent's expression to y, the item's is at most the parent's, in all environments |
| KconfigTransform.Superset | iwlwifi/iaxcsi-iwlwifi/kconf/menu.c:448-481 | an item is only taken into a submenu if its dependency is n wherever the parent's is, in environments where no symbol below a NOT is m |
| KconfigTransform.SupersetFails | iwlwifi/iaxcsi-iwlwifi/kconf/menu.c:448-481 | and where one is: a pair of conditions that the test lets pass, of which the item's is m and the parent's is n |
| KconfigTransform.DependsSymbolSound | iwlwifi/iaxcsi-iwlwifi/kconf/expr.c:871-898 | an expression said to depend on a symbol is n wherever the symbol is n |
| KconfigDepends.FinalizeKids | iwlwifi/iaxcsi-iwlwifi/kconf/menu.c:334-424 | over the whole tree: every entry's final dependency is the lesser of what its parent hands down and its own, every condition the lesser of that and its own (its visibility, for a symbol that is not tristate), at any depth |
| KconfigDepends.OffBelow | iwlwifi/iaxcsi-iwlwifi/kconf/menu.c:334-424 | so below a dependency that is n nothing is visible or applies, at any depth |
| KconfigMenu.FinPrompted | iwlwifi/iaxcsi-iwlwifi/kconf/menu.c:567-576 | after finalizing, every node below that has children has a prompt |
| KconfigMenu.TakeExact | iwlwifi/iaxcsi-iwlwifi/kconf/menu.c:425-496 | an automatic submenu holds the longest run of following items that belong to it |
| KconfigMenu.ClimbIsNext | iwlwifi/iaxcsi-iwlwifi/kconf/confdata.c:790-823 | from any node, going down, on, or up through parents leads to the next node in order, or out of the tree after the last |
| KconfigMenu.MenuTree.Finalize | iwlwifi/iaxcsi-iwlwifi/kconf/menu.c:423-577 | the links afterwards are those of the restructured forest, nodes in the same pre-order with right parent, child and sibling pointers; nothing outside the subtree changes |
| KconfigMenu.MenuTree.Gather | iwlwifi/iaxcsi-iwlwifi/kconf/menu.c:423-496 | the same for gathering the children |
| KconfigMenu.MenuTree.FinalizeChildren | iwlwifi/iaxcsi-iwlwifi/kconf/menu.c:423-424 | the loop over a list that grows shorter while its elements take their successors in reaches every child that is left |
| KconfigMenu.MenuTree.AutoSubmenu | iwlwifi/iaxcsi-iwlwifi/kconf/menu.c:425-496 | the items taken become children in their order, and their successor the next sibling |
| KconfigMenu.MenuTree.FlattenChildren | iwlwifi/iaxcsi-iwlwifi/kconf/menu.c:498-577 | children of nodes without a prompt come up in place, order kept |
| KconfigMenu.MenuTree.LiftChildren | iwlwifi/iaxcsi-iwlwifi/kconf/menu.c:567-576 | one node's children, reparented, stand between it and its old successor |
| KconfigMenu.MenuTree.Walk | iwlwifi/iaxcsi-iwlwifi/kconf/confdata.c:790-823 | the walk without a stack ends, and visits every node once, in pre-order |
| KconfigMenu.MenuTree.FinalizeAndWalk | iwlwifi/iaxcsi-iwlwifi/kconf/menu.c:296-577 | menu_finalize on the root and then the walk: nodes with children have prompts, and the walk of the restructured tree meets every node once, in the order of the Kconfig files |
| KconfigSymbol.Calc | iwlwifi/iaxcsi-iwlwifi/kconf/symbol.c:357-498 | sym_calc_value ends on every graph of symbols, cyclic ones included: the choice values waiting, then the symbols not valid, never grow |
| KconfigSymbol.CalcSteps | iwlwifi/iaxcsi-iwlwifi/kconf/symbol.c:357-498 | a call changes only symbols it depends on, keeps the values of valid symbols, and gives m to tristate symbols only and only while MODULES is not n |
| KconfigCalls.CalcHolds | iwlwifi/iaxcsi-iwlwifi/kconf/symbol.c:357-498 | whatever is kept by calls for the symbols of a closed set and by writes to other symbols is kept by a call for any symbol of any graph |
| KconfigCalls.EachHolds | iwlwifi/iaxcsi-iwlwifi/kconf/symbol.c:357-498 | and by any number of calls in any order, which leave the symbols asked for valid |
| KconfigSymbol.CalcKeepsSettled | iwlwifi/iaxcsi-iwlwifi/kconf/symbol.c:357-498 | over any run of calls no valid symbol is m that may not be |
| KconfigSymbol.AllValidConsistent | iwlwifi/iaxcsi-iwlwifi/kconf/symbol.c:357-498 | with all symbols valid the environment is one in which the rewritings keep their meaning |
| KconfigSymbol.ModulesFirst | iwlwifi/iaxcsi-iwlwifi/kconf/symbol.c:500-510 | calculating MODULES first, after all values were invalidated, establishes that, if MODULES depends on no tristate symbol |
| KconfigSymbol.ModulesTooLate | iwlwifi/iaxcsi-iwlwifi/kconf/symbol.c:500-510 | and where it does depend on one: a configuration in which a symbol is left m while MODULES is n |
| KconfigValues.Limits | iwlwifi/iaxcsi-iwlwifi/kconf/symbol.c:401-448 | `select` is a lower limit; the visibility, or `select` if higher, is an upper one for the user's value, except exactly when that limit is m, y is implied, and `select` is m or the user's value is not n |
| KconfigValues.ImplyLifts | iwlwifi/iaxcsi-iwlwifi/kconf/symbol.c:401-448 | a configuration in which it is exceeded |
| KconfigValues.InRange | iwlwifi/iaxcsi-iwlwifi/kconf/symbol.c:155-187 | an int or hex value solving its equation lies in its range, if that is one, if and only if the end that replaces a value outside of it, printed and read again, does |
| KconfigValues.DependenciesSolved | iwlwifi/iaxcsi-iwlwifi/kconf/symbol.c:236-270 | the stored `depends on`, `select` and `imply` values are those of their expressions in the final environment |
| KconfigValues.VisibilitySolved | iwlwifi/iaxcsi-iwlwifi/kconf/symbol.c:209-270 | so is the stored visibility |
| KconfigValues.DefaultSolved | iwlwifi/iaxcsi-iwlwifi/kconf/symbol.c:115-125 | the default found is the first whose condition is not n in the final environment |
| KconfigValues.ClampSolved | iwlwifi/iaxcsi-iwlwifi/kconf/symbol.c:155-187 | the value stored is the nearest one in the first range that applies |
| KconfigValues.CalculateGood | iwlwifi/iaxcsi-iwlwifi/kconf/symbol.c:357-498 | calculating a symbol that is no choice or choice value and does not depend on itself solves its equation, whatever it depends on: choices, their members, and cycles |
| KconfigValues.OptLater | iwlwifi/iaxcsi-iwlwifi/kconf/expr.c:1026-1104 | evaluating an expression makes its symbols valid and keeps what was valid; its result is its meaning then |
| KconfigValues.EachGood | iwlwifi/iaxcsi-iwlwifi/kconf/symbol.c:357-498 | calls for any symbols in any order keep a solved equation solved, and solve that of a symbol that is asked for |
| KconfigValues.ModulesGood | iwlwifi/iaxcsi-iwlwifi/kconf/symbol.c:500-510 | sym_clear_all_valid, which calculates MODULES by its old value, leaves every such symbol unsolved only if it is not valid, MODULES and what it depends on included |
| KconfigValues.EquationsHold | iwlwifi/iaxcsi-iwlwifi/kconf/symbol.c:357-510 | after sym_clear_all_valid, whatever symbols are asked for in whatever order, choices and their members among them: each symbol asked for that is no choice or choice value and does not depend on itself, and MODULES, ends with the value given by visibility, user value, defaults, select, imply and range of the final environment |
| KconfigChoice.ValidExpr | iwlwifi/iaxcsi-iwlwifi/kconf/expr.c:1026-1104 | on valid symbols the memoising evaluation changes nothing and gives the three-valued meaning |
| KconfigChoice.ExprValidates | iwlwifi/iaxcsi-iwlwifi/kconf/expr.c:1026-1104 | on any symbols it makes them valid and gives the meaning in the resulting environment |
| KconfigChoice.PromptsValidate | iwlwifi/iaxcsi-iwlwifi/kconf/symbol.c:209-235 | the visibility of a choice value is that of the resulting environment |
| KconfigChoice.ShownBinary | iwlwifi/iaxcsi-iwlwifi/kconf/symbol.c:219-230 | under a choice that is y no member is visible as m |
| KconfigChoice.ChoiceDefaultPicks | iwlwifi/iaxcsi-iwlwifi/kconf/symbol.c:278-302 | the default is the first one that is on and visible, or else the first visible member, as conditions and visibilities finally are |
| KconfigChoice.ChoicePicks | iwlwifi/iaxcsi-iwlwifi/kconf/symbol.c:304-334 | the user's choice is taken if visible, else the default; the choice stays y if and only if some member is found |
| KconfigChoice.ChoiceCalculated | iwlwifi/iaxcsi-iwlwifi/kconf/symbol.c:357-498 | a calculated choice that is y names that member |
| KconfigChoice.ExprReaches | iwlwifi/iaxcsi-iwlwifi/kconf/expr.c:1026-1104 | evaluating a condition that mentions a choice not calculated yet calculates the choice on the way, and gives the meaning in the resulting environment |
| KconfigChoice.MemberForcesChoice | iwlwifi/iaxcsi-iwlwifi/kconf/symbol.c:209-235 | so a member asked for before its choice has the choice calculated from inside its own visibility, and comes out right by it |
| KconfigChoice.MemberCalculated | iwlwifi/iaxcsi-iwlwifi/kconf/symbol.c:396-400 | a member calculated under it is y if chosen and n otherwise, no other value changes, and it keeps its visibility |
| KconfigChoice.MemberElsewhere | iwlwifi/iaxcsi-iwlwifi/kconf/symbol.c:357-498 | under a choice that is not y calculating a member leaves the choice as it is |
| KconfigChoice.OneMore | iwlwifi/iaxcsi-iwlwifi/kconf/symbol.c:357-498 | calculating the choice, a member, or a symbol they depend on, at any time, keeps the members calculated so far right |
| KconfigChoice.EachKeeps | iwlwifi/iaxcsi-iwlwifi/kconf/symbol.c:357-498 | so do calls for any symbols in any order, those that read the choice or its members among them |
| KconfigChoice.ExactlyOneMember | iwlwifi/iaxcsi-iwlwifi/kconf/symbol.c:278-498 | whatever symbols are asked for in whatever order, all members of a choice among them, a member before its choice too: of a choice that comes out y exactly one member is y, a visible one and the one to pick |
| KconfigChoice.ChoiceAfterClearing | iwlwifi/iaxcsi-iwlwifi/kconf/confdata.c:785-823 | the same from the state after sym_clear_all_valid; conf_write's walk skips the choice and asks for its members and all other symbols |
| KconfigCalc.Symbols.CalcExpr | iwlwifi/iaxcsi-iwlwifi/kconf/expr.c:1026-1104 | the recursion on the mutable state, sym_get_string_value's call for MODULES included, computes the functions to which the theorems above apply |
| KconfigCalc.CalcSolves | iwlwifi/iaxcsi-iwlwifi/kconf/symbol.c:357-498 | a call for any symbol keeps every solved equation solved, and the members of every choice right; and the symbol is valid and solved then |
| KconfigCalc.CallsSolve | iwlwifi/iaxcsi-iwlwifi/kconf/symbol.c:357-510 | from any state in which nothing is valid, after any calls whatever: the equations of the symbols asked for are solved, and every choice that is y and whose members were asked for has exactly one member that is y |
| KconfigCalc.Symbols.GetDefaultProp | iwlwifi/iaxcsi-iwlwifi/kconf/symbol.c:115-125 | the loop finds the recursively defined first default |
| KconfigCalc.Symbols.GetRangeProp | iwlwifi/iaxcsi-iwlwifi/kconf/symbol.c:127-137 | likewise the first range |
| KconfigCalc.Symbols.GetChoiceDefault | iwlwifi/iaxcsi-iwlwifi/kconf/symbol.c:278-302 | both loops together find the recursively defined default member |
| KconfigCalc.Symbols.FindChoice | iwlwifi/iaxcsi-iwlwifi/kconf/symbol.c:304-334 | the loop over the members and the choice after it |
| KconfigCalc.Symbols.SetAllChoiceValues | iwlwifi/iaxcsi-iwlwifi/kconf/confdata.c:1103-1121 | the members without a user value are set to n, and the choice must be calculated again |
| KconfigCalc.Symbols.CalcValue | iwlwifi/iaxcsi-iwlwifi/kconf/symbol.c:357-498 | sym_calc_value as a whole ends, with the functions' measure, solves the symbol's equation, and keeps all other equations solved and the members of all choices right |
| KconfigCalc.Symbols.ClearAllValid | iwlwifi/iaxcsi-iwlwifi/kconf/symbol.c:500-510 | afterwards MODULES is solved, and so is whatever became valid with it; choices wait to be calculated; and no symbol is m while MODULES is n, if MODULES depends on no tristate symbol |
| KconfigCalc.Symbols.CalcAll | iwlwifi/iaxcsi-iwlwifi/kconf/confdata.c:785-823 | clearing and then asking for any symbols in any order, as conf_write does with all but the choices: the equations of those asked for are solved, and every choice that is y and whose members were asked for has exactly one member that is y |
| KconfigEscape.UnescapeEscaped | iwlwifi/iaxcsi-iwlwifi/kconf/confdata.c:161-182 | reading undoes escaping, whatever stands before and after |
| KconfigEscape.QuoteRoundTrip | iwlwifi/iaxcsi-iwlwifi/kconf/symbol.c:962-1003 | every string is read back from its quoted form |
| KconfigEscape.QuotedInjective | iwlwifi/iaxcsi-iwlwifi/kconf/symbol.c:962-1003 | different strings are written differently |
| KconfigEscape.WrittenIsReadBack | iwlwifi/iaxcsi-iwlwifi/kconf/confdata.c:487-505 | the line written is read back as the string if and only if the string has no newline |
| KconfigEscape.EscapedSize | iwlwifi/iaxcsi-iwlwifi/kconf/symbol.c:962-982 | the size computed in advance is that of the quoted string with its terminator |
| KconfigEscape.EscapeStringValue | iwlwifi/iaxcsi-iwlwifi/kconf/symbol.c:962-1003 | the buffer of that size is filled exactly by the quoted string |
| KconfigEscape.SetStringValue | iwlwifi/iaxcsi-iwlwifi/kconf/confdata.c:161-182 | unescaping by moving the rest of the buffer down computes the value read, and touches nothing beyond the line's value |
| RHashTable.InvStep | iwlwifi/iaxcsi-iwlwifi/compat/lib-rhashtable.c:224-349 | every single store, lock and read by the worker or an inserter keeps the invariant on chains, locks, tables and keys |
| RHashTable.InvRun | iwlwifi/iaxcsi-iwlwifi/compat/lib-rhashtable.c:224-349 | so does every run, however interleaved |
| RHashTable.NothingLost | iwlwifi/iaxcsi-iwlwifi/compat/lib-rhashtable.c:224-349 | at every moment of every run each inserted element is reachable from ht->tbl, no two have one key, and buckets of superseded tables and drained buckets stay empty |
| RHashTable.CurrentGrows | iwlwifi/iaxcsi-iwlwifi/compat/lib-rhashtable.c:295-349 | tables are only superseded by later ones, and insertions are for good |
| RHashTable.InsertAnswers | iwlwifi/iaxcsi-iwlwifi/compat/lib-rhashtable.c:487-627 | an insert answers EEXIST only with an inserted element of its key, and stores only when there is none |
| RHashTable.AbsentRulesOut | iwlwifi/iaxcsi-iwlwifi/compat/lib-rhashtable.c:587-627 | an inserter that found its key absent from one bucket needs to look into later tables only |
| RHashTable.RehashNotStuck | iwlwifi/iaxcsi-iwlwifi/compat/lib-rhashtable.c:224-293 | the worker holding an old bucket can always go on, and is done with it if and only if it is empty |
| RHashTable.MoveConserves | iwlwifi/iaxcsi-iwlwifi/compat/lib-rhashtable.c:224-272 | moving takes the last element of the old chain to the head of the new one, and nothing else |
| RHashNested.GeometryFacts | iwlwifi/iaxcsi-iwlwifi/compat/lib-rhashtable.c:147-173 | for every size that can be nested: the words of the top page times those of the pages below give the buckets |
| RHashNested.AddressOfHash | iwlwifi/iaxcsi-iwlwifi/compat/lib-rhashtable.c:1174-1201 | the indices taken from a hash are in range and determine it |
| RHashNested.HashOfAddress | iwlwifi/iaxcsi-iwlwifi/compat/lib-rhashtable.c:1174-1201 | conversely every path of indices belongs to one hash |
| RHashNested.DigitsAreShifts | iwlwifi/iaxcsi-iwlwifi/compat/lib-rhashtable.c:1174-1201 | those indices are what the code's shifts and masks compute |
| RHashNested.WalkEnds | iwlwifi/iaxcsi-iwlwifi/compat/lib-rhashtable.c:1174-1201 | a bucket that is there has all pages above it, and is in a page initialised as buckets |
| RHashNested.SlotsDistinct | iwlwifi/iaxcsi-iwlwifi/compat/lib-rhashtable.c:1174-1240 | distinct hashes have distinct slots |
| RHashNested.NestedTable.Lookup | iwlwifi/iaxcsi-iwlwifi/compat/lib-rhashtable.c:1174-1201 | finds the slot of the hash, or none if a page is missing |
| RHashNested.NestedTable.Alloc | iwlwifi/iaxcsi-iwlwifi/compat/lib-rhashtable.c:122-145 | alone, it adds at most one page, under the word given, as buckets if and only if at the last level; calls that race are in `RHashRace` |
| RHashNested.NestedTable.Insert | iwlwifi/iaxcsi-iwlwifi/compat/lib-rhashtable.c:1214-1240 | leads to the slot that lookup finds from then on; only pages on that path are new |
| RHashNested.NestedTable.FreeWord | iwlwifi/iaxcsi-iwlwifi/compat/lib-rhashtable.c:75-92 | releases each page below a word once, and no other |
| RHashNested.NestedTable.FreeAll | iwlwifi/iaxcsi-iwlwifi/compat/lib-rhashtable.c:94-107 | releases each page of the table once, and no other |
| RHashRace.InvStep | iwlwifi/iaxcsi-iwlwifi/compat/lib-rhashtable.c:122-145 | every load, allocation, cmpxchg and kfree by any number of racing insertions keeps the tree well-formed, and each page in the tree, with one call, or freed |
| RHashRace.InvRun | iwlwifi/iaxcsi-iwlwifi/compat/lib-rhashtable.c:122-145 | so does every run, however interleaved |
| RHashRace.OnwardRun | iwlwifi/iaxcsi-iwlwifi/compat/lib-rhashtable.c:1214-1240 | over every run pages in the tree stay where they are, and so does what a call has found |
| RHashRace.FoundSlots | iwlwifi/iaxcsi-iwlwifi/compat/lib-rhashtable.c:1214-1240 | in every run from the empty tree: a call that ends well ends at the slot that lookup finds; two calls have one slot if and only if they have one hash |
| RHashRace.NothingLeaks | iwlwifi/iaxcsi-iwlwifi/compat/lib-rhashtable.c:122-145 | when all calls of a run from the empty tree are over, each page allocated is in the tree or was freed, exactly one of these, and once |
| RHashRace.FailStep | iwlwifi/iaxcsi-iwlwifi/compat/lib-rhashtable.c:122-145 | a call fails exactly if it got no memory and the word was still empty at its cmpxchg |
| RHashRace.NoneFails | iwlwifi/iaxcsi-iwlwifi/compat/lib-rhashtable.c:1214-1240 | in every run from the empty tree in which memory can be had no call fails |
| RHashRace.EndsInSteps | iwlwifi/iaxcsi-iwlwifi/compat/lib-rhashtable.c:1214-1240 | no call waits for another, and each is over after at most five steps of its own for every page |
| Asn1Indefinite.ReadLength | iwlwifi/iaxcsi-iwlwifi/compat/lib-asn1_decoder.c:112-116 | up to 7 octets are read big-endian without overflow of a size_t |
| Asn1Indefinite.ReadHeader | iwlwifi/iaxcsi-iwlwifi/compat/lib-asn1_decoder.c:72-112 | the code's header is the function's, errors included |
| Asn1Indefinite.FindIndefiniteLength | iwlwifi/iaxcsi-iwlwifi/compat/lib-asn1_decoder.c:57-140 | the loop with a level counter computes the scan, errors included |
| Asn1Indefinite.HeaderComplete | iwlwifi/iaxcsi-iwlwifi/compat/lib-asn1_decoder.c:72-116 | valid identifier and length octets of X.690 are read as such |
| Asn1Indefinite.HeaderSound | iwlwifi/iaxcsi-iwlwifi/compat/lib-asn1_decoder.c:72-116 | what is read as a header is valid |
| Asn1Indefinite.ScanElement | iwlwifi/iaxcsi-iwlwifi/compat/lib-asn1_decoder.c:57-140 | at any level the flat scan passes over exactly one nested data value |
| Asn1Indefinite.ScanAll | iwlwifi/iaxcsi-iwlwifi/compat/lib-asn1_decoder.c:57-140 | and over a list of them |
| Asn1Indefinite.ScanSound | iwlwifi/iaxcsi-iwlwifi/compat/lib-asn1_decoder.c:57-140 | a scan that succeeds has passed lists of data values, one for each open level, each closed by end-of-contents |
| Asn1Indefinite.ScanExact | iwlwifi/iaxcsi-iwlwifi/compat/lib-asn1_decoder.c:57-140 | the scan succeeds with an end if and only if the octets up to it are data values followed by end-of-contents |
| Asn1Parsed.ClosedElement | iwlwifi/iaxcsi-iwlwifi/compat/lib-asn1_decoder.c:386-431 | a header with complete contents, closed as the decoder closes it, is one data value |
| Asn1Parsed.ParsedMove | iwlwifi/iaxcsi-iwlwifi/compat/lib-asn1_decoder.c:200-465 | every round keeps the octets read so far a list of data values with the headers of open ones between |
| Asn1Parsed.IndefiniteAt | iwlwifi/iaxcsi-iwlwifi/compat/lib-asn1_decoder.c:327-337 | a value whose end the scan has found is one data value |
| Asn1Parsed.ElementHead | iwlwifi/iaxcsi-iwlwifi/compat/lib-asn1_decoder.c:233-256 | no data value begins with the octet 00 |
| Asn1Parsed.FirstLength | iwlwifi/iaxcsi-iwlwifi/compat/lib-asn1_decoder.c:258-286 | a data value with a short definite length has exactly that many octets of contents |
| Asn1Decoder.NestedPush | iwlwifi/iaxcsi-iwlwifi/compat/lib-asn1_decoder.c:288-303 | stacking keeps every open value inside the one around it |
| Asn1Decoder.NestedPop | iwlwifi/iaxcsi-iwlwifi/compat/lib-asn1_decoder.c:391-431 | unstacking restores the end that was in force outside, for definite and indefinite values alike |
| Asn1Decoder.Decoder.ReadContentLength | iwlwifi/iaxcsi-iwlwifi/compat/lib-asn1_decoder.c:260-286 | a length is accepted if and only if the header fits: valid X.690 length octets, at most 3 of them, of contents within the data; the value and the header size are those of the header |
| Asn1Decoder.Decoder.PushCons | iwlwifi/iaxcsi-iwlwifi/compat/lib-asn1_decoder.c:288-303 | fails if and only if 10 values are open; otherwise stacks start, header size and enclosing end |
| Asn1Decoder.Decoder.OpenElement | iwlwifi/iaxcsi-iwlwifi/compat/lib-asn1_decoder.c:258-307 | it goes on exactly if the header fits and an expected value can be stacked; then the cursor stands behind that header, and a constructed value is open if expected |
| Asn1Decoder.Decoder.ReadTag | iwlwifi/iaxcsi-iwlwifi/compat/lib-asn1_decoder.c:212-257 | exactly when an operation is skipped, and exactly when its tag is matched |
| Asn1Decoder.Decoder.MatchTag | iwlwifi/iaxcsi-iwlwifi/compat/lib-asn1_decoder.c:212-308 | both together: exactly when an operation is skipped, with nothing changed, and exactly when a header of the expected tag is read |
| Asn1Decoder.Decoder.AtEnd | iwlwifi/iaxcsi-iwlwifi/compat/lib-asn1_decoder.c:401-431 | an open value is closed if and only if its definite end is reached, or end-of-contents stands there; a list goes on only where it is not over |
| Asn1Decoder.Decoder.Pop | iwlwifi/iaxcsi-iwlwifi/compat/lib-asn1_decoder.c:394-403 | the stacks stay in order |
| Asn1Decoder.Decoder.End | iwlwifi/iaxcsi-iwlwifi/compat/lib-asn1_decoder.c:380-444 | exactly when an END operation succeeds; a definite value is closed with the cursor at its declared end, and the action gets the start and length of its contents |
| Asn1Decoder.Decoder.OtherOp | iwlwifi/iaxcsi-iwlwifi/compat/lib-asn1_decoder.c:366-465 | exactly when each operation succeeds; RETURN goes to the address stacked last |
| Asn1Decoder.Decoder.AfterMatch | iwlwifi/iaxcsi-iwlwifi/compat/lib-asn1_decoder.c:310-364 | a matched leaf is passed over whole, and is one data value if and only if its tag is not 00; a jump stacks the next operation |
| Asn1Decoder.Decoder.Proceed | iwlwifi/iaxcsi-iwlwifi/compat/lib-asn1_decoder.c:310-364 | where a matched operation leads, and what it makes of the data: one data value, an open one, or, exactly if the round is irregular, neither |
| Asn1Decoder.Decoder.Match | iwlwifi/iaxcsi-iwlwifi/compat/lib-asn1_decoder.c:212-364 | a matching operation as a whole: exactly when it goes through, and where it leads |
| Asn1Decoder.Decoder.NextOp | iwlwifi/iaxcsi-iwlwifi/compat/lib-asn1_decoder.c:200-465 | for every program and data: dp <= datalen <= length, starts behind the cursor, ends nested, both stacks within 10; exactly when a matching operation goes through, RETURN finds an address, and the decoder is done; and what the round made of the data |
| Asn1Decoder.Decoder.RegularMatch | iwlwifi/iaxcsi-iwlwifi/compat/lib-asn1_decoder.c:212-364 | in a program without MATCH_ANY, tags that are 0 and jumps into primitive values no round is irregular, whatever the data |
| Asn1Decoder.Decoder.Run | iwlwifi/iaxcsi-iwlwifi/compat/lib-asn1_decoder.c:167-518 | all that over whole runs, with a trace of the tags matched; if no round of the trace was irregular, what is accepted is a list of whole BER data values; so it is for every program without the operations above |
| Asn1Decoder.AcceptsEndOfContents | iwlwifi/iaxcsi-iwlwifi/compat/lib-asn1_decoder.c:212-364 | the program MATCH_ANY, COMPLETE accepts the octets 00 00, which are no data value |
| Asn1Decoder.AcceptsHeader | iwlwifi/iaxcsi-iwlwifi/compat/lib-asn1_decoder.c:338-352 | a MATCH_JUMP on INTEGER accepts the header 02 01 without the contents |
| Arc4.Schedule | iwlwifi/iaxcsi-iwlwifi/compat/lib-crypto-arc4.c:13-34 | for every key the table is a permutation of 0..255 throughout |
| Arc4.RoundIsNext | iwlwifi/iaxcsi-iwlwifi/compat/lib-crypto-arc4.c:53-67 | one round on the preloaded table entries is one step of the textbook generator, with its output |
| Arc4.CipherChunks | iwlwifi/iaxcsi-iwlwifi/compat/lib-crypto-arc4.c:37-71 | encrypting in chunks, resuming from the stored state, encrypts the concatenation |
| Arc4.CipherInvolution | iwlwifi/iaxcsi-iwlwifi/compat/lib-crypto-arc4.c:37-71 | encrypting twice from one state gives the text back |
| Arc4.Context.SetKey | iwlwifi/iaxcsi-iwlwifi/compat/lib-crypto-arc4.c:13-34 | establishes the textbook start state of the key |
| Arc4.Context.Round | iwlwifi/iaxcsi-iwlwifi/compat/lib-crypto-arc4.c:53-67 | the pipelined round, with ta re-read or taken over, preloads the entries of the next one also when they were just swapped |
| Arc4.Context.Rounds | iwlwifi/iaxcsi-iwlwifi/compat/lib-crypto-arc4.c:53-67 | the loop of pipelined rounds, whose last load is dropped, reaches the textbook state and output |
| Arc4.Context.Crypt | iwlwifi/iaxcsi-iwlwifi/compat/lib-crypto-arc4.c:37-71 | the output is the textbook cipher text, the stored state the textbook state after it, the rest of the buffer untouched |
| MulDiv.ProductFits | iwlwifi/iaxcsi-iwlwifi/compat/backport-5.9.c:7-44 | no overflow where the code multiplies at once |
| MulDiv.ShiftedFits | iwlwifi/iaxcsi-iwlwifi/compat/backport-5.9.c:7-44 | nor after the shift that drops precision |
| MulDiv.QuotientSplits | iwlwifi/iaxcsi-iwlwifi/compat/backport-5.9.c:7-44 | the quotient is the quotient of b times a, plus that of the remainder |
| MulDiv.ApproximationBound | iwlwifi/iaxcsi-iwlwifi/compat/backport-5.9.c:7-44 | the approximation is within a/(c >> shift) + 1 of the exact quotient |
| MulDiv.LostRemainder | iwlwifi/iaxcsi-iwlwifi/compat/backport-5.9.c:7-44 | where the shifted divisor is 0, less than a is lost |
| MulDiv.WithinExactly | iwlwifi/iaxcsi-iwlwifi/compat/backport-5.9.c:7-44 | for a quotient that fits, the 64-bit result is within that bound if and only if the approximation does not wrap |
| MulDiv.WithinWhenRoom | iwlwifi/iaxcsi-iwlwifi/compat/backport-5.9.c:7-44 | it is whenever the exact quotient and the bound together are below 2^64 |
| MulDiv.WrapsToZero | iwlwifi/iaxcsi-iwlwifi/compat/backport-5.9.c:7-44 | the counterexample 2^62 * 11 / 3 |
| MulDiv.MulDivU64 | iwlwifi/iaxcsi-iwlwifi/compat/backport-5.9.c:7-44 | the code: exact modulo 2^64 where no precision is dropped, and otherwise as above |
| Refcount.InvStep | iwlwifi/iaxcsi-iwlwifi/compat/lib-refcount.c:75-95 | every access to counter or lock by any thread keeps the invariant that ties the count to the references held |
| Refcount.InvRun | iwlwifi/iaxcsi-iwlwifi/compat/lib-refcount.c:75-159 | so does every run |
| Refcount.ZeroOnlyUnderLock | iwlwifi/iaxcsi-iwlwifi/compat/lib-refcount.c:114-126 | the count drops to 0 only from 1, by a thread that holds the lock and then returns true still holding it |
| Refcount.CallEnds | iwlwifi/iaxcsi-iwlwifi/compat/lib-refcount.c:145-159 | a call gives up exactly one reference, once, and returns false without the lock |
| Refcount.OneWinner | iwlwifi/iaxcsi-iwlwifi/compat/lib-refcount.c:114-159 | in every run at most one call returns true: one if and only if the count is 0, and one when all references are gone |
| Refcount.NoUnderflow | iwlwifi/iaxcsi-iwlwifi/compat/lib-refcount.c:75-95 | neither the saturation nor the underflow branch is taken |
| Refcount.NotStuck | iwlwifi/iaxcsi-iwlwifi/compat/lib-refcount.c:75-159 | a thread in a call can go on, or waits for the holder of the lock, who can |
| QFunc.QfuncSqrt | csi/incsi/cpp/q_approx.c:394-421 | the branches on exponent and mantissa look up the entry of the bit pattern shifted right and rounded |
| QFunc.Antitone | csi/incsi/cpp/q_approx.c:394-421 | a larger non-negative argument never has a larger result |
| QFunc.EncodeRoundTrip | csi/incsi/cpp/q_approx.c:423-449 | the argument built from an index is looked up at that index |
| QFunc.LargestEntry | csi/incsi/cpp/q_approx.c:423-449 | the entry at the index found is the largest not exceeding the error rate |
| QFunc.Threshold | csi/incsi/cpp/q_approx.c:423-449 | an argument has a result not above the error rate if and only if it rounds to the index found or a later one |
| QFunc.QfuncInvSqrd | csi/incsi/cpp/q_approx.c:423-449 | the binary search ends with that index; small, negative and NaN patterns take their own branches |
| CsiUnpack.PositionFits | csi/incsi/matlab/i53-csi-libs/read_bfee.c:22-56 | for every number of antennas no sample lies beyond calc_len octets |
| CsiUnpack.ShiftInHolds | csi/incsi/cpp/bf_to_eff.c:292-313 | shifting the next word into the current one gives the bits at the unaligned position |
| CsiUnpack.TwoWords | csi/incsi/cpp/bf_to_eff.c:366-468 | the pair of words holds the samples of a subcarrier wherever it begins |
| CsiUnpack.ThreeWords | csi/incsi/cpp/bf_to_eff.c:550-579 | so does the triple |
| CsiUnpack.StoreRow | csi/incsi/cpp/bf_to_eff.c:292-313 | from such bits the row of signed samples is filled, the rows before kept |
| CsiUnpack.Unpack11 | csi/incsi/cpp/bf_to_eff.c:292-313 | every sample is the signed octet at bit 3 + i * (16 N + 3) + 8 j, for one antenna pair |
| CsiUnpack.Unpack31 | csi/incsi/cpp/bf_to_eff.c:366-387 | for three pairs |
| CsiUnpack.Unpack32 | csi/incsi/cpp/bf_to_eff.c:442-468 | for six pairs |
| CsiUnpack.Unpack33 | csi/incsi/cpp/bf_to_eff.c:550-579 | for nine pairs |
| CsiUnpack.SplicedOctet | csi/incsi/matlab/i53-csi-libs/read_bfee.c:38-50 | two promoted octets shifted together and truncated are the octet at the unaligned position |
| CsiUnpack.ReadPairs | csi/incsi/matlab/i53-csi-libs/read_bfee.c:38-52 | the loops read all samples, real and imaginary, within the payload |
| CsiUnpack.ReadBfee | csi/incsi/matlab/i53-csi-libs/read_bfee.c:22-56 | a record is refused if and only if its declared length is not calc_len; otherwise as above |
| CsiUnpack.BeyondIgnored | csi/incsi/cpp/bf_to_eff.c:292-579 | what a last word load reads behind the payload has no effect on any sample |
| CsiUnpack.UnpackersAgree | csi/incsi/cpp/bf_to_eff.c:292-579 | the word-shifting and the octet-shifting unpackers extract the same samples |

## Left out

Kconfig:
- The simplifiers other than eliminate_dups rewrite trees through `struct expr **`; where the trees are disjoint (eliminate_eq, eliminate_yn, transform) they are functions from trees to trees, and freeing of nodes is not modelled. eliminate_dups, where slots alias, works on one mutable tree.
- E_LIST, E_RANGE and E_NONE operands, which do not occur in dependencies, and operands that are symbols of type S_OTHER in the theorems that say so.
- KconfigTransform.TransCompareValue: is stated for negated symbols that are not m, for which alone the comparison is exact.
- KconfigMenu: the dependency tests of menu_finalize enter as one answer for each pair of parent and item; what the tests compute is in KconfigTransform. The bookkeeping of choice values (menu.c:499-538) and warnings are not modelled, nor is the joining of the conditions of all selects and implies of one symbol (menu.c:404-412).
- KconfigDepends.FinalizeKids: is on the parsed tree as a value; the types that a choice gives to its members are taken as set.
- KconfigSymbol: SYMBOL_CHANGED flags, warnings, the memory of strings, and the cached `visible.tri` of properties; strtoll, strtoull and sprintf are parameters.
- KconfigSymbol.ModulesFirst: is for a MODULES that depends on no tristate symbol; a dependency that happens to be harmless is not singled out.
- KconfigValues.EquationsHold: is about symbols other than choices and choice values, whose values KconfigChoice is about, that do not depend on themselves; sym_check_deps, which reports cycles, is not modelled. MODULES, if declared, is a bool that depends on no tristate symbol, without which it fails (KconfigSymbol.ModulesTooLate). At the start only tristate symbols are m, which every call keeps so.
- KconfigChoice.ExactlyOneMember: is for members without defaults that do not depend on each other, whose prompts mention their choice, as menu_finalize makes them, or are n, for choice defaults that are members, and for a MODULES that does not depend on the choice. What the members are under a choice that is m or n is not stated.
- In both, each choice value has one choice, as menu_finalize makes it (menu.c:499-538), and no choice values wait to be set (SYMBOL_NEED_SET_CHOICE_VALUES, which conf_set_all_new_symbols sets).
- KconfigCalc.Symbols.CalcAll: conf_write clears only if the configuration is not marked as changed (confdata.c:786-787); otherwise it goes on from the values there are, which `CalcValue` keeps solved.
- Values cached while sym_set_tristate_value leaves a value unchanged, where the code does not invalidate.
- KconfigEscape.WrittenIsReadBack: is for names without `=` and newline; of conf_read_simple only the splitting of one line is modelled, and sym_string_valid for numbers is not.
- User interfaces (conf, mconf), help texts, the other writers of confdata.c.

Hash table:
- rhlist mode, removal, readers and walkers, whose code is in headers that are not part of this model; growth decisions and nelems; allocation failures other than those of pages; lockdep, RCU and weak memory (sequential consistency is assumed, locks are atomic steps).

BER decoder:
- What action functions do: their result is a parameter of each round. Which octets a program that is not the compiler's reads behind its end or behind the table of opcode lengths is arbitrary.
- Termination for arbitrary programs, which may jump in circles; a run is any number of rounds.
- The rule of X.690, section 8.1.2.4.2, that the first octet of a long tag number is not 80, which the code does not check.
- Identity of errno values: every failure of the decoder is EBADMSG in the code and named here.

Small algorithms:
- Arc4.Context.SetKey: the key has at least one octet; the code divides by the key length.
- Refcount: the helpers of the header are taken to add one below INT_MAX and to decrement an unsaturated count; refcount_dec_and_mutex_lock and refcount_dec_and_lock differ only in the kind of lock, and are one machine here.
- MulDiv.MulDivU64: ilog2 of 0 is -1, as fls64(0) - 1.

CSI:
- QFunc.QfuncSqrt: the literal tables are parameters with the properties the module names; arguments are bit patterns.
- CsiUnpack: memory behind the payload, into which the last word loads reach (1, 1, 3 and 5 octets), is there and arbitrary; header fields other than the numbers of antennas and the length are not read.
- The floating-point chain from samples to SNR and bit error rates, the power tables, and all drivers and network programs.
