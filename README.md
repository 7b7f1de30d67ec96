# Food-ordering constraint manager, modelled in Dafny

The program is a small constraint-management layer for a food-ordering puzzle:
- Four people (Adam, Bobby, Cathy, Dean) each pick one fruit from the Fruit Shop (Papaya, Quenepa, Rambutan, Salak).
- Bobby also picks a dish from the Dish Shop (Pasta, Risotto).
- The rules live in an ordered list of constraint records. Each record has a free-text `type` tag, the people, a shop, optional items, descriptions and an `is_default` flag.
- The records are compiled into a CP-SAT model over the integer variables `x[0..3]` and `y[0]`. The solver enumerates every solution.

This project models the logic around that model, in Dafny:
- **Domain, Primitives.** The people, shops and item codes. The solver model is a sequence of primitive posts (`==`, `!=`, exactly-one) with a satisfaction predicate over total assignments.
- **Rules.** The twelve tags a record can carry. The source tests them in two ways: by substring (`'x' in type`) and by equality (`type == 'x'`). This module also holds the records, the de-duplication key, and the start-up records: the four defaults and Bobby's dish rule.
- **Conflicts.** `check_constraint_conflicts`, as a pure function with lemmas on ordering, relational and item conflicts.
- **Builder.** `rebuild_model`, as a loop method proved against the specification function `Compiled`. It de-duplicates on the first applied key. A record whose translation raises keeps what it posted and does not block later records. Each translated record's posts mean what the record says (`Meaning`).
- **Requests, Resolution, Session.** The add-constraint dialog after its prompts:
  - it turns the menu answers into a candidate record and posts incremental primitives into the live model (the two ordering choices post nothing);
  - it runs the conflict check;
  - it removes the reported records, asking before a default is removed;
  - it appends the candidate, and rebuilds only when there were conflicts.

  `SolverSession` is a class holding the store and the live model. Its methods are proved equal to the specification `AddSpec`.
- **Enumerate.** The search for all solutions, done as brute force over the 4^4 * 2 assignments. It also holds `SolutionPrinter`, whose callback counts the solutions and lays out one row of `Selected`/`N/A` per displayed person and shop. The solutions dialog searches a copy of the live model with an optional item filter added.

The model reproduces the source's quirks rather than fixing them. Each one is stated as a lemma:
- Tags written by the dialog are not the exact tags the equality tests look for:
  - a duplicate same-selection goes unreported;
  - a must-select against a default cannot-select goes unreported;
  - more generally, an item choice of the dialog is never reported at all, since the item check wants the exact tag `must_select`.
- A declined override keeps the removals already made. The candidate's posts also stay in the live model.
- The no-conflict path does not rebuild. Bobby's Dish Shop item rules hold in the live model but vanish at the next rebuild.
- The two ordering choices of the add dialog contain "from specific shop", so they take the dialog's first branch (line 587) and never reach the branch written for them (lines 647-706):
  - they post nothing, show no error, and store the menu tag with an empty description;
  - the conflict check never reports them, either as the candidate or as a stored record;
  - a Fruit Shop must-not-order leaves the live model as it was, yet every rebuild of the store afterwards has no solution.

## Model

| member | source | states |
|---|---|---|
| Domain.Index | main.py:418 | each person's index is their position in `default_person` |
| Domain.Code | main.py:421-424 | an item has a code in a shop exactly when it is in that shop's dictionary, and the code is its position |
| Domain.Codes | main.py:328-332 | the codes of a list of shop items, element by element |
| Domain.CatalogCodes | main.py:421-424 | a shop's whole catalogue has the codes 0 .. n-1 in dictionary order |
| Rules.Dispatch | main.py:328-366 | the rebuild's if-chain picks a base rule the tag contains, and it is the only one the tag contains |
| Rules.MentionsIsSubstring | main.py:328-366 | the containment table is exactly the substring test on the tag texts: a tag contains a base name when the table says so, and only then, for all twelve tags and six base names |
| Rules.TagInjective | main.py:168 | tag strings are equal exactly when the kinds are equal |
| Conflicts.ReportsFor | main.py:162-230 | one existing record yields at most two reports, each pointing at that record |
| Conflicts.Detect | main.py:159-232 | at most two reports per existing record, and every reported record is an element of the existing list |
| Conflicts.DetectConcat | main.py:161-232 | the reports for a concatenation are the reports for each part, in list order |
| Conflicts.DetectSingle | main.py:161-232 | for a one-element list, the reports are that record's reports |
| Conflicts.DetectEmpty | main.py:161-232 | no report at all exactly when no existing record gives one |
| Conflicts.DetectOnly | main.py:161-232 | when only one existing record gives reports, those are all the reports |
| Conflicts.OrderingConflict | main.py:164-179 | `OrderingReports`: two ordering rules on the same person and shop give exactly one report: an opposite when the tags differ, a duplicate when they are equal; otherwise none |
| Conflicts.OrderingNeedsTwoOrderingKinds | main.py:164-165 | when either side is not an ordering rule, only the relational or the item check contributes |
| Conflicts.RelationalConflict | main.py:182-216 | `RelationalReports`: for two two-person records, other people or another shop give nothing; a same/different tag pair gives an opposite carrying the existing record's default flag; equal tags give a duplicate; anything else gives nothing |
| Conflicts.ReportsForSwap | main.py:186-194 | swapping the candidate's two people changes no report for one existing record |
| Conflicts.DetectSwapSymmetric | main.py:186-194 | people match as an unordered pair, so swapping changes no report for any list |
| Conflicts.ItemConflict | main.py:219-230 | `ItemReports`: when either side lacks `person2`, an opposite is reported exactly when the tags are `must_select` and `cannot_select`, person and shop agree, and the item lists intersect |
| Conflicts.ItemCheckShadowed | main.py:182-219 | the `elif` at line 219 is not reached when both records name two people, so a `must_select` candidate naming two people is never reported against a two-person `cannot_select` record |
| Lists.RemoveFirst | main.py:807 | `list.remove` fails exactly when the element is absent; otherwise one copy leaves the multiset |
| Lists.RemoveFirstOccurrence | main.py:807 | the copy removed is the first occurrence, and the others keep their order |
| Lists.RemoveEach | main.py:796-814 | `list.remove` for each element in turn: when all succeed, the removed elements leave the multiset |
| Lists.RemoveFirstSubseq | main.py:807 | `list.remove` keeps the other elements in their order |
| Lists.RemoveEachSubseq | main.py:796-814 | removing several elements in turn keeps the others in their order |
| Builder.AllCodes | main.py:344-359 | the lookups `shops[shop][item]` over every key of the shop, in key order, are the codes 0 .. n-1 |
| Builder.AllCodesContain | main.py:344-359 | a value is the code of some item of the shop exactly when it lies between 0 and the catalogue size, so the indicator sum over the whole shop holds exactly for an in-range pick |
| Builder.ValidPrefix | main.py:329-331 | the number of items posted before the first lookup that raises; all of them are in the shop, and the next one is not |
| Builder.RebuildModel | main.py:301-382 | the loop's model is `Compiled` of the store (`Fold` after the dish rule): each record's posts unless its key was already applied |
| Builder.AppliedKeysChar | main.py:318-376 | a key is marked applied exactly when some record with that key translates completely |
| Builder.FoldSnoc | main.py:321-380 | `Fold`: one more record at the end adds its posts exactly when its key is neither in the starting set nor applied by an earlier record |
| Builder.FoldSkip | main.py:322-325 | `Fold`: a record whose key is already applied can be left out of the walk without changing the posts |
| Builder.CompiledSnoc | main.py:321-380 | one more record at the end adds its translation, even a failed partial one, unless its key was already applied |
| Builder.FailedRecordDoesNotBlock | main.py:376-380 | a record whose translation raised does not block a later record with the same key; both sets of posts stay |
| Builder.LaterDuplicateAddsNothing | main.py:322-325 | a later record with an already applied key adds nothing; removing it leaves the rebuilt model unchanged |
| Builder.CompiledSat | main.py:311-382 | a rebuilt model holds exactly when the dish is Pasta or Risotto and the posts of every translated record hold |
| Builder.FirstApplied | main.py:322-376 | an applied key was applied by a record the loop actually translated |
| Builder.TranslateMeaning | main.py:328-374 | `Translate`: the posts of a completed translation hold exactly when the record's rule (`Meaning`) holds, for every kind and shop |
| Builder.ExcludeItemsMeaning | main.py:328-332 | `ExcludeItems`: a completed `cannot_select` translation holds exactly when the person's fruit is none of the listed items |
| Builder.SelectItemsMeaning | main.py:366-373 | `SelectItems`: a completed `must_select` translation holds exactly when the person's fruit is one of the listed items |
| Builder.DishRecordsPostNothing | main.py:328-374 | `Translate` of a Dish Shop record posts nothing, except Bobby's `must_order` |
| Builder.MustNotOrderEmptiesModel | main.py:361-365 | a Fruit Shop `must_not_order` anywhere in the store leaves the rebuilt model with no solution |
| Builder.SelectAndExcludeSameItems | main.py:328-374 | a translated `must_select` and a translated `cannot_select` of the same person, with the same items, leave no solution |
| Resolution.Targets | main.py:797-813 | the reported records, in report order |
| Resolution.Resolve | main.py:796-813 | the loop never removes more records than there are reports |
| Resolution.ResolveRemovesPrefix | main.py:796-813 | the loop removes one copy of each record in a prefix of the reports, all of them confirmed; it stops at the first record the user keeps or that is missing; it clears exactly when it removes them all |
| Resolution.ResolveMultiset | main.py:801-813 | the store loses exactly the removed prefix of the reported records |
| Resolution.ResolveConfirmed | main.py:801-810 | every removed record was non-default or confirmed |
| Resolution.ResolveStops | main.py:801-813 | how the loop ended: all cleared, a refused default, or a record no longer in the store |
| Resolution.ResolveRemovesEach | main.py:796-813 | the store after the loop is the input with the first occurrence of each removed target deleted in turn, and the records left keep their old order |
| Resolution.ClearedRemovesAllTargets | main.py:796-813 | when every report is handled, each reported record lost exactly one copy |
| Resolution.UnconfirmedDefaultKept | main.py:801-810 | a default the user refuses to remove keeps every copy |
| Resolution.ResolveOnlyRemoves | main.py:796-813 | the loop never adds a record |
| Requests.Note | main.py:580-584 | `more_description` is stored exactly when the answer is not empty |
| Requests.Candidate | main.py:573-766 | the dialog's record carries the chosen person, second person, shop, note and items, has no default flag, and its tag (line 575) is never one of the six exact tags the equality tests look for |
| Requests.Posts | main.py:586-789 | `Posts` and `DialogError`: the dialog posts something exactly when it does not stop at an error; the ordering choices never stop |
| Requests.PairPostsMeaning | main.py:599-645 | the incremental same/different posts mean what the stored record means |
| Requests.OrderingChoiceInert | main.py:586-598 | the ordering choices take the first branch, post nothing and keep an empty description; no conflict is reported for them as the candidate (lines 164-230), nor against them once stored |
| Requests.ItemChoiceNeverReported | main.py:219-230 | a cannot-select or must-select choice of the dialog gives no report against any store: its tag is not `must_select` (line 222), nor an exact ordering tag (line 164), and it names no second person (line 182) |
| Requests.CannotPostsMeaning | main.py:707-744 | the incremental Fruit Shop cannot-select posts mean what the stored record means |
| Requests.MustSelectPostsMeaning | main.py:746-789 | the incremental Fruit Shop must-select post means what the stored record means |
| Requests.IncrementalAgreesWithRebuild | main.py:586-789 | outside Bobby's Dish Shop item rules and a Fruit Shop must-not-order, the stored record translates completely at a rebuild (lines 328-374), and its posts have the same solutions as the incremental posts |
| Requests.CandidateApplied | main.py:573-766 | every record the dialog stores translates completely at a rebuild (lines 328-376) |
| Requests.DishItemRuleLostOnRebuild | main.py:738-784 | Bobby's Dish Shop item rules restrict his dish in the live model (lines 738-741 and 781-784), but the rebuild translates them to nothing (lines 328-374) |
| Enumerate.SearchAll | main.py:946 | the search yields every satisfying assignment of the domain, each once, in a fixed order |
| Enumerate.SortedIsDistinct | main.py:946 | no solution is reported twice |
| Enumerate.Row | main.py:53-59 | a row has `Selected` exactly at the person's chosen code (only Bobby's dish in the Dish Shop) and `N/A` everywhere else |
| Enumerate.PeopleRows | main.py:51-61 | a shop block shows a row exactly for the displayed people |
| Enumerate.ShopBlockShows | main.py:44-61 | `ShopBlock`: a shop's block has a person's row exactly when both the shop and the person are displayed |
| Enumerate.RenderShows | main.py:40-61 | `Render`: a solution's output shows exactly the displayed people in the displayed shops, each with their own row |
| Enumerate.SolutionPrinter.constructor | main.py:16-24 | a fresh printer has counted nothing and written nothing |
| Enumerate.SolutionPrinter.OnSolution | main.py:37-61 | each solution increments the counter by one and appends its numbered rendering |
| Enumerate.SolutionPrinter.SolutionCount | main.py:63-65 | returns the counter |
| Session.DefaultScenario | main.py:250-450 | `InitialModel`, the start-up model of `create_default_constraints` (lines 250-296) and the dish rule (lines 441-450), holds exactly when Cathy avoids Salak, Adam and Bobby differ, Adam and Cathy agree, Dean avoids Quenepa, and the dish is Pasta or Risotto |
| Session.StartupShape | main.py:250-460 | `StartupRecords` is `DefaultRecords` (lines 250-296) followed by `BobbyDishRecord` (lines 453-460), all flagged default |
| Session.StartupAllContribute | main.py:318-376 | at a rebuild every start-up record has its own key and translates completely |
| Session.StartupMeanings | main.py:250-296 | each record of `DefaultRecords`, and `BobbyDishRecord`, means its hand-written post |
| Session.StartupMatchesRebuild | main.py:301-460 | rebuilding the start-up store gives a model with the same solutions as `InitialModel`, the one `initialize_data` builds by hand |
| Session.AddSpecModel | main.py:586-831 | `AddSpec`: a dialog error changes nothing; otherwise the incremental posts stay in the live model unless a resolved conflict replaces it by a rebuild of the new store |
| Session.AddSpecStore | main.py:792-831 | on no conflict, the store gains the candidate; on resolution, the reported records lose one copy each and the candidate is last; on a stop, the store only shrank |
| Session.AddSpecNoConflict | main.py:829-831 | with no report, the candidate is appended and the live model keeps its incremental posts, with no rebuild |
| Session.SettleStore | main.py:792-831 | `Settle`: the store after the conflict check, per outcome |
| Session.SettleResolved | main.py:796-827 | `Settle` on a resolved conflict: the candidate is last, and the records before it are the old store minus one copy of each reported record |
| Session.SettleStopped | main.py:801-813 | `Settle` stopped at a kept default or a failed removal: the store only shrank |
| Session.AddSpecResolvedOrder | main.py:796-827 | `AddSpec` on a resolved conflict: the old records minus the first occurrence of each reported record, in their old order, followed by the candidate |
| Session.OrderingChoiceStored | main.py:586-831 | `AddSpec` of an ordering choice: no conflict, the candidate is appended, and the live model is unchanged |
| Session.MustNotOrderChoiceEmptiesRebuild | main.py:586-598 | a Fruit Shop must-not-order choice leaves the live model unchanged, yet `rebuild_model` (lines 361-365) of the new store has no solution |
| Session.AddSpecKeepsRefusedDefault | main.py:801-810 | a default the user refuses to override is never removed |
| Session.AbortedCandidateStillEnforced | main.py:586-810 | after a refused override, the candidate is not stored, yet every solution of the live model obeys its posts |
| Session.FilterMeaning | main.py:904-927 | `FilterPosts`: the filter's exactly-one post holds exactly when the person's pick is one of the chosen items; a Dish Shop filter for someone other than Bobby filters nothing |
| Session.FilteredSat | main.py:863-927 | the filtered copy has the solutions of the live model that pass the filter |
| Session.SolverSession.constructor | main.py:415-460 | the store and live model of `initialize_data` |
| Session.SolverSession.AddConstraint | main.py:586-831 | the dialog's effect on store and live model is `AddSpec` |
| Session.SolverSession.CheckAndStore | main.py:792-831 | the conflict check, resolution, append and rebuild match `Settle` |
| Session.SolverSession.ResolveConflicts | main.py:796-813 | the removal loop matches `Resolve` and leaves the live model alone |
| Session.SolverSession.FindSolutions | main.py:863-946 | searches exactly the solutions of the live model that pass the filter, each once; counts them; prints each; an empty item choice ends before the search |
| Session.DialogMustSelectMissesDefault | main.py:219-230 | the dialog's tag (line 575) is not `must_select`, so its must-select of Salak for Cathy is not reported against the default that forbids it |
| Session.MustSelectMisses | main.py:219-230 | the same, for any store shaped like the start-up store |
| Session.DialogSameSelectionMissesDuplicate | main.py:211 | the dialog's same-selection of Adam and Cathy duplicates a default, yet its tag (line 575) differs, so it is not reported |
| Session.SameSelectionMisses | main.py:211 | the same, for any store shaped like the start-up store |
| Session.DialogDifferentSelectionOpposesDefault | main.py:198-209 | the dialog's different-selection of Cathy and Adam is the direct opposite of the default same-selection, carrying the default flag |
| Session.DifferentSelectionOpposes | main.py:198-209 | the same, for any store shaped like the start-up store |
| Session.DishRestrictionLostAtStartup | main.py:738-831 | Bobby's "cannot select Pasta" meets no conflict and is stored; the live model excludes Pasta, but `rebuild_model` (lines 301-382) of the new store still allows it |
| Session.DishRestrictionLost | main.py:738-831 | the same, for any store shaped like the start-up store |

## Left out

- The tkinter user interface: the input dialogs, message boxes, output area and buttons. Cancelling a prompt, and the exits taken when no shop or no person is chosen, are not modelled; the two empty-item-list exits are (`Requests.DialogError` and `SolverSession.FindSolutions`). The model starts from a request whose prompts were all answered.
- The yes/no override dialog is the parameter `confirm`.
- The retry prompt of the add dialog's `except` branch, which calls the dialog again, is not modelled. Its only modelled cause is a failed `list.remove`, which ends as `RemoveFailed`.
- OR-Tools itself (`NewIntVar`, `Add`, `OnlyEnforceIf`, `Clone`, `SearchForAllSolutions`) is a foreign library:
  - the model is a list of primitive posts;
  - the search is brute force over the variable domains.
- The indicator booleans of exactly-one patterns are projected out, so solution counts are counts of distinct `x`/`y` assignments.
- `Guarded` posts model the indicators a failed `must_select` translation leaves behind, and they constrain nothing. A stray indicator variable, whose two values would double the solver's count, is not counted. This includes the `NewBoolVar` the dialog creates before its Dish Shop must-select error.
- The solver status and the "Total solutions" and "infeasible" messages are not modelled beyond the count.
- Text layout is not modelled: `print_shop_header`, `ljust` padding and the `|` separators. A row is a sequence of `Selected`/`N/A` cells.
- `display_options`, and its overwrite by the shop-display menu, is not modelled. The display is a parameter.
- `view_constraints`, `show_edit_description_dialog`, `main` and the `process_*_constraint` helpers are not modelled: they are either presentation or never called. The same goes for `rebuild_current_model`, which is never called.
- The `Warning:` print of a failed translation is not modelled.
- IncrementalAgreesWithRebuild: a must-not-order on the Fruit Shop is excluded, because there the live model and the stored record disagree; `Session.MustNotOrderChoiceEmptiesRebuild` states that case.
- The number of start-up solutions is not stated. `DefaultScenario` gives their exact characterisation instead.
- Rules.StartupRecords has no contract of its own. Its shape is stated by `Session.StartupShape`.
- The dialog's free-text descriptions are modelled for the candidate record but are not used by any property.
- The model has no integer widths to preserve: every value is a small code or an index.
