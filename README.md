# ng2-select option navigation and selection, modelled in Dafny

This project models the core of the `ng-select` Angular component. It covers two things:

- **The option behaviours** (`build/dist/behavior.ts`). One object per component moves the highlighted option (`activeOption`), replaces the candidate list when the user types, keeps the identity index map, and scrolls the highlighted row into view. There are two variants, chosen once by `ngOnInit`:
  - `GenericBehavior`, for a flat list of options;
  - `ChildrenBehavior`, for groups of children.
- **The component's selection logic** (`src/app/select/select.ts`):
  - the `active` input setter;
  - item acceptance in `ngOnChanges`;
  - `selectMatch`, `remove` and `doEvent`'s change value;
  - `getText`;
  - the key-code dispatch of `inputEvent`.

Modules:

- `Items`: items and ids, plus the JavaScript list primitives the code relies on:
  - `xs[i]` is `undefined` out of range;
  - `findIndex` and `indexOf` return -1 when nothing matches;
  - `filter`;
  - flattening groups into their children.
- `IdentityIndex`: the map from item id to row position that `fillOptionsMap` builds over the flattened children.
- `Scroll`: the rendered list (rows with their offset and height) and the scroll arithmetic of `ensureHighlightVisible`.
- `Navigation`: where each behaviour step puts the highlight, what each `filter` keeps, and how the highlighted row is resolved (`getActiveIndex`), all as functions, with their properties as lemmas:
  - the flat list is a circle;
  - the grouped list crosses group boundaries;
  - both filters are subsequences and idempotent;
  - the map resolves a child to its row.
- `Select`: JavaScript input values, the selection (`active` ids beside `selectedActiveItems`), the change value and the key dispatch, plus the class `SelectComponent` holding the fields the code updates in place.
- `Behavior`: the class `OptionsBehavior`, whose methods update the component's fields and the container's scroll offset and are proved against the `Navigation` functions.

Two things are modelled as parameters rather than executed:

- **The `filter` query.** A `RegExp` built from the typed text is modelled as an uninterpreted predicate `query: string -> bool`.
- **`stripTags`.** It is a function parameter.

Some source calls crash with a `TypeError`. They become preconditions:

- `options[-1].children` when the highlight's group is not shown;
- `activeOption.id` when the map is consulted without a highlight.

## Model

| member | source | states |
|---|---|---|
| Items.FindIndex | build/dist/behavior.ts:125-128 | `findIndex`: -1 when no element satisfies the predicate, otherwise the first position that does |
| Items.IndexOf | src/app/select/select.ts:222 | `indexOf`: the first position holding the value; -1 exactly when it is absent |
| Items.IndexOfActive | build/dist/behavior.ts:76 | the position of the highlight's first occurrence in the list, or -1 exactly when there is no highlight or it is not listed |
| Items.KeepMembers | build/dist/behavior.ts:90-95 | `filter` keeps exactly the elements that satisfy the predicate |
| Items.KeepCount | build/dist/behavior.ts:90-95 | `filter` keeps every occurrence of an element that satisfies the predicate and no occurrence of any other |
| Items.KeepIsSubsequence | build/dist/behavior.ts:90-95 | `filter` keeps the elements in their original order |
| Items.KeepIdempotent | build/dist/behavior.ts:90-95 | filtering twice with the same predicate equals filtering once |
| Items.KeepSnoc | src/app/select/select.ts:114-124 | filtering a list extended by one element extends the result by that element exactly when it passes |
| IdentityIndex.ChildrenHashKeys | build/dist/behavior.ts:21 | filling the map adds exactly the children's ids to its keys |
| IdentityIndex.IndexMap | build/dist/behavior.ts:16-23 | the map's keys are exactly the ids of all children of all groups |
| IdentityIndex.FillChildrenHash | build/dist/behavior.ts:21 | one group's fill records its children's positions from the counter on, and advances the counter by the number of children |
| IdentityIndex.ChildrenHashAppend | build/dist/behavior.ts:19-22 | filling `a` and then `b` from where `a` ended is filling `a + b`: the counter threads positions across groups |
| IdentityIndex.IndexMapStep | build/dist/behavior.ts:19-22 | handling group `i` extends the map of the groups before it by that group's children, starting at the number of children already seen |
| IdentityIndex.ChildrenHashPositions | build/dist/behavior.ts:21 | with distinct ids, child `k` is at position `start + k` |
| IdentityIndex.IndexMapPositions | build/dist/behavior.ts:16-23 | with distinct child ids, the `k`-th child of the flattened groups is mapped to `k` (the keys are exactly the children's ids, by `IndexMap`'s contract) |
| IdentityIndex.IndexMapExample | build/dist/behavior.ts:16-23 | groups `1: [10, 11]` and `2: [20]` give `{10: 0, 11: 1, 20: 2}` |
| Scroll.Reconcile | build/dist/behavior.ts:42-48 | a row whose bottom is below the view is scrolled to the view's bottom; a row whose top is above the view is scrolled to its top; a row in view, or no resolvable row, leaves the offset unchanged |
| Scroll.ReconcileIdempotent | build/dist/behavior.ts:42-48 | a row no taller than the view is stable: reconciling a second time changes nothing |
| Scroll.ReconcileTallRowMovesTwice | build/dist/behavior.ts:42-48 | a row taller than the view is not stable: the second reconciliation scrolls back to its top |
| Navigation.IndexOfDistinct | build/dist/behavior.ts:76 | in a list without repeats, `indexOf` finds item `k` at position `k` |
| Navigation.FlatStepIsRotation | build/dist/behavior.ts:75-87 | `next` moves item `k` to the following place on the circle and `prev` to the preceding place |
| Navigation.FlatWrapsAround | build/dist/behavior.ts:75-87 | `prev` from the first item is the last item; `next` from the last item is the first |
| Navigation.FlatNextPrev | build/dist/behavior.ts:75-87 | `next` then `prev`, and `prev` then `next`, restore the highlight |
| Navigation.FlatFromOutside | build/dist/behavior.ts:75-87 | a highlight absent from the list steps to the last item (`prev`) or the first item (`next`) |
| Navigation.NextStepsCompose | build/dist/behavior.ts:82-87 | `a + b` calls of `next` are `a` calls followed by `b` calls |
| Navigation.PrevStepsCompose | build/dist/behavior.ts:75-80 | `a + b` calls of `prev` are `a` calls followed by `b` calls |
| Navigation.FlatNextAround | build/dist/behavior.ts:82-87 | `j <= n` calls of `next` move the highlight `j` places forward round the circle of `n` items |
| Navigation.FlatPrevAround | build/dist/behavior.ts:75-80 | `j <= n` calls of `prev` move the highlight `j` places back round the circle |
| Navigation.FlatNextFullCircle | build/dist/behavior.ts:82-87 | on `n` distinct items, `n` calls of `next` bring the highlight back |
| Navigation.FlatPrevFullCircle | build/dist/behavior.ts:75-80 | on `n` distinct items, `n` calls of `prev` bring the highlight back |
| Navigation.FlatNextCycles | build/dist/behavior.ts:82-87 | on `n` distinct items, any multiple of `n` calls of `next` brings the highlight back |
| Navigation.FlatPrevCycles | build/dist/behavior.ts:75-80 | on `n` distinct items, any multiple of `n` calls of `prev` brings the highlight back |
| Navigation.FlatFilterSpec | build/dist/behavior.ts:89-96 | the flat filter keeps, in order, exactly the items whose stripped text matches, every occurrence of each; in multi-select mode it also drops chosen ids; in single-select mode being chosen does not matter |
| Navigation.FlatFilterAsWrittenIgnoresChosen | build/dist/behavior.ts:92-94 | as written, the multi-select exclusion looks option ids up in a list of `undefined`, so the result is always the single-select result |
| Navigation.ChosenItemStillOffered | build/dist/behavior.ts:92-94 | for matching A, B, C with B chosen in multi-select mode, the code as written still offers B; the intended filter offers A and C |
| Navigation.FlatFilterIdempotent | build/dist/behavior.ts:89-96 | filtering the filtered list again with the same query changes nothing |
| Navigation.FlatFilterExample | build/dist/behavior.ts:89-96 | for matching A, B, C with B chosen: multi-select shows A and C; single-select shows all three |
| Items.KeepSamePredicate | build/dist/behavior.ts:91-94 | two predicates that agree on every item filter alike |
| Navigation.GroupFilterSpec | build/dist/behavior.ts:162-180 | the grouped filter keeps group order; a group appears, as often as it occurs, exactly when some child matches, and then holds only its matching children |
| Navigation.GroupFilterIdempotent | build/dist/behavior.ts:162-180 | filtering the grouped result again with the same query changes nothing |
| Navigation.GroupFilterStep | build/dist/behavior.ts:165-173 | each loop pass appends the narrowed group exactly when it kept a child |
| Items.KeepAllHold | build/dist/behavior.ts:167 | a filter whose predicate holds everywhere keeps everything |
| Navigation.LocateChild | build/dist/behavior.ts:145-148 | in a well-formed list, child `j` of group `p` is found at group `p`, position `j` |
| Navigation.GroupStepWithinGroup | build/dist/behavior.ts:124-160 | inside a group, `next` and `prev` move to the adjacent child |
| Navigation.GroupNextCrossesGroups | build/dist/behavior.ts:144-160 | from a group's last child, `next` goes to the first child of the next group; from the last group it wraps to the first child of the first group |
| Navigation.GroupPrevCrossesGroups | build/dist/behavior.ts:124-142 | from a group's first child, `prev` goes to the last child of the previous group; from the first group it wraps to the last child of the last group |
| Navigation.EmptyGroupFilterStrandsHighlight | build/dist/behavior.ts:125-127 | after a grouped filter that matched no child the candidate list is empty and no highlight's group is found (`findIndex` gives -1), so `prev` and `next` read `options[-1]` |
| Navigation.ChildIsFlattened | build/dist/behavior.ts:16-23 | every child of every group is a row of the flattened list |
| Navigation.GroupNextTotalSpec | build/dist/behavior.ts:144-160 | the intended `next` is defined in every state: a no-op with no candidates, a fall-back to `first` when the highlight's group is not shown, the source's step otherwise; on a well-formed non-empty list it always highlights a shown child |
| Navigation.GroupPrevTotalSpec | build/dist/behavior.ts:124-142 | the intended `prev`: a no-op with no candidates, a fall-back to `last` when the highlight's group is not shown, the source's step otherwise; on a well-formed non-empty list it always highlights a shown child |
| Navigation.ActiveIndex | build/dist/behavior.ts:51-57 | the map is consulted only when the highlight is not listed and a map was given; a missing id gives `undefined` |
| Navigation.ActiveIndexFromMap | build/dist/behavior.ts:51-57 | with the index map of the groups, a highlighted child that is not itself listed resolves to its row in the flattened children |
| Navigation.Highlight | build/dist/behavior.ts:31-34 | with no rows rendered, or a flat lookup that misses without a map, the offset is unchanged |
| Select.NormalizeActive | src/app/select/select.ts:69-80 | the result is wrapped in a list exactly for a non-empty string or an object with keys; it is `[]` exactly for a falsy input or an empty list; any other input (a non-empty list, a number, `true`, an object without keys) is stored as it is; the result is always truthy |
| Select.AcceptedItemsSpec | src/app/select/select.ts:113-125 | `ngOnChanges` keeps, in order, exactly the strings and the objects whose id and text fields are truthy, every occurrence of each |
| Select.Splice1 | src/app/select/select.ts:223 | `splice(i, 1)` removes element `i` when it exists, removes nothing past the end, and removes the last element for -1 |
| Select.ToggleTwice | src/app/select/select.ts:375-383 | in multi-select mode, choosing an unchosen item twice restores both lists |
| Select.ToggleAligned | src/app/select/select.ts:375-383 | toggling keeps `active` and `selectedActiveItems` aligned position by position; with no repeated ids it flips whether the id is chosen |
| Select.ToggleChosenIsUnselect | src/app/select/select.ts:375-379 | choosing an already chosen item does what the intended `remove` does |
| Select.UnselectSpec | src/app/select/select.ts:221-227 | intended removal keeps the lists aligned, drops the id once (entirely when no id repeats), keeps every other id, and changes nothing for an unchosen id; for a chosen id the result is both old lists, in order, with the position of the id's first occurrence cut out |
| Select.RemoveLastAsWritten | src/app/select/select.ts:151-156 | on the backspace/delete path (the last chosen id) the code as written removes the same thing as the intended rule |
| Select.RemoveClickMisaligns | src/app/select/select.ts:221-227 | removing the first of two chosen items by the item drops the last id and the first item, so the two lists disagree |
| Select.OnChangeValue | src/app/select/select.ts:249-257 | `onChange` gets the id list exactly in multi-select mode; otherwise the first id, or `''` exactly when nothing is chosen |
| Select.Dispatch | src/app/select/select.ts:139-214 | tab is ignored; in up mode the arrow keys and enter are suppressed; backspace on an empty input, or delete, removes the last choice; left and right go to the first and last option exactly when options exist, and otherwise filter (typed text) or open; up and down always step; escape hides and enter confirms; any other key, and in up mode any key but tab, arrows and enter, filters when there is typed text and opens the list otherwise |
| Select.SelectComponent.constructor | src/app/select/select.ts:30-44 | the initial field values: empty lists, no highlight, closed, enabled; the source items are given |
| Select.SelectComponent.GetText | src/app/select/select.ts:402-409 | the text of the first full-list option with the id, or `''` when none has it |
| Select.SelectComponent.DoEvent | src/app/select/select.ts:238-258 | `'selected'` and `'removed'` append the change value to the `onChange` log; `'typed'` does not |
| Select.SelectComponent.OnItemsChange | src/app/select/select.ts:107-133 | the shown and full lists both become the accepted items in order, followed by the chosen items |
| Select.SelectComponent.SelectMatch | src/app/select/select.ts:366-400 | with no options shown nothing changes; multi-select toggles the id; single-select chooses only it and closes the list; the full list is shown again and `onChange` gets the new value |
| Select.SelectComponent.Remove | src/app/select/select.ts:216-236 | nothing when disabled; multi-select removes by the intended rule; single-select clears the choice; `onChange` gets the new value |
| Behavior.OptionsBehavior.constructor | src/app/select/select.ts:100-102 | the grouped behaviour is chosen exactly when the first option has children; the map starts empty |
| Behavior.OptionsBehavior.FillOptionsMap | build/dist/behavior.ts:16-23 | the map becomes the index map of the source groups |
| Behavior.OptionsBehavior.EnsureHighlightVisible | build/dist/behavior.ts:25-49 | with a container, the new offset is the reconciled offset for the resolved row; without one nothing is touched |
| Behavior.OptionsBehavior.GenericFirst | build/dist/behavior.ts:65-68 | the highlight becomes the first option; the scroll is reconciled once |
| Behavior.OptionsBehavior.GenericLast | build/dist/behavior.ts:70-73 | the highlight becomes the last option; the scroll is reconciled once |
| Behavior.OptionsBehavior.GenericPrev | build/dist/behavior.ts:75-80 | the highlight steps back round the circle; the scroll is reconciled once |
| Behavior.OptionsBehavior.GenericNext | build/dist/behavior.ts:82-87 | the highlight steps forward round the circle; the scroll is reconciled once |
| Behavior.OptionsBehavior.GenericFilter | build/dist/behavior.ts:89-101 | the options become the flat filter result; a non-empty result highlights its first item and reconciles the scroll; an empty one leaves highlight and scroll alone |
| Behavior.OptionsBehavior.ChildrenFirst | build/dist/behavior.ts:109-113 | the highlight becomes the first child of the first group; the map is rebuilt; the scroll is reconciled with it |
| Behavior.OptionsBehavior.ChildrenLast | build/dist/behavior.ts:115-122 | the highlight becomes the last child of the last group; the map is rebuilt; the scroll is reconciled with it |
| Behavior.OptionsBehavior.ChildrenPrev | build/dist/behavior.ts:124-142 | the highlight moves to the previous child, or to the last child of the previous group, or falls back to `last`; the scroll is reconciled twice in the fallback case and once otherwise |
| Behavior.OptionsBehavior.ChildrenNext | build/dist/behavior.ts:144-160 | the highlight moves to the next child, or to the first child of the next group, or falls back to `first`; the scroll is reconciled twice in the fallback case and once otherwise |
| Behavior.FilterGroups | build/dist/behavior.ts:163-173 | the loop builds the grouped filter result and the index map of all source children |
| Behavior.OptionsBehavior.ChildrenFilter | build/dist/behavior.ts:162-180 | the options become the grouped filter result; a non-empty result highlights the first matching child and reconciles the scroll with a fresh map of all source children; the behaviour's own map is untouched |
| Behavior.OptionsBehavior.NavigateKey | src/app/select/select.ts:174-197 | left, right, up and down (not in up mode) call `first`, `last`, `prev` and `next` on the chosen behaviour, with that call's effect; a grouped call leaves the map equal to the index map of the source items, a flat one leaves it unchanged; other keys change nothing here |

## Left out

- Rendering, the DOM and focus are not modelled. This includes `focusToInput`'s `setTimeout`, `sanitize`, `clickedOutside`, `matchClick` and `mainClick`'s key-to-character conversion. The list container and its rows are given as a `Container` object with integer geometry; it is `null` when the list is not rendered.
- The browser clamps `scrollTop` to its scrollable range. That clamping is not modelled: the offset is plain integer arithmetic.
- Pixel values are treated as integers, not floating point.
- Select.SelectComponent.DoEvent: in multi-select mode, `onChange` receives the live `active` array, which later `push` and `splice` calls change in place. The `changes` log keeps a copy of the value at each call, so that aliasing is not modelled.
- Select.SelectComponent.itemObjects: the component's code never declares or assigns `itemObjects`, yet the behaviours read it. In the model it is an input, given to the constructor.
- The `EventEmitter` outputs (`data`, `selected`, `removed`, `typed`, `opened`) and `onTouched` are not modelled. Only the values handed to `onChange` are kept, as a log.
- `writeValue` and the `disabled` setter are not modelled.
- `Behavior.OptionsBehavior.GenericFilter`: the `RegExp` query is an abstract predicate on the stripped text. `String.match` resets the expression's `lastIndex`, so nothing is lost there. `stripTags` is a function parameter. In multi-select mode it leaves out the chosen ids as intended (`Navigation.FlatFilter` over `active`), not as written; see the `build/dist/behavior.ts:92-94` row under "## Findings".
- Behavior.OptionsBehavior.ChildrenFilter: it calls `test` on the case-insensitive global expression built from the typed text. After a match, that expression's `lastIndex` makes the next child's test start later in its text, so a matching child can be dropped (children "ab" and "ab" with query "a" keep only the first). The model treats the query as a stateless predicate. `getSimilar` is modelled as copying the group with new children.
- Navigation.GroupFilterSpec: it describes the stateless reading of the query, so it does not capture the children that the `lastIndex` state drops.
- Navigation.GroupFilterIdempotent: it also describes the stateless reading; with the stateful expression, a second filter can drop further children.
- `SelectItem` (its constructor, `hasChildren`, `fillChildrenHash` and `getSimilar`) is not part of this model:
  - `hasChildren` is taken to mean a non-empty children list;
  - `fillChildrenHash` is taken to give the children consecutive positions from the counter, with later equal ids overwriting earlier ones.
- `Select.SelectComponent.OnItemsChange`: converting an accepted input into a `SelectItem` is a function parameter. `_.get` is modelled for plain field names only, not dotted paths or array indices. A non-array `items` input is not modelled.
- JavaScript compares objects by identity (`indexOf`, `===`, the `==` of `findIndex`). Here items are values and are compared by value. Loose `==` on ids is modelled as equality of `Id` values, so the string `"1"` and the number `1` are different ids. This matters where a list holds two value-equal items: `ngOnChanges` appends deep clones of the chosen items to `options` (src/app/select/select.ts:127-131), so with options `[a, b, clone(a)]` and the clone highlighted, JavaScript's `indexOf` finds position 2 and `next` wraps to `a`, while `Items.IndexOfActive` finds position 0 and `Navigation.FlatNext` gives `b`. The circle lemmas (`Navigation.FlatStepIsRotation` and the ones after it) require distinct items, which excludes exactly such a list.
- A `TypeError` raised by the source becomes a precondition rather than a modelled crash:
  - `Behavior.OptionsBehavior.ChildrenPrev` and `Behavior.OptionsBehavior.ChildrenNext` require the highlight's group to be shown. The up and down keys call them unconditionally, so after a grouped filter that matched nothing (the options become `[]` while the highlight is kept) the source dereferences `options[-1]`. The behaviour methods keep the source's precondition; the intended total steps are `Navigation.GroupNextTotal` and `Navigation.GroupPrevTotal` (see "## Findings");
  - `Behavior.OptionsBehavior.ChildrenFirst` and `Behavior.OptionsBehavior.ChildrenLast` require a non-empty option list;
  - `Behavior.OptionsBehavior.EnsureHighlightVisible` requires a highlight whenever a map is consulted.
- `Select.Dispatch` decides what `inputEvent` does for a key. Only the navigation actions are then carried out, by `Behavior.OptionsBehavior.NavigateKey`. For the other keys:
  - escape, enter (`selectActiveMatch` followed by `next`), `open` and filter-then-`typed` are named, not executed;
  - the enter test `active.indexOf(activeOption)` compares ids with an item, so it always passes; this is noted rather than modelled.
- `Select.SelectComponent.Remove` takes the id of the item to drop, which is what the keyboard path passes. The click path passes the item itself; with the intended rule that reduces to the item's id.

## Findings

| source | as written | input that shows it | evidently intended | confidence | as-written member | corrected member |
|---|---|---|---|---|---|---|
| src/app/select/select.ts:221-227 | `remove(item)` looks the argument up with `indexOf` in both `active` (ids) and `selectedActiveItems` (items). One lookup always misses, and `splice(-1, 1)` then drops that list's last element. | Multi-select with ids `[1, 2]` and items `[i1, i2]`; remove by clicking `i1`. This gives ids `[1]` and items `[i2]`: id 1 is still chosen and the lists disagree. | Remove the id and its item from both lists at the same position, as `selectMatch` does. | high (by proof; not executed) | Select.UnselectAsWritten, Select.RemoveClickMisaligns | Select.Unselect, Select.UnselectSpec |
| build/dist/behavior.ts:92-94 | The multi-select exclusion maps `item.id` over `active`. `selectMatch` pushes ids there (src/app/select/select.ts:381), and an id has no `id` property, so every chosen option stays on offer. | Multi-select with matching items A, B, C and B chosen through `selectMatch`; type a query. A, B and C are all offered. | Offer A and C: leave out the options whose id is chosen. | medium (an `active` list bound as objects through the input would exclude correctly; not executed) | Navigation.FlatFilterAsWritten, Navigation.FlatFilterAsWrittenIgnoresChosen, Navigation.ChosenItemStillOffered | Navigation.FlatFilter, Navigation.FlatFilterSpec |
| build/dist/behavior.ts:124-160 | `prev` and `next` look the highlight's group up with `findIndex` and read `options[indexParent].children` without checking the index. | Grouped list; highlight a child; type text that matches no child, so `filter` sets the options to `[]` and keeps the highlight; press down. `indexParent` is -1 and `options[-1].children` throws a `TypeError`. | With no candidates nothing moves; a highlight whose group is not shown falls back to `first` (`next`) or `last` (`prev`), as the flat behaviour does for an unresolvable highlight. | medium (the flat behaviour falls back to `first`/`last` for a highlight it cannot find, build/dist/behavior.ts:75-87; not executed) | Navigation.EmptyGroupFilterStrandsHighlight, Behavior.OptionsBehavior.ChildrenPrev, Behavior.OptionsBehavior.ChildrenNext | Navigation.GroupNextTotalSpec, Navigation.GroupPrevTotalSpec |
