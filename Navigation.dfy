/** Where each navigation step of `GenericBehavior` (flat list) and
    `ChildrenBehavior` (groups with children) puts the highlight, what each
    `filter` leaves visible, and how the highlighted row is resolved. */
module Navigation {
  import opened Items
  import opened IdentityIndex
  import opened Scroll

  // ---------------------------------------------------------------- flat list

  /** No item occurs twice. */
  predicate Distinct(xs: seq<Item>)
  {
    forall i, j :: 0 <= i < j < |xs| ==> xs[i] != xs[j]
  }

  /** `GenericBehavior.first`: the first item (`undefined` on an empty list). */
  function FlatFirst(options: seq<Item>): Option<Item>
  {
    At(options, 0)
  }

  /** `GenericBehavior.last`: the last item (`undefined` on an empty list). */
  function FlatLast(options: seq<Item>): Option<Item>
  {
    At(options, |options| - 1)
  }

  /** `GenericBehavior.prev`: one step back, from the first item (or from an
      item that is not in the list) to the last. */
  function FlatPrev(options: seq<Item>, active: Option<Item>): Option<Item>
  {
    var index := IndexOfActive(options, active);
    At(options, if index - 1 < 0 then |options| - 1 else index - 1)
  }

  /** `GenericBehavior.next`: one step forward, from the last item to the
      first; from an item that is not in the list to the first. */
  function FlatNext(options: seq<Item>, active: Option<Item>): Option<Item>
  {
    var index := IndexOfActive(options, active);
    At(options, if index + 1 > |options| - 1 then 0 else index + 1)
  }

  /** `next` applied `n` times. */
  function FlatNextN(options: seq<Item>, active: Option<Item>, n: nat): Option<Item>
    decreases n
  {
    if n == 0 then active else FlatNextN(options, FlatNext(options, active), n - 1)
  }

  /** `prev` applied `n` times. */
  function FlatPrevN(options: seq<Item>, active: Option<Item>, n: nat): Option<Item>
    decreases n
  {
    if n == 0 then active else FlatPrevN(options, FlatPrev(options, active), n - 1)
  }

  /** The place after `k` on a circle of `n` places. */
  function Succ(k: nat, n: nat): nat
  {
    if k + 1 < n then k + 1 else 0
  }

  /** The place before `k` on a circle of `n` places. */
  function Pred(k: nat, n: nat): nat
    requires n > 0
  {
    if k > 0 then k - 1 else n - 1
  }

  /** In a list without repeats, `indexOf` finds each item at its place. */
  lemma IndexOfDistinct(options: seq<Item>, k: nat)
    requires Distinct(options) && k < |options|
    ensures IndexOfActive(options, Some(options[k])) == k
  {
    assert options[k] in options;
  }

  /** Stepping moves by one place round the circle. */
  lemma FlatStepIsRotation(options: seq<Item>, k: nat)
    requires Distinct(options) && k < |options|
    ensures FlatNext(options, Some(options[k])) == Some(options[Succ(k, |options|)])
    ensures FlatPrev(options, Some(options[k])) == Some(options[Pred(k, |options|)])
  {
    IndexOfDistinct(options, k);
  }

  /** `prev` from the first item wraps to the last, `next` from the last
      wraps to the first. */
  lemma FlatWrapsAround(options: seq<Item>)
    requires Distinct(options) && options != []
    ensures FlatPrev(options, Some(options[0])) == Some(options[|options| - 1])
    ensures FlatNext(options, Some(options[|options| - 1])) == Some(options[0])
  {
    FlatStepIsRotation(options, 0);
    FlatStepIsRotation(options, |options| - 1);
  }

  /** `next` then `prev`, and `prev` then `next`, restore the highlight. */
  lemma FlatNextPrev(options: seq<Item>, k: nat)
    requires Distinct(options) && k < |options|
    ensures FlatPrev(options, FlatNext(options, Some(options[k]))) == Some(options[k])
    ensures FlatNext(options, FlatPrev(options, Some(options[k]))) == Some(options[k])
  {
    var n := |options|;
    FlatStepIsRotation(options, k);
    FlatStepIsRotation(options, Succ(k, n));
    FlatStepIsRotation(options, Pred(k, n));
  }

  /** A highlight that is not in the list: `prev` goes to the last item and
      `next` to the first. */
  lemma FlatFromOutside(options: seq<Item>, active: Option<Item>)
    requires active.None? || active.value !in options
    ensures FlatPrev(options, active) == FlatLast(options)
    ensures FlatNext(options, active) == FlatFirst(options)
  {
  }

  /** Steps of `next` compose: `a + b` steps are `a` steps, then `b`. */
  lemma {:induction false} NextStepsCompose(options: seq<Item>, active: Option<Item>, a: nat, b: nat)
    ensures FlatNextN(options, active, a + b) == FlatNextN(options, FlatNextN(options, active, a), b)
    decreases a
  {
    if a > 0 {
      var next := FlatNext(options, active);
      NextStepsCompose(options, next, a - 1, b);
      assert FlatNextN(options, active, a + b) == FlatNextN(options, next, a - 1 + b);
      assert FlatNextN(options, active, a) == FlatNextN(options, next, a - 1);
    }
  }

  /** Steps of `prev` compose: `a + b` steps are `a` steps, then `b`. */
  lemma {:induction false} PrevStepsCompose(options: seq<Item>, active: Option<Item>, a: nat, b: nat)
    ensures FlatPrevN(options, active, a + b) == FlatPrevN(options, FlatPrevN(options, active, a), b)
    decreases a
  {
    if a > 0 {
      var prev := FlatPrev(options, active);
      PrevStepsCompose(options, prev, a - 1, b);
      assert FlatPrevN(options, active, a + b) == FlatPrevN(options, prev, a - 1 + b);
      assert FlatPrevN(options, active, a) == FlatPrevN(options, prev, a - 1);
    }
  }

  /** The place `j` steps forward from `k` on a circle of `n` places, for
      `j <= n`. */
  function Ahead(k: nat, j: nat, n: nat): nat
  {
    if k + j < n then k + j else k + j - n
  }

  /** The place `j` steps back from `k` on a circle of `n` places, for
      `j <= n`. */
  function Behind(k: nat, j: nat, n: nat): int
  {
    if j <= k then k - j else k + n - j
  }

  /** `j` calls to `next` move the highlight `j` places round the circle. */
  lemma {:induction false} FlatNextAround(options: seq<Item>, k: nat, j: nat)
    requires Distinct(options) && k < |options| && j <= |options|
    ensures Ahead(k, j, |options|) < |options|
    ensures FlatNextN(options, Some(options[k]), j) == Some(options[Ahead(k, j, |options|)])
    decreases j
  {
    if j > 0 {
      FlatStepIsRotation(options, k);
      FlatNextAround(options, Succ(k, |options|), j - 1);
    }
  }

  /** `j` calls to `prev` move the highlight `j` places back round the
      circle. */
  lemma {:induction false} FlatPrevAround(options: seq<Item>, k: nat, j: nat)
    requires Distinct(options) && k < |options| && j <= |options|
    ensures 0 <= Behind(k, j, |options|) < |options|
    ensures FlatPrevN(options, Some(options[k]), j) == Some(options[Behind(k, j, |options|)])
    decreases j
  {
    if j > 0 {
      FlatStepIsRotation(options, k);
      FlatPrevAround(options, Pred(k, |options|), j - 1);
    }
  }

  /** The wrap invariant: on a list of `n` distinct items, `n` calls to
      `next` bring the highlight back. */
  lemma FlatNextFullCircle(options: seq<Item>, k: nat)
    requires Distinct(options) && k < |options|
    ensures FlatNextN(options, Some(options[k]), |options|) == Some(options[k])
  {
    FlatNextAround(options, k, |options|);
  }

  /** The same for `prev`: `n` calls bring the highlight back. */
  lemma FlatPrevFullCircle(options: seq<Item>, k: nat)
    requires Distinct(options) && k < |options|
    ensures FlatPrevN(options, Some(options[k]), |options|) == Some(options[k])
  {
    FlatPrevAround(options, k, |options|);
  }

  /** Any whole number of rounds of `next` brings the highlight back. */
  lemma {:induction false} FlatNextCycles(options: seq<Item>, k: nat, m: nat)
    requires Distinct(options) && k < |options|
    ensures FlatNextN(options, Some(options[k]), m * |options|) == Some(options[k])
    decreases m
  {
    if m > 0 {
      var n := |options|;
      assert m * n == (m - 1) * n + n;
      FlatNextCycles(options, k, m - 1);
      NextStepsCompose(options, Some(options[k]), (m - 1) * n, n);
      FlatNextFullCircle(options, k);
    }
  }

  /** Any whole number of rounds of `prev` brings the highlight back. */
  lemma {:induction false} FlatPrevCycles(options: seq<Item>, k: nat, m: nat)
    requires Distinct(options) && k < |options|
    ensures FlatPrevN(options, Some(options[k]), m * |options|) == Some(options[k])
    decreases m
  {
    if m > 0 {
      var n := |options|;
      assert m * n == (m - 1) * n + n;
      FlatPrevCycles(options, k, m - 1);
      PrevStepsCompose(options, Some(options[k]), (m - 1) * n, n);
      FlatPrevFullCircle(options, k);
    }
  }

  /** The filter predicate of `GenericBehavior.filter`: the tag-stripped text
      matches the query and, in multi-select mode, the item is not chosen. */
  function FlatFilter(items: seq<Item>, query: string -> bool, stripTags: string -> string,
                      multiple: bool, chosen: seq<Id>): seq<Item>
  {
    Keep(items, FlatKeeps(query, stripTags, multiple, chosen))
  }

  function FlatKeeps(query: string -> bool, stripTags: string -> string, multiple: bool, chosen: seq<Id>): Item -> bool
  {
    (x: Item) => query(stripTags(x.text)) && (!multiple || x.id !in chosen)
  }

  /** The flat filter keeps, in their order, exactly the items whose plain
      text matches, every occurrence of each; in multi-select mode it drops
      the chosen ones, otherwise it drops nothing for being chosen. */
  lemma FlatFilterSpec(items: seq<Item>, query: string -> bool, stripTags: string -> string,
                       multiple: bool, chosen: seq<Id>)
    ensures var r := FlatFilter(items, query, stripTags, multiple, chosen);
      && IsSubsequence(r, items)
      && (forall x :: x in r <==> x in items && query(stripTags(x.text)) && (!multiple || x.id !in chosen))
      && (forall x :: multiset(r)[x]
            == if query(stripTags(x.text)) && (!multiple || x.id !in chosen) then multiset(items)[x] else 0)
      && (!multiple ==> r == FlatFilter(items, query, stripTags, false, []))
  {
    var p := FlatKeeps(query, stripTags, multiple, chosen);
    KeepIsSubsequence(items, p);
    forall x ensures x in Keep(items, p) <==> x in items && p(x) {
      KeepMembers(items, p, x);
    }
    forall x ensures multiset(Keep(items, p))[x] == if p(x) then multiset(items)[x] else 0 {
      KeepCount(items, p, x);
    }
    if !multiple {
      KeepSamePredicate(items, p, FlatKeeps(query, stripTags, false, []));
    }
  }

  /** The multi-select exclusion of `GenericBehavior.filter` as written: it
      maps `item.id` over `active`, but `selectMatch` stores ids there, and
      an id has no `id` property, so the list searched holds one `undefined`
      (None) per chosen id and never holds an option's id. */
  function FlatFilterAsWritten(items: seq<Item>, query: string -> bool, stripTags: string -> string,
                               multiple: bool, chosen: seq<Id>): seq<Item>
  {
    var chosenIds: seq<Option<Id>> := seq(|chosen|, k requires 0 <= k < |chosen| => None);
    Keep(items, (x: Item) => query(stripTags(x.text)) && (!multiple || Some(x.id) !in chosenIds))
  }

  /** As written, the exclusion never fires: in either mode the result is
      the single-select result. */
  lemma FlatFilterAsWrittenIgnoresChosen(items: seq<Item>, query: string -> bool, stripTags: string -> string,
                                         multiple: bool, chosen: seq<Id>)
    ensures FlatFilterAsWritten(items, query, stripTags, multiple, chosen) == FlatFilter(items, query, stripTags, false, [])
  {
    var chosenIds: seq<Option<Id>> := seq(|chosen|, k requires 0 <= k < |chosen| => None);
    var asWritten := (x: Item) => query(stripTags(x.text)) && (!multiple || Some(x.id) !in chosenIds);
    forall x: Item ensures asWritten(x) == FlatKeeps(query, stripTags, false, [])(x) {
      assert Some(x.id) !in chosenIds;
    }
    KeepSamePredicate(items, asWritten, FlatKeeps(query, stripTags, false, []));
  }

  /** Items A, B, C all matching, B chosen in multi-select mode: as written
      B is still offered; the intended filter offers A and C only. */
  lemma ChosenItemStillOffered(a: Item, b: Item, c: Item, query: string -> bool, stripTags: string -> string)
    requires a.id != b.id && c.id != b.id
    requires query(stripTags(a.text)) && query(stripTags(b.text)) && query(stripTags(c.text))
    ensures FlatFilterAsWritten([a, b, c], query, stripTags, true, [b.id]) == [a, b, c]
    ensures FlatFilter([a, b, c], query, stripTags, true, [b.id]) == [a, c]
  {
    FlatFilterAsWrittenIgnoresChosen([a, b, c], query, stripTags, true, [b.id]);
    FlatFilterExample(a, b, c, query, stripTags);
    FlatFilterSpec([a, b, c], query, stripTags, false, [b.id]);
  }

  /** Filtering the filtered list again with the same query changes nothing. */
  lemma FlatFilterIdempotent(items: seq<Item>, query: string -> bool, stripTags: string -> string,
                             multiple: bool, chosen: seq<Id>)
    ensures var once := FlatFilter(items, query, stripTags, multiple, chosen);
      FlatFilter(once, query, stripTags, multiple, chosen) == once
  {
    KeepIdempotent(items, FlatKeeps(query, stripTags, multiple, chosen));
  }

  /** Items A, B, C all matching, B chosen: multi-select shows A and C,
      single-select shows all three. */
  lemma FlatFilterExample(a: Item, b: Item, c: Item, query: string -> bool, stripTags: string -> string)
    requires a.id != b.id && c.id != b.id
    requires query(stripTags(a.text)) && query(stripTags(b.text)) && query(stripTags(c.text))
    ensures FlatFilter([a, b, c], query, stripTags, true, [b.id]) == [a, c]
    ensures FlatFilter([a, b, c], query, stripTags, false, [b.id]) == [a, b, c]
  {
    assert [a, b, c][1..] == [b, c] && [b, c][1..] == [c] && [c][1..] == [];
    var multi := FlatKeeps(query, stripTags, true, [b.id]);
    assert multi(a) && !multi(b) && multi(c);
    assert Keep([c], multi) == [c];
    assert Keep([b, c], multi) == [c];
    var single := FlatKeeps(query, stripTags, false, [b.id]);
    assert single(a) && single(b) && single(c);
    assert Keep([c], single) == [c];
    assert Keep([b, c], single) == [b, c];
  }

  // ------------------------------------------------------------- grouped list

  /** A group narrowed to its children whose (raw) text matches: a
      `getSimilar` copy of the group holding only those children. */
  function Narrow(group: Item, query: string -> bool): Item
  {
    group.(children := Keep(group.children, (c: Item) => query(c.text)))
  }

  /** Every group narrowed, in order. */
  function NarrowAll(groups: seq<Item>, query: string -> bool): seq<Item>
  {
    seq(|groups|, k requires 0 <= k < |groups| => Narrow(groups[k], query))
  }

  predicate HasChildren(g: Item)
  {
    g.children != []
  }

  /** The candidate list `ChildrenBehavior.filter` builds: each group
      narrowed to its matching children, groups left without children
      dropped. */
  function GroupFilter(groups: seq<Item>, query: string -> bool): seq<Item>
  {
    Keep(NarrowAll(groups, query), HasChildren)
  }

  /** The grouped filter keeps the groups' order; a group appears (as
      often as it occurs) exactly when at least one of its children matches, and then as a copy of the
      group holding exactly its matching children. */
  lemma GroupFilterSpec(groups: seq<Item>, query: string -> bool)
    ensures var r := GroupFilter(groups, query);
      && IsSubsequence(r, NarrowAll(groups, query))
      && (forall g :: g in r <==> g in NarrowAll(groups, query) && g.children != [])
      && (forall g :: multiset(r)[g] == if g.children != [] then multiset(NarrowAll(groups, query))[g] else 0)
      && (forall k :: 0 <= k < |r| ==>
            r[k].children != [] && forall c :: c in r[k].children ==> query(c.text))
  {
    var ns := NarrowAll(groups, query);
    KeepIsSubsequence(ns, HasChildren);
    forall g ensures g in Keep(ns, HasChildren) <==> g in ns && HasChildren(g) {
      KeepMembers(ns, HasChildren, g);
    }
    forall g ensures multiset(Keep(ns, HasChildren))[g] == if HasChildren(g) then multiset(ns)[g] else 0 {
      KeepCount(ns, HasChildren, g);
    }
    forall k | 0 <= k < |GroupFilter(groups, query)|
      ensures GroupFilter(groups, query)[k].children != []
      ensures forall c :: c in GroupFilter(groups, query)[k].children ==> query(c.text)
    {
      var g := GroupFilter(groups, query)[k];
      KeepMembers(ns, HasChildren, g);
      var j :| 0 <= j < |ns| && ns[j] == g;
      forall c | c in g.children ensures query(c.text) {
        KeepMembers(groups[j].children, (c: Item) => query(c.text), c);
      }
    }
  }

  /** Filtering the grouped result again with the same query changes nothing. */
  lemma GroupFilterIdempotent(groups: seq<Item>, query: string -> bool)
    ensures GroupFilter(GroupFilter(groups, query), query) == GroupFilter(groups, query)
  {
    var r := GroupFilter(groups, query);
    GroupFilterSpec(groups, query);
    forall k | 0 <= k < |r| ensures Narrow(r[k], query) == r[k] {
      KeepAllHold(r[k].children, (c: Item) => query(c.text));
    }
    assert NarrowAll(r, query) == r;
    KeepIdempotent(NarrowAll(groups, query), HasChildren);
  }

  /** One step of `ChildrenBehavior.filter`'s loop over the groups. */
  lemma GroupFilterStep(groups: seq<Item>, query: string -> bool, i: nat)
    requires i < |groups|
    ensures GroupFilter(groups[..i + 1], query)
         == GroupFilter(groups[..i], query) + (if HasChildren(Narrow(groups[i], query)) then [Narrow(groups[i], query)] else [])
  {
    assert NarrowAll(groups[..i + 1], query) == NarrowAll(groups[..i], query) + [Narrow(groups[i], query)];
    KeepSnoc(NarrowAll(groups[..i], query), Narrow(groups[i], query), HasChildren);
  }

  // ------------------------------------------------------ grouped navigation

  /** The position of the active item's group: the first group whose id is
      the active item's parent id, or -1. */
  function ParentIndex(options: seq<Item>, active: Item): int
  {
    FindIndex(options, (o: Item) => active.parent.Some? && active.parent.value == o.id)
  }

  /** The position of the active item among a group's children, by id, or -1. */
  function ChildIndex(children: seq<Item>, active: Item): int
  {
    FindIndex(children, (c: Item) => c.id == active.id)
  }

  /** `ChildrenBehavior.first`: the first child of the first group. */
  function GroupFirst(options: seq<Item>): Option<Item>
    requires options != []
  {
    At(options[0].children, 0)
  }

  /** `ChildrenBehavior.last`: the last child of the last group. */
  function GroupLast(options: seq<Item>): Option<Item>
    requires options != []
  {
    var g := options[|options| - 1];
    At(g.children, |g.children| - 1)
  }

  /** Where `ChildrenBehavior.next` lands before its fall-back to `first`:
      the next child of the group, else the first child of the next group. */
  function GroupNextStep(options: seq<Item>, active: Item): Option<Item>
    requires ParentIndex(options, active) >= 0
  {
    var p := ParentIndex(options, active);
    var i := ChildIndex(options[p].children, active);
    var step := At(options[p].children, i + 1);
    if step.Some? then step
    else if p + 1 < |options| then At(options[p + 1].children, 0)
    else None
  }

  /** Where `ChildrenBehavior.prev` lands before its fall-back to `last`:
      the previous child of the group, else the last child of the previous
      group. */
  function GroupPrevStep(options: seq<Item>, active: Item): Option<Item>
    requires ParentIndex(options, active) >= 0
  {
    var p := ParentIndex(options, active);
    var i := ChildIndex(options[p].children, active);
    var step := At(options[p].children, i - 1);
    if step.Some? then step
    else if p - 1 >= 0 then At(options[p - 1].children, |options[p - 1].children| - 1)
    else None
  }

  /** `ChildrenBehavior.next`. */
  function GroupNext(options: seq<Item>, active: Item): Option<Item>
    requires ParentIndex(options, active) >= 0
  {
    var step := GroupNextStep(options, active);
    if step.Some? then step else GroupFirst(options)
  }

  /** `ChildrenBehavior.prev`. */
  function GroupPrev(options: seq<Item>, active: Item): Option<Item>
    requires ParentIndex(options, active) >= 0
  {
    var step := GroupPrevStep(options, active);
    if step.Some? then step else GroupLast(options)
  }

  /** A well-formed two-level list: distinct group ids, every group has a
      child, children carry their group's id as parent and have distinct
      ids within the group. */
  predicate WellFormed(options: seq<Item>)
  {
    && DistinctIds(options)
    && (forall p :: 0 <= p < |options| ==> options[p].children != [] && DistinctIds(options[p].children))
    && (forall p, j :: 0 <= p < |options| && 0 <= j < |options[p].children| ==>
          options[p].children[j].parent == Some(options[p].id))
  }

  /** In a well-formed list, child `j` of group `p` is found at group `p`,
      position `j`. */
  lemma LocateChild(options: seq<Item>, p: nat, j: nat)
    requires WellFormed(options) && p < |options| && j < |options[p].children|
    ensures ParentIndex(options, options[p].children[j]) == p
    ensures ChildIndex(options[p].children, options[p].children[j]) == j
  {
  }

  /** Inside a group, `next` and `prev` move to the adjacent child. */
  lemma GroupStepWithinGroup(options: seq<Item>, p: nat, j: nat)
    requires WellFormed(options) && p < |options| && j < |options[p].children|
    ensures j + 1 < |options[p].children| ==>
      GroupNext(options, options[p].children[j]) == Some(options[p].children[j + 1])
    ensures j > 0 ==>
      GroupPrev(options, options[p].children[j]) == Some(options[p].children[j - 1])
  {
    LocateChild(options, p, j);
  }

  /** The group-crossing invariant: from the last child of a group, `next`
      goes to the first child of the next group, and from the last group
      round to the first child of the first group. */
  lemma GroupNextCrossesGroups(options: seq<Item>, p: nat)
    requires WellFormed(options) && p < |options|
    ensures var last := options[p].children[|options[p].children| - 1];
      GroupNext(options, last)
        == if p + 1 < |options| then Some(options[p + 1].children[0]) else Some(options[0].children[0])
  {
    LocateChild(options, p, |options[p].children| - 1);
  }

  /** From the first child of a group, `prev` goes to the last child of the
      previous group, and from the first group round to the last child of
      the last group. */
  lemma GroupPrevCrossesGroups(options: seq<Item>, p: nat)
    requires WellFormed(options) && p < |options|
    ensures var first := options[p].children[0];
      GroupPrev(options, first)
        == if p > 0 then Some(options[p - 1].children[|options[p - 1].children| - 1])
           else Some(options[|options| - 1].children[|options[|options| - 1].children| - 1])
  {
    LocateChild(options, p, 0);
  }

  /** A grouped filter that matched no child leaves no candidates, so no
      highlight's group can be found among them: `prev` and `next` then
      read `options[-1].children` and throw. */
  lemma EmptyGroupFilterStrandsHighlight(groups: seq<Item>, query: string -> bool, active: Item)
    requires forall k, c :: 0 <= k < |groups| && c in groups[k].children ==> !query(c.text)
    ensures GroupFilter(groups, query) == []
    ensures ParentIndex(GroupFilter(groups, query), active) == -1
  {
    var r := GroupFilter(groups, query);
    if r != [] {
      GroupFilterSpec(groups, query);
      var ns := NarrowAll(groups, query);
      assert r[0] in ns;
      var j :| 0 <= j < |ns| && ns[j] == r[0];
      var c := r[0].children[0];
      KeepMembers(groups[j].children, (c: Item) => query(c.text), c);
      assert false;
    }
  }

  /** Child `j` of group `p` is a row of the flattened list. */
  lemma {:induction false} ChildIsFlattened(options: seq<Item>, p: nat, j: nat)
    requires p < |options| && j < |options[p].children|
    ensures options[p].children[j] in Flatten(options)
  {
    var init := options[..|options| - 1];
    assert Flatten(options) == Flatten(init) + options[|options| - 1].children;
    if p < |options| - 1 {
      assert init[p] == options[p];
      ChildIsFlattened(init, p, j);
    }
  }

  /** `ChildrenBehavior.next` made total: with no
      candidates nothing moves, and a highlight whose group is not shown
      (or no highlight) falls back to `first`; otherwise the source's step. */
  function GroupNextTotal(options: seq<Item>, active: Option<Item>): Option<Item>
  {
    if options == [] then active
    else if active.None? || ParentIndex(options, active.value) < 0 then GroupFirst(options)
    else GroupNext(options, active.value)
  }

  /** `ChildrenBehavior.prev` as intended: a no-op without candidates, a
      fall-back to `last` for a highlight whose group is not shown. */
  function GroupPrevTotal(options: seq<Item>, active: Option<Item>): Option<Item>
  {
    if options == [] then active
    else if active.None? || ParentIndex(options, active.value) < 0 then GroupLast(options)
    else GroupPrev(options, active.value)
  }

  /** The intended `next` is defined for every state, agrees with the source
      wherever the source does not throw, leaves the highlight alone without
      candidates, and on a well-formed non-empty list always lands on a
      shown child. */
  lemma GroupNextTotalSpec(options: seq<Item>, active: Option<Item>)
    ensures options == [] ==> GroupNextTotal(options, active) == active
    ensures active.Some? && ParentIndex(options, active.value) >= 0 ==>
      GroupNextTotal(options, active) == GroupNext(options, active.value)
    ensures options != [] && (active.None? || ParentIndex(options, active.value) < 0) ==>
      GroupNextTotal(options, active) == GroupFirst(options)
    ensures WellFormed(options) && options != [] ==>
      GroupNextTotal(options, active).Some? && GroupNextTotal(options, active).value in Flatten(options)
  {
    if WellFormed(options) && options != [] {
      ChildIsFlattened(options, 0, 0);
      if active.Some? && ParentIndex(options, active.value) >= 0 {
        var p := ParentIndex(options, active.value);
        var i := ChildIndex(options[p].children, active.value);
        if 0 <= i + 1 < |options[p].children| {
          ChildIsFlattened(options, p, i + 1);
        } else if p + 1 < |options| {
          ChildIsFlattened(options, p + 1, 0);
        }
      }
    }
  }

  /** The intended `prev`, likewise: total, the source's step where the
      source does not throw, a no-op without candidates, and on a
      well-formed non-empty list always a shown child. */
  lemma GroupPrevTotalSpec(options: seq<Item>, active: Option<Item>)
    ensures options == [] ==> GroupPrevTotal(options, active) == active
    ensures active.Some? && ParentIndex(options, active.value) >= 0 ==>
      GroupPrevTotal(options, active) == GroupPrev(options, active.value)
    ensures options != [] && (active.None? || ParentIndex(options, active.value) < 0) ==>
      GroupPrevTotal(options, active) == GroupLast(options)
    ensures WellFormed(options) && options != [] ==>
      GroupPrevTotal(options, active).Some? && GroupPrevTotal(options, active).value in Flatten(options)
  {
    if WellFormed(options) && options != [] {
      var last := |options| - 1;
      ChildIsFlattened(options, last, |options[last].children| - 1);
      if active.Some? && ParentIndex(options, active.value) >= 0 {
        var p := ParentIndex(options, active.value);
        var i := ChildIndex(options[p].children, active.value);
        if 0 <= i - 1 < |options[p].children| {
          ChildIsFlattened(options, p, i - 1);
        } else if p - 1 >= 0 {
          ChildIsFlattened(options, p - 1, |options[p - 1].children| - 1);
        }
      }
    }
  }

  // ----------------------------------------------------- resolving the row

  /** `getActiveIndex` can run: it reads `activeOption.id` only when the map
      is consulted, which needs a highlight. */
  predicate CanResolve(options: seq<Item>, active: Option<Item>, optionsMap: Option<map<Id, int>>)
  {
    optionsMap.None? || active.Some?
  }

  /** `getActiveIndex`: the direct index of the highlight in the candidate
      list; only when that is negative and a map was supplied, the map's
      entry for its id (None standing for `undefined`). */
  function ActiveIndex(options: seq<Item>, active: Option<Item>, optionsMap: Option<map<Id, int>>): (r: Option<int>)
    requires CanResolve(options, active, optionsMap)
    ensures IndexOfActive(options, active) >= 0 ==> r == Some(IndexOfActive(options, active))
    ensures optionsMap.None? ==> r == Some(IndexOfActive(options, active))
    ensures IndexOfActive(options, active) < 0 && optionsMap.Some? ==>
      r == (if active.value.id in optionsMap.value then Some(optionsMap.value[active.value.id]) else None)
    ensures r.Some? && r.value >= 0 && IndexOfActive(options, active) < 0 ==> optionsMap.Some?
  {
    var ai := IndexOfActive(options, active);
    if ai < 0 && optionsMap.Some? then
      var id := active.value.id;
      if id in optionsMap.value then Some(optionsMap.value[id]) else None
    else Some(ai)
  }

  /** After a grouped filter the highlight is a child, not in the list of
      groups; the map built from the unfiltered groups resolves it to its
      row in the unfiltered flattened list. */
  lemma ActiveIndexFromMap(options: seq<Item>, groups: seq<Item>, k: nat)
    requires DistinctIds(Flatten(groups)) && k < |Flatten(groups)|
    requires Flatten(groups)[k] !in options
    ensures ActiveIndex(options, Some(Flatten(groups)[k]), Some(IndexMap(groups))) == Some(k)
  {
    IndexMapPositions(groups);
  }

  /** The scroll offset `ensureHighlightVisible` leaves: unchanged with no
      rows rendered, otherwise reconciled for the resolved row. */
  function Highlight(scrollTop: int, height: int, rows: seq<Row>,
                     options: seq<Item>, active: Option<Item>, optionsMap: Option<map<Id, int>>): (r: int)
    requires |rows| == 0 || CanResolve(options, active, optionsMap)
    ensures |rows| == 0 ==> r == scrollTop
    ensures |rows| > 0 && IndexOfActive(options, active) < 0 && optionsMap.None? ==> r == scrollTop
  {
    if |rows| < 1 then scrollTop
    else Reconcile(scrollTop, height, rows, ActiveIndex(options, active, optionsMap))
  }
}
