/** Select items and the list helpers the widget uses on them (JavaScript's
    `xs[i]`, `findIndex`, `indexOf`, `filter`). */
module Items {

  datatype Option<+T> = None | Some(value: T)

  /** An item id. The widget accepts string and numeric ids. */
  datatype Id = Str(s: string) | Num(n: int)

  /** A select item: its id, its display text, its ordered children (empty
      for a flat item) and the id of the group that owns it, if any. */
  datatype Item = Item(id: Id, text: string, children: seq<Item>, parent: Option<Id>)

  /** JavaScript's `xs[i]`: `undefined` (None) outside the array. */
  function At<T>(xs: seq<T>, i: int): (r: Option<T>)
    ensures r.Some? <==> 0 <= i < |xs|
    ensures r.Some? ==> r.value == xs[i]
  {
    if 0 <= i < |xs| then Some(xs[i]) else None
  }

  /** JavaScript's `findIndex`: the first position whose element satisfies
      `p`, or -1. */
  function FindIndex<T>(xs: seq<T>, p: T -> bool): (r: int)
    ensures -1 <= r < |xs|
    ensures r >= 0 ==> p(xs[r]) && forall j :: 0 <= j < r ==> !p(xs[j])
    ensures r < 0 ==> forall j :: 0 <= j < |xs| ==> !p(xs[j])
  {
    if xs == [] then -1
    else if p(xs[0]) then 0
    else
      var k := FindIndex(xs[1..], p);
      if k < 0 then -1 else k + 1
  }

  /** JavaScript's `indexOf`: the first position holding `x`, or -1. */
  function IndexOf<T(==)>(xs: seq<T>, x: T): (r: int)
    ensures -1 <= r < |xs|
    ensures r >= 0 ==> xs[r] == x && x !in xs[..r]
    ensures r < 0 <==> x !in xs
  {
    var r := FindIndex(xs, y => y == x);
    assert r >= 0 ==> forall j :: 0 <= j < r ==> xs[..r][j] != x;
    r
  }

  /** `indexOf` of a reference that may be `undefined`: an array of items
      never holds `undefined`, so the answer is then -1. */
  function IndexOfActive(xs: seq<Item>, a: Option<Item>): (r: int)
    ensures -1 <= r < |xs|
    ensures r >= 0 ==> a == Some(xs[r]) && a.value !in xs[..r]
    ensures r < 0 <==> (a.None? || a.value !in xs)
  {
    match a
    case None => -1
    case Some(x) => IndexOf(xs, x)
  }

  /** JavaScript's `filter`: the elements satisfying `p`, in order. */
  function Keep<T>(xs: seq<T>, p: T -> bool): (r: seq<T>)
    ensures forall k :: 0 <= k < |r| ==> p(r[k])
  {
    if xs == [] then []
    else if p(xs[0]) then [xs[0]] + Keep(xs[1..], p)
    else Keep(xs[1..], p)
  }

  /** `a` is obtained from `b` by deleting elements (order preserved). */
  predicate IsSubsequence<T(==)>(a: seq<T>, b: seq<T>)
  {
    if a == [] then true
    else if b == [] then false
    else if a[0] == b[0] then IsSubsequence(a[1..], b[1..])
    else IsSubsequence(a, b[1..])
  }

  /** The elements `filter` keeps are exactly those of `xs` satisfying `p`. */
  lemma {:induction false} KeepMembers<T>(xs: seq<T>, p: T -> bool, x: T)
    ensures x in Keep(xs, p) <==> x in xs && p(x)
  {
    if xs != [] {
      KeepMembers(xs[1..], p, x);
      assert xs == [xs[0]] + xs[1..];
    }
  }

  /** `filter` keeps every occurrence of an element satisfying `p` and no
      occurrence of any other. */
  lemma {:induction false} KeepCount<T>(xs: seq<T>, p: T -> bool, x: T)
    ensures multiset(Keep(xs, p))[x] == if p(x) then multiset(xs)[x] else 0
  {
    if xs != [] {
      KeepCount(xs[1..], p, x);
      assert xs == [xs[0]] + xs[1..];
    }
  }

  /** `filter` keeps the order of `xs`. */
  lemma {:induction false} KeepIsSubsequence<T>(xs: seq<T>, p: T -> bool)
    ensures IsSubsequence(Keep(xs, p), xs)
  {
    if xs != [] {
      KeepIsSubsequence(xs[1..], p);
      var r := Keep(xs, p);
      if p(xs[0]) {
        assert r[0] == xs[0] && r[1..] == Keep(xs[1..], p);
      } else if r != [] {
        SubsequenceSkip(r, xs);
      }
    }
  }

  /** Skipping a head that is not used keeps a subsequence a subsequence. */
  lemma {:induction false} SubsequenceSkip<T>(a: seq<T>, b: seq<T>)
    requires b != [] && IsSubsequence(a, b[1..])
    ensures IsSubsequence(a, b)
    decreases |a| + |b|
  {
    if a != [] && a[0] == b[0] {
      SubsequenceDrop(a, b[1..]);
    }
  }

  /** Dropping the head of a subsequence leaves a subsequence. */
  lemma {:induction false} SubsequenceDrop<T>(a: seq<T>, b: seq<T>)
    requires a != [] && IsSubsequence(a, b)
    ensures IsSubsequence(a[1..], b)
    decreases |a| + |b|
  {
    assert b != [];
    if a[0] == b[0] {
      if a[1..] != [] {
        SubsequenceSkip(a[1..], b);
      }
    } else {
      SubsequenceDrop(a, b[1..]);
      if a[1..] != [] {
        SubsequenceSkip(a[1..], b);
      }
    }
  }

  /** Filtering a list extended by one element. */
  lemma {:induction false} KeepSnoc<T>(xs: seq<T>, x: T, p: T -> bool)
    ensures Keep(xs + [x], p) == Keep(xs, p) + (if p(x) then [x] else [])
  {
    if xs == [] {
      assert xs + [x] == [x];
    } else {
      assert (xs + [x])[1..] == xs[1..] + [x];
      KeepSnoc(xs[1..], x, p);
    }
  }

  /** Filtering twice with the same predicate is filtering once. */
  lemma {:induction false} KeepIdempotent<T>(xs: seq<T>, p: T -> bool)
    ensures Keep(Keep(xs, p), p) == Keep(xs, p)
  {
    if xs != [] {
      KeepIdempotent(xs[1..], p);
      if p(xs[0]) {
        var r := Keep(xs, p);
        assert r[0] == xs[0] && r[1..] == Keep(xs[1..], p);
      }
    }
  }

  /** Two predicates that agree on every element filter alike. */
  lemma {:induction false} KeepSamePredicate<T>(xs: seq<T>, p: T -> bool, q: T -> bool)
    requires forall x :: p(x) == q(x)
    ensures Keep(xs, p) == Keep(xs, q)
  {
    if xs != [] {
      KeepSamePredicate(xs[1..], p, q);
    }
  }

  /** A filter whose predicate holds everywhere keeps everything. */
  lemma {:induction false} KeepAllHold<T>(xs: seq<T>, p: T -> bool)
    requires forall x :: x in xs ==> p(x)
    ensures Keep(xs, p) == xs
  {
    if xs != [] {
      KeepAllHold(xs[1..], p);
      assert xs == [xs[0]] + xs[1..];
    }
  }

  /** The children of the groups, in order: the flattened two-level list. */
  function Flatten(groups: seq<Item>): (r: seq<Item>)
  {
    if groups == [] then []
    else Flatten(groups[..|groups| - 1]) + groups[|groups| - 1].children
  }

  /** The ids of a list of items. */
  function Ids(cs: seq<Item>): set<Id>
  {
    set c | c in cs :: c.id
  }

  lemma IdsCons(cs: seq<Item>)
    requires cs != []
    ensures Ids(cs) == {cs[0].id} + Ids(cs[1..])
  {
    assert cs == [cs[0]] + cs[1..];
  }

  /** No two items of `xs` share an id. */
  predicate DistinctIds(xs: seq<Item>)
  {
    forall i, j :: 0 <= i < j < |xs| ==> xs[i].id != xs[j].id
  }
}
