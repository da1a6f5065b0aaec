/** The identity index map of the grouped list: item id to row position in
    the flattened list of children (`Behavior.fillOptionsMap` and
    `SelectItem.fillChildrenHash`). */
module IdentityIndex {
  import opened Items

  /** The map after `fillChildrenHash` has given the children `cs`, in
      order, the positions `start`, `start + 1`, ...; a later child with the
      same id overwrites an earlier one, as `Map.set` does. */
  function ChildrenHash(m: map<Id, int>, cs: seq<Item>, start: int): (r: map<Id, int>)
    decreases cs
  {
    if cs == [] then m
    else ChildrenHash(m[cs[0].id := start], cs[1..], start + 1)
  }

  /** `fillChildrenHash` adds exactly the children's ids to the map. */
  lemma {:induction false} ChildrenHashKeys(m: map<Id, int>, cs: seq<Item>, start: int)
    ensures ChildrenHash(m, cs, start).Keys == m.Keys + Ids(cs)
    decreases cs
  {
    if cs != [] {
      ChildrenHashKeys(m[cs[0].id := start], cs[1..], start + 1);
      IdsCons(cs);
    }
  }

  /** The map `fillOptionsMap` builds from the groups: positions count the
      children of all groups in order, starting at 0; a group contributes
      only its children, never a slot of its own. */
  function IndexMap(groups: seq<Item>): (r: map<Id, int>)
    ensures r.Keys == Ids(Flatten(groups))
  {
    ChildrenHashKeys(map[], Flatten(groups), 0);
    ChildrenHash(map[], Flatten(groups), 0)
  }

  /** `SelectItem.fillChildrenHash`: record the positions of a group's
      children and return the advanced counter. */
  method FillChildrenHash(m: map<Id, int>, group: Item, start: int) returns (m': map<Id, int>, next: int)
    ensures m' == ChildrenHash(m, group.children, start)
    ensures next == start + |group.children|
  {
    var cs := group.children;
    m', next := m, start;
    var i := 0;
    while i < |cs|
      invariant 0 <= i <= |cs|
      invariant next == start + i
      invariant ChildrenHash(m', cs[i..], next) == ChildrenHash(m, cs, start)
    {
      assert cs[i..][1..] == cs[i + 1..];
      m' := m'[cs[i].id := next];
      next := next + 1;
      i := i + 1;
    }
  }

  /** Threading the counter: filling `a` and then `b` from where `a` ended
      is filling `a + b`. */
  lemma {:induction false} ChildrenHashAppend(m: map<Id, int>, a: seq<Item>, b: seq<Item>, start: int)
    ensures ChildrenHash(m, a + b, start) == ChildrenHash(ChildrenHash(m, a, start), b, start + |a|)
    decreases a
  {
    if a == [] {
      assert a + b == b;
    } else {
      assert (a + b)[1..] == a[1..] + b;
      ChildrenHashAppend(m[a[0].id := start], a[1..], b, start + 1);
    }
  }

  /** The flattened list grows by one group's children at a time. */
  lemma FlattenStep(groups: seq<Item>, i: nat)
    requires i < |groups|
    ensures Flatten(groups[..i + 1]) == Flatten(groups[..i]) + groups[i].children
  {
    assert groups[..i + 1][..i] == groups[..i];
  }

  /** One step of `fillOptionsMap`'s loop: after the groups before `i` the
      map holds their positions and the counter is the number of their
      children; handling group `i` keeps both facts. */
  lemma IndexMapStep(groups: seq<Item>, i: nat)
    requires i < |groups|
    ensures IndexMap(groups[..i + 1])
         == ChildrenHash(IndexMap(groups[..i]), groups[i].children, |Flatten(groups[..i])|)
  {
    FlattenStep(groups, i);
    ChildrenHashAppend(map[], Flatten(groups[..i]), groups[i].children, 0);
  }

  /** An id that none of `cs` carries keeps its old position. */
  lemma {:induction false} ChildrenHashUntouched(m: map<Id, int>, cs: seq<Item>, start: int, id: Id)
    requires forall k :: 0 <= k < |cs| ==> cs[k].id != id
    ensures id in m ==> id in ChildrenHash(m, cs, start) && ChildrenHash(m, cs, start)[id] == m[id]
    decreases cs
  {
    if cs != [] {
      ChildrenHashUntouched(m[cs[0].id := start], cs[1..], start + 1, id);
    }
  }

  /** With distinct ids, child `k` of `cs` is at position `start + k`. */
  lemma {:induction false} ChildrenHashPositions(m: map<Id, int>, cs: seq<Item>, start: int)
    requires DistinctIds(cs)
    ensures forall k :: 0 <= k < |cs| ==>
      cs[k].id in ChildrenHash(m, cs, start) && ChildrenHash(m, cs, start)[cs[k].id] == start + k
    decreases cs
  {
    if cs != [] {
      ChildrenHashKeys(m, cs, start);
      var m1 := m[cs[0].id := start];
      ChildrenHashPositions(m1, cs[1..], start + 1);
      ChildrenHashUntouched(m1, cs[1..], start + 1, cs[0].id);
      forall k | 0 <= k < |cs|
        ensures cs[k].id in ChildrenHash(m, cs, start) && ChildrenHash(m, cs, start)[cs[k].id] == start + k
      {
        if k > 0 {
          assert cs[k] == cs[1..][k - 1];
        }
      }
    }
  }

  /** With distinct child ids, the map sends the id of the `k`-th row of the
      flattened list to `k`, and holds no other id. */
  lemma IndexMapPositions(groups: seq<Item>)
    requires DistinctIds(Flatten(groups))
    ensures forall k :: 0 <= k < |Flatten(groups)| ==>
      Flatten(groups)[k].id in IndexMap(groups) && IndexMap(groups)[Flatten(groups)[k].id] == k
  {
    ChildrenHashPositions(map[], Flatten(groups), 0);
  }

  /** The two-group example: `[{1: [10, 11]}, {2: [20]}]` gives
      `{10: 0, 11: 1, 20: 2}`; the groups themselves are not indexed. */
  lemma IndexMapExample()
    ensures
      var c10 := Item(Num(10), "a", [], Some(Num(1)));
      var c11 := Item(Num(11), "b", [], Some(Num(1)));
      var c20 := Item(Num(20), "c", [], Some(Num(2)));
      var groups := [Item(Num(1), "g1", [c10, c11], None), Item(Num(2), "g2", [c20], None)];
      IndexMap(groups) == map[Num(10) := 0, Num(11) := 1, Num(20) := 2]
  {
    var c10 := Item(Num(10), "a", [], Some(Num(1)));
    var c11 := Item(Num(11), "b", [], Some(Num(1)));
    var c20 := Item(Num(20), "c", [], Some(Num(2)));
    var groups := [Item(Num(1), "g1", [c10, c11], None), Item(Num(2), "g2", [c20], None)];
    assert groups[..1] == [groups[0]];
    assert Flatten(groups[..1]) == [c10, c11];
    assert Flatten(groups) == [c10, c11, c20];
    var cs := [c10, c11, c20];
    assert cs[1..] == [c11, c20] && cs[1..][1..] == [c20] && cs[1..][1..][1..] == [];
  }
}
