/** The option behaviours of build/dist/behavior.ts: one object per component
    that moves the component's highlight (`activeOption`), replaces its
    candidate list on filtering, keeps the identity index map and scrolls
    the highlighted row into view. `GenericBehavior` and `ChildrenBehavior`
    are the two variants of one class, told apart by `grouped`, which
    `ngOnInit` fixes once. */
module Behavior {
  import opened Items
  import opened IdentityIndex
  import opened Scroll
  import opened Navigation
  import opened Select

  /** The loop of `ChildrenBehavior.filter`: narrow each group to its
      matching children, keep the groups left non-empty, and index every
      child of every group (matching or not) on the way. */
  method FilterGroups(items: seq<Item>, query: string -> bool) returns (options: seq<Item>, localMap: map<Id, int>)
    ensures options == GroupFilter(items, query)
    ensures localMap == IndexMap(items)
  {
    options := [];
    localMap := map[];
    var startPos := 0;
    var i := 0;
    while i < |items|
      invariant 0 <= i <= |items|
      invariant options == GroupFilter(items[..i], query)
      invariant localMap == IndexMap(items[..i])
      invariant startPos == |Flatten(items[..i])|
    {
      var si := items[i];
      var children := Keep(si.children, (o: Item) => query(o.text));
      IndexMapStep(items, i);
      FlattenStep(items, i);
      GroupFilterStep(items, query, i);
      localMap, startPos := FillChildrenHash(localMap, si, startPos);
      if |children| > 0 {
        var newSi := si.(children := children);
        options := options + [newSi];
      }
      i := i + 1;
    }
    assert items[..i] == items;
  }

  class OptionsBehavior {
    /** The component whose state the behaviour drives. */
    const actor: SelectComponent
    /** `ChildrenBehavior` (true) or `GenericBehavior` (false). */
    const grouped: bool
    /** `optionsMap`: item id to row position in the flattened groups. */
    var optionsMap: map<Id, int>

    /** `ngOnInit`: the grouped behaviour exactly when the first option has
        children. */
    constructor (actor: SelectComponent)
      ensures this.actor == actor && grouped == actor.FirstItemHasChildren() && optionsMap == map[]
    {
      this.actor := actor;
      this.grouped := actor.FirstItemHasChildren();
      optionsMap := map[];
    }

    /** Scrolling with highlight `active` and map `m` cannot fail: without a
        container or rendered rows nothing is resolved; otherwise the map is
        consulted only for a highlight that exists. */
    predicate CanScroll(active: Option<Item>, m: Option<map<Id, int>>)
      reads actor, actor.container
    {
      actor.container == null || |actor.container.rows| == 0 || CanResolve(actor.options, active, m)
    }

    /** The offset `ensureHighlightVisible` reaches from `scrollTop` for the
        current candidate list and highlight. */
    function ScrollAfter(scrollTop: int, m: Option<map<Id, int>>): int
      reads actor, actor.container
      requires actor.container != null && CanScroll(actor.activeOption, m)
    {
      Highlight(scrollTop, actor.container.offsetHeight, actor.container.rows,
                actor.options, actor.activeOption, m)
    }

    /** The state after a step that set the highlight to `target` and then
        reconciled the scroll offset once, or twice when a grouped step fell
        back to `first` or `last` (which reconcile too). */
    twostate predicate Moved(target: Option<Item>, new m: Option<map<Id, int>>, twice: bool)
      reads this, actor, actor.container
    {
      && actor.activeOption == target
      && actor.options == old(actor.options)
      && CanScroll(actor.activeOption, m)
      && (actor.container != null ==>
            actor.container.scrollTop
              == if twice then ScrollAfter(ScrollAfter(old(actor.container.scrollTop), m), m)
                 else ScrollAfter(old(actor.container.scrollTop), m))
    }

    /** `fillOptionsMap`: clear the map, then give the children of each
        source group, group after group, the next positions. */
    method FillOptionsMap()
      modifies this`optionsMap
      ensures optionsMap == IndexMap(actor.itemObjects)
    {
      optionsMap := map[];
      var startPos := 0;
      var items := actor.itemObjects;
      var i := 0;
      while i < |items|
        invariant 0 <= i <= |items|
        invariant optionsMap == IndexMap(items[..i])
        invariant startPos == |Flatten(items[..i])|
      {
        IndexMapStep(items, i);
        FlattenStep(items, i);
        optionsMap, startPos := FillChildrenHash(optionsMap, items[i], startPos);
        i := i + 1;
      }
      assert items[..i] == items;
    }

    /** `ensureHighlightVisible`: bring the highlighted row into view. */
    method EnsureHighlightVisible(m: Option<map<Id, int>>)
      requires CanScroll(actor.activeOption, m)
      modifies actor.container
      ensures actor.container != null ==> actor.container.scrollTop == ScrollAfter(old(actor.container.scrollTop), m)
    {
      var container := actor.container;
      if container == null {
        return;
      }
      var choices := container.rows;
      if |choices| < 1 {
        return;
      }
      var activeIndex := ActiveIndex(actor.options, actor.activeOption, m);
      // `undefined < 0` is false, so an unresolved index goes on
      if activeIndex.Some? && activeIndex.value < 0 {
        return;
      }
      var highlighted := if activeIndex.Some? then At(choices, activeIndex.value) else None;
      if highlighted.None? {
        return;
      }
      var row := highlighted.value;
      var posY := row.offsetTop + row.clientHeight - container.scrollTop;
      var height := container.offsetHeight;
      if posY > height {
        container.scrollTop := container.scrollTop + (posY - height);
      } else if posY < row.clientHeight {
        container.scrollTop := container.scrollTop - (row.clientHeight - posY);
      }
    }

    // ------------------------------------------------------ GenericBehavior

    /** `GenericBehavior.first`. */
    method GenericFirst()
      modifies actor`activeOption, actor.container
      ensures Moved(FlatFirst(old(actor.options)), None, false)
    {
      actor.activeOption := At(actor.options, 0);
      EnsureHighlightVisible(None);
    }

    /** `GenericBehavior.last`. */
    method GenericLast()
      modifies actor`activeOption, actor.container
      ensures Moved(FlatLast(old(actor.options)), None, false)
    {
      actor.activeOption := At(actor.options, |actor.options| - 1);
      EnsureHighlightVisible(None);
    }

    /** `GenericBehavior.prev`. */
    method GenericPrev()
      modifies actor`activeOption, actor.container
      ensures Moved(FlatPrev(old(actor.options), old(actor.activeOption)), None, false)
    {
      var index := IndexOfActive(actor.options, actor.activeOption);
      actor.activeOption := At(actor.options, if index - 1 < 0 then |actor.options| - 1 else index - 1);
      EnsureHighlightVisible(None);
    }

    /** `GenericBehavior.next`. */
    method GenericNext()
      modifies actor`activeOption, actor.container
      ensures Moved(FlatNext(old(actor.options), old(actor.activeOption)), None, false)
    {
      var index := IndexOfActive(actor.options, actor.activeOption);
      actor.activeOption := At(actor.options, if index + 1 > |actor.options| - 1 then 0 else index + 1);
      EnsureHighlightVisible(None);
    }

    /** `GenericBehavior.filter`: the candidates become the source items
        whose plain text matches the query (minus the chosen ones in
        multi-select mode); a non-empty result highlights its first item. */
    method GenericFilter(query: string -> bool, stripTags: string -> string)
      modifies actor`options, actor`activeOption, actor.container
      ensures actor.options == FlatFilter(actor.itemObjects, query, stripTags, actor.multiple, actor.active)
      ensures actor.options != [] ==>
        && actor.activeOption == Some(actor.options[0])
        && (actor.container != null ==> actor.container.scrollTop == ScrollAfter(old(actor.container.scrollTop), None))
      ensures actor.options == [] ==>
        actor.activeOption == old(actor.activeOption)
        && (actor.container != null ==> actor.container.scrollTop == old(actor.container.scrollTop))
    {
      actor.options := FlatFilter(actor.itemObjects, query, stripTags, actor.multiple, actor.active);
      if |actor.options| > 0 {
        actor.activeOption := At(actor.options, 0);
        EnsureHighlightVisible(None);
      }
    }

    // ----------------------------------------------------- ChildrenBehavior

    /** `ChildrenBehavior.first` (its callers check that options exist). */
    method ChildrenFirst()
      requires actor.options != []
      requires CanScroll(GroupFirst(actor.options), Some(IndexMap(actor.itemObjects)))
      modifies this`optionsMap, actor`activeOption, actor.container
      ensures optionsMap == IndexMap(actor.itemObjects)
      ensures Moved(GroupFirst(old(actor.options)), Some(optionsMap), false)
    {
      actor.activeOption := At(actor.options[0].children, 0);
      FillOptionsMap();
      EnsureHighlightVisible(Some(optionsMap));
    }

    /** `ChildrenBehavior.last` (its callers check that options exist). */
    method ChildrenLast()
      requires actor.options != []
      requires CanScroll(GroupLast(actor.options), Some(IndexMap(actor.itemObjects)))
      modifies this`optionsMap, actor`activeOption, actor.container
      ensures optionsMap == IndexMap(actor.itemObjects)
      ensures Moved(GroupLast(old(actor.options)), Some(optionsMap), false)
    {
      var lastGroup := actor.options[|actor.options| - 1];
      actor.activeOption := At(lastGroup.children, |lastGroup.children| - 1);
      FillOptionsMap();
      EnsureHighlightVisible(Some(optionsMap));
    }

    /** `ChildrenBehavior.prev`. The highlight's group must be among the
        options: otherwise the source dereferences `options[-1]`. */
    method ChildrenPrev()
      requires actor.activeOption.Some? && ParentIndex(actor.options, actor.activeOption.value) >= 0
      requires CanScroll(GroupPrev(actor.options, actor.activeOption.value), Some(IndexMap(actor.itemObjects)))
      modifies this`optionsMap, actor`activeOption, actor.container
      ensures optionsMap == IndexMap(actor.itemObjects)
      ensures Moved(GroupPrev(old(actor.options), old(actor.activeOption).value), Some(optionsMap),
                    GroupPrevStep(old(actor.options), old(actor.activeOption).value).None?)
    {
      var options := actor.options;
      var current := actor.activeOption.value;
      var indexParent := ParentIndex(options, current);
      var index := ChildIndex(options[indexParent].children, current);
      actor.activeOption := At(options[indexParent].children, index - 1);
      if actor.activeOption.None? {
        if At(options, indexParent - 1).Some? {
          var before := options[indexParent - 1];
          actor.activeOption := At(before.children, |before.children| - 1);
        }
      }
      assert actor.activeOption == GroupPrevStep(options, current);
      if actor.activeOption.None? {
        ChildrenLast();
      }
      FillOptionsMap();
      EnsureHighlightVisible(Some(optionsMap));
    }

    /** `ChildrenBehavior.next`. The highlight's group must be among the
        options: otherwise the source dereferences `options[-1]`. */
    method ChildrenNext()
      requires actor.activeOption.Some? && ParentIndex(actor.options, actor.activeOption.value) >= 0
      requires CanScroll(GroupNext(actor.options, actor.activeOption.value), Some(IndexMap(actor.itemObjects)))
      modifies this`optionsMap, actor`activeOption, actor.container
      ensures optionsMap == IndexMap(actor.itemObjects)
      ensures Moved(GroupNext(old(actor.options), old(actor.activeOption).value), Some(optionsMap),
                    GroupNextStep(old(actor.options), old(actor.activeOption).value).None?)
    {
      var options := actor.options;
      var current := actor.activeOption.value;
      var indexParent := ParentIndex(options, current);
      var index := ChildIndex(options[indexParent].children, current);
      actor.activeOption := At(options[indexParent].children, index + 1);
      if actor.activeOption.None? {
        if At(options, indexParent + 1).Some? {
          actor.activeOption := At(options[indexParent + 1].children, 0);
        }
      }
      assert actor.activeOption == GroupNextStep(options, current);
      if actor.activeOption.None? {
        ChildrenFirst();
      }
      FillOptionsMap();
      EnsureHighlightVisible(Some(optionsMap));
    }

    /** `ChildrenBehavior.filter`: narrow every source group to its matching
        children, drop the groups left empty, and build a fresh map over all
        the source children (matching or not); a non-empty result highlights
        the first child of the first group kept. */
    method ChildrenFilter(query: string -> bool)
      modifies actor`options, actor`activeOption, actor.container
      ensures actor.options == GroupFilter(actor.itemObjects, query)
      ensures actor.options != [] ==>
        && actor.options[0].children != []
        && actor.activeOption == Some(actor.options[0].children[0])
        && (actor.container != null ==>
              actor.container.scrollTop == ScrollAfter(old(actor.container.scrollTop), Some(IndexMap(actor.itemObjects))))
      ensures actor.options == [] ==>
        actor.activeOption == old(actor.activeOption)
        && (actor.container != null ==> actor.container.scrollTop == old(actor.container.scrollTop))
    {
      var options, localMap := FilterGroups(actor.itemObjects, query);
      GroupFilterSpec(actor.itemObjects, query);
      actor.options := options;
      if |actor.options| > 0 {
        actor.activeOption := At(actor.options[0].children, 0);
        EnsureHighlightVisible(Some(localMap));
      }
    }

    // ------------------------------------------------------- key dispatch

    /** The behaviour call for navigation action `a` can run. */
    predicate CanNavigate(a: Action)
      reads this, actor, actor.container
    {
      grouped ==>
        match a
        case First => actor.options != [] && CanScroll(GroupFirst(actor.options), Some(IndexMap(actor.itemObjects)))
        case Last => actor.options != [] && CanScroll(GroupLast(actor.options), Some(IndexMap(actor.itemObjects)))
        case Prev =>
          && actor.activeOption.Some? && ParentIndex(actor.options, actor.activeOption.value) >= 0
          && CanScroll(GroupPrev(actor.options, actor.activeOption.value), Some(IndexMap(actor.itemObjects)))
        case Next =>
          && actor.activeOption.Some? && ParentIndex(actor.options, actor.activeOption.value) >= 0
          && CanScroll(GroupNext(actor.options, actor.activeOption.value), Some(IndexMap(actor.itemObjects)))
        case _ => true
    }

    /** The navigation part of `inputEvent`: left and right (with options)
        call `first` and `last`, up and down call `prev` and `next`, on the
        behaviour `ngOnInit` chose; other keys move nothing here. */
    method NavigateKey(keyCode: int, isUpMode: bool)
      requires CanNavigate(Dispatch(keyCode, isUpMode, false, actor.options != [], false).action)
      modifies this`optionsMap, actor`activeOption, actor.container
      ensures !grouped ==> optionsMap == old(optionsMap)
      ensures var a := old(Dispatch(keyCode, isUpMode, false, actor.options != [], false).action);
        grouped && a in {First, Last, Prev, Next} ==> optionsMap == IndexMap(actor.itemObjects)
      ensures var a := old(Dispatch(keyCode, isUpMode, false, actor.options != [], false).action);
        && (a !in {First, Last, Prev, Next} ==> unchanged(this, actor) && (actor.container != null ==> unchanged(actor.container)))
        && (a == First ==> if grouped then Moved(GroupFirst(old(actor.options)), Some(optionsMap), false)
                           else Moved(FlatFirst(old(actor.options)), None, false))
        && (a == Last ==> if grouped then Moved(GroupLast(old(actor.options)), Some(optionsMap), false)
                          else Moved(FlatLast(old(actor.options)), None, false))
        && (a == Prev ==> if grouped then Moved(GroupPrev(old(actor.options), old(actor.activeOption).value), Some(optionsMap),
                                                GroupPrevStep(old(actor.options), old(actor.activeOption).value).None?)
                          else Moved(FlatPrev(old(actor.options), old(actor.activeOption)), None, false))
        && (a == Next ==> if grouped then Moved(GroupNext(old(actor.options), old(actor.activeOption).value), Some(optionsMap),
                                                GroupNextStep(old(actor.options), old(actor.activeOption).value).None?)
                          else Moved(FlatNext(old(actor.options), old(actor.activeOption)), None, false))
    {
      var a := Dispatch(keyCode, isUpMode, false, actor.options != [], false).action;
      match a {
        case First => if grouped { ChildrenFirst(); } else { GenericFirst(); }
        case Last => if grouped { ChildrenLast(); } else { GenericLast(); }
        case Prev => if grouped { ChildrenPrev(); } else { GenericPrev(); }
        case Next => if grouped { ChildrenNext(); } else { GenericNext(); }
        case _ =>
      }
    }
  }
}
