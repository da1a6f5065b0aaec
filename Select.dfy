/** The selection state of `SelectComponent` (src/app/select/select.ts):
    the `active` setter, item acceptance in `ngOnChanges`, `selectMatch`,
    `remove`, the value handed to `onChange`, `getText`, and the key-code
    dispatch of `inputEvent`. */
module Select {
  import opened Items
  import opened Scroll

  // -------------------------------------------------------- JavaScript values

  /** The JavaScript values the component receives as inputs. */
  datatype Js =
    | Undefined
    | Null
    | Bool(b: bool)
    | Number(x: int)
    | String(s: string)
    | List(elems: seq<Js>)
    | Object(fields: map<string, Js>)

  /** JavaScript truthiness. */
  predicate Truthy(v: Js)
  {
    match v
    case Undefined => false
    case Null => false
    case Bool(b) => b
    case Number(x) => x != 0
    case String(s) => s != ""
    case List(_) => true
    case Object(_) => true
  }

  /** `v.length === 0`. */
  predicate LengthIsZero(v: Js)
  {
    match v
    case String(s) => |s| == 0
    case List(elems) => |elems| == 0
    case Object(fields) => "length" in fields && fields["length"] == Number(0)
    case _ => false
  }

  /** The `active` setter: a non-empty string, or an object with at least
      one key that is not an array, is wrapped into a one-element list; a
      falsy input or one of length 0 becomes `[]`; anything else is kept. */
  function NormalizeActive(v: Js): (r: Js)
    ensures r == List([v]) <==> (v.String? && v.s != "") || (v.Object? && |v.fields| > 0)
    ensures r == List([]) <==> !Truthy(v) || v == List([])
    ensures r.List? || r == v
    ensures !((v.String? && v.s != "") || (v.Object? && |v.fields| > 0)) && Truthy(v) && v != List([]) ==> r == v
    ensures Truthy(r)
  {
    var wrapped := if (v.String? && |v.s| > 0) || (v.Object? && |v.fields| > 0) then List([v]) else v;
    assert v in List([v]).elems;
    if !Truthy(wrapped) || LengthIsZero(wrapped) then List([]) else wrapped
  }

  /** `_.get(item, field)` for a plain field name. */
  function Get(item: Js, field: string): Js
  {
    if item.Object? && field in item.fields then item.fields[field] else Undefined
  }

  /** The test `ngOnChanges` applies to each input item: a string, or an
      object whose id field and text field are both truthy. */
  predicate Accepted(idField: string, textField: string, item: Js)
  {
    item.String? || (item.Object? && Truthy(Get(item, textField)) && Truthy(Get(item, idField)))
  }

  /** The items `ngOnChanges` keeps, converted, in input order. */
  function AcceptedItems(items: seq<Js>, idField: string, textField: string, convert: Js -> Item): (r: seq<Item>)
  {
    var kept := Keep(items, (v: Js) => Accepted(idField, textField, v));
    seq(|kept|, k requires 0 <= k < |kept| => convert(kept[k]))
  }

  /** `ngOnChanges` keeps exactly the accepted items, in their order, every
      occurrence of each. */
  lemma AcceptedItemsSpec(items: seq<Js>, idField: string, textField: string, convert: Js -> Item)
    ensures var kept := Keep(items, (v: Js) => Accepted(idField, textField, v));
      && IsSubsequence(kept, items)
      && (forall v :: v in kept <==> v in items && Accepted(idField, textField, v))
      && (forall v :: multiset(kept)[v] == if Accepted(idField, textField, v) then multiset(items)[v] else 0)
      && AcceptedItems(items, idField, textField, convert)
         == seq(|kept|, k requires 0 <= k < |kept| => convert(kept[k]))
  {
    var p := (v: Js) => Accepted(idField, textField, v);
    KeepIsSubsequence(items, p);
    forall v ensures v in Keep(items, p) <==> v in items && p(v) {
      KeepMembers(items, p, v);
    }
    forall v ensures multiset(Keep(items, p))[v] == if p(v) then multiset(items)[v] else 0 {
      KeepCount(items, p, v);
    }
  }

  // ------------------------------------------------------------ the selection

  /** The chosen ids (`active`) beside the chosen items (`selectedActiveItems`). */
  datatype Selection = Selection(active: seq<Id>, items: seq<Item>)

  /** The two lists agree position by position. */
  predicate Aligned(s: Selection)
  {
    |s.items| == |s.active| && forall k :: 0 <= k < |s.active| ==> s.items[k].id == s.active[k]
  }

  /** JavaScript's `xs.splice(i, 1)`: a negative start counts from the end,
      a start past the end removes nothing. */
  function Splice1<T>(xs: seq<T>, i: int): (r: seq<T>)
    ensures 0 <= i < |xs| ==> r == xs[..i] + xs[i + 1..]
    ensures i >= |xs| ==> r == xs
    ensures i == -1 && xs != [] ==> r == xs[..|xs| - 1]
  {
    var start := if i < 0 then (if |xs| + i < 0 then 0 else |xs| + i) else (if i > |xs| then |xs| else i);
    if start < |xs| then xs[..start] + xs[start + 1..] else xs
  }

  /** The multi-select rule of `selectMatch`: an id already chosen is taken
      out of both lists at the position where it is found in `active`; a new
      one is appended to both. */
  function Toggle(s: Selection, value: Item): Selection
  {
    var found := FindIndex(s.active, (id: Id) => id == value.id);
    if found != -1 then Selection(Splice1(s.active, found), Splice1(s.items, found))
    else Selection(s.active + [value.id], s.items + [value])
  }

  /** No id is chosen twice. */
  predicate NoRepeats(ids: seq<Id>)
  {
    forall i, j :: 0 <= i < j < |ids| ==> ids[i] != ids[j]
  }

  /** The argument `remove` receives: the last chosen id (backspace and
      delete) or a chosen item (a click on its cross). */
  datatype RemoveArg = ById(id: Id) | ByItem(item: Item)

  /** The multi-select rule of `remove` as written: the argument is looked
      up with `indexOf` in both lists, but `active` holds ids and
      `selectedActiveItems` holds items, so one of the two lookups always
      misses, and `splice(-1, 1)` then drops that list's last element. */
  function UnselectAsWritten(s: Selection, arg: RemoveArg): Selection
  {
    var activeIndex := if arg.ById? then IndexOf(s.active, arg.id) else -1;
    var itemIndex := if arg.ByItem? then IndexOf(s.items, arg.item) else -1;
    Selection(Splice1(s.active, activeIndex), Splice1(s.items, itemIndex))
  }

  /** The multi-select rule of `remove` as intended: the id is taken out of
      `active` and the item at the same position out of
      `selectedActiveItems`, as `selectMatch` does; an id that is not chosen
      changes nothing. */
  function Unselect(s: Selection, id: Id): Selection
  {
    var k := IndexOf(s.active, id);
    if k < 0 then s else Selection(Splice1(s.active, k), Splice1(s.items, k))
  }

  /** Removing keeps the two lists aligned, drops the id (once, or entirely
      when no id is chosen twice) and keeps every other chosen id; what
      remains is both old lists with the position of the id's first
      occurrence cut out, in their old order. */
  lemma UnselectSpec(s: Selection, id: Id)
    requires Aligned(s)
    ensures Aligned(Unselect(s, id))
    ensures id !in s.active ==> Unselect(s, id) == s
    ensures id in s.active ==> |Unselect(s, id).active| == |s.active| - 1
    ensures forall x :: x != id ==> (x in Unselect(s, id).active <==> x in s.active)
    ensures NoRepeats(s.active) ==> id !in Unselect(s, id).active
    ensures id in s.active ==>
      exists k :: 0 <= k < |s.active| && s.active[k] == id && id !in s.active[..k]
        && Unselect(s, id) == Selection(s.active[..k] + s.active[k + 1..], s.items[..k] + s.items[k + 1..])
  {
    var k := IndexOf(s.active, id);
    var r := Unselect(s, id);
    assert id in s.active ==> 0 <= k < |s.active| && s.active[k] == id && id !in s.active[..k];
    if k >= 0 {
      assert r.active == s.active[..k] + s.active[k + 1..];
      forall j | 0 <= j < |r.active| ensures r.items[j].id == r.active[j] {
        if j >= k {
          assert r.active[j] == s.active[j + 1] && r.items[j] == s.items[j + 1];
        }
      }
      forall x | x != id ensures x in r.active <==> x in s.active {
        if x in s.active {
          var j :| 0 <= j < |s.active| && s.active[j] == x;
          if j < k {
            assert r.active[j] == x;
          } else {
            assert r.active[j - 1] == x;
          }
        }
      }
      if NoRepeats(s.active) {
        forall j | 0 <= j < |r.active| ensures r.active[j] != id {
          if j < k {
            assert r.active[j] == s.active[j];
          } else {
            assert r.active[j] == s.active[j + 1];
          }
        }
      }
    }
  }

  /** On the keyboard path (the last chosen id) the code as written does
      what was intended. */
  lemma RemoveLastAsWritten(s: Selection)
    requires Aligned(s) && NoRepeats(s.active) && s.active != []
    ensures UnselectAsWritten(s, ById(s.active[|s.active| - 1])) == Unselect(s, s.active[|s.active| - 1])
  {
    var n := |s.active|;
    var last := s.active[n - 1];
    assert last in s.active;
    assert forall j :: 0 <= j < n - 1 ==> s.active[j] != last;
    assert IndexOf(s.active, last) == n - 1;
  }

  /** On the click path it is not: removing the first of two chosen items
      drops the last id and the first item, so the lists disagree, whereas
      the intended rule leaves exactly the second item chosen. */
  lemma RemoveClickMisaligns()
    ensures
      var i1 := Item(Num(1), "one", [], None);
      var i2 := Item(Num(2), "two", [], None);
      var s := Selection([Num(1), Num(2)], [i1, i2]);
      && Aligned(s)
      && UnselectAsWritten(s, ByItem(i1)) == Selection([Num(1)], [i2])
      && !Aligned(UnselectAsWritten(s, ByItem(i1)))
      && Unselect(s, i1.id) == Selection([Num(2)], [i2])
  {
    var i1 := Item(Num(1), "one", [], None);
    var i2 := Item(Num(2), "two", [], None);
    var s := Selection([Num(1), Num(2)], [i1, i2]);
    assert IndexOf(s.items, i1) == 0;
    assert IndexOf(s.active, Num(1)) == 0;
  }

  /** Choosing an item that is not chosen and then choosing it again
      restores both lists. */
  lemma ToggleTwice(s: Selection, value: Item)
    requires value.id !in s.active && |s.items| == |s.active|
    ensures Toggle(Toggle(s, value), value) == s
  {
    var t := Toggle(s, value);
    assert t.active == s.active + [value.id];
    var found := FindIndex(t.active, (id: Id) => id == value.id);
    assert t.active[|s.active|] == value.id;
    assert found == |s.active|;
    assert t.active[..|s.active|] == s.active;
    assert t.items[..|s.items|] == s.items;
  }

  /** Toggling keeps the two lists aligned, and flips whether the id is
      chosen when ids are not repeated. */
  lemma ToggleAligned(s: Selection, value: Item)
    requires Aligned(s)
    ensures Aligned(Toggle(s, value))
    ensures NoRepeats(s.active) ==> (value.id in Toggle(s, value).active <==> value.id !in s.active)
  {
    var found := FindIndex(s.active, (id: Id) => id == value.id);
    var t := Toggle(s, value);
    if found != -1 {
      forall k | 0 <= k < |t.active| ensures t.items[k].id == t.active[k] {
        if k >= found {
          assert t.active[k] == s.active[k + 1] && t.items[k] == s.items[k + 1];
        }
      }
      if NoRepeats(s.active) {
        forall k | 0 <= k < |t.active| ensures t.active[k] != value.id {
          if k < found {
            assert t.active[k] == s.active[k];
          } else {
            assert t.active[k] == s.active[k + 1];
          }
        }
      }
    }
  }

  /** In multi-select mode, choosing an item that is already chosen does
      what removing it does. */
  lemma ToggleChosenIsUnselect(s: Selection, value: Item)
    requires value.id in s.active
    ensures Toggle(s, value) == Unselect(s, value.id)
  {
    var found := FindIndex(s.active, (id: Id) => id == value.id);
    assert found == IndexOf(s.active, value.id);
  }

  /** The value `doEvent` hands to `onChange`. */
  datatype ModelValue = IdList(ids: seq<Id>) | OneId(id: Id) | EmptyText

  /** On `'selected'` and `'removed'`: the whole list in multi-select mode,
      else its first id, or `''` when nothing is chosen. */
  function OnChangeValue(multiple: bool, active: seq<Id>): (r: ModelValue)
    ensures r.IdList? <==> multiple
    ensures r.IdList? ==> r.ids == active
    ensures r.OneId? ==> active != [] && r.id == active[0]
    ensures r.EmptyText? <==> !multiple && active == []
  {
    if multiple then IdList(active)
    else if |active| > 0 then OneId(active[0])
    else EmptyText
  }

  /** The kinds of event `doEvent` is called with. */
  datatype EventKind = Selected | Removed | Typed

  // ---------------------------------------------------------- key dispatch

  /** What `inputEvent` does with a key. */
  datatype Action = Ignore | Suppress | Hide | First | Last | Prev | Next | Confirm | Filter | Open

  /** Whether `inputEvent` first removes the last chosen item (backspace on
      an empty input, or delete), and the action it then takes. */
  datatype KeyOutcome = KeyOutcome(removeLast: bool, action: Action)

  /** `inputEvent`'s decision on key `keyCode`: tab is ignored; in up mode
      the arrow keys and enter are suppressed; escape hides; left and right
      go to the first and last option when there are options; up and down
      step unconditionally; enter confirms; anything else filters when there
      is typed text and opens the list otherwise. */
  function Dispatch(keyCode: int, isUpMode: bool, inputEmpty: bool, hasOptions: bool, hasInputValue: bool): (r: KeyOutcome)
    ensures keyCode == 9 ==> r == KeyOutcome(false, Ignore)
    ensures r.removeLast <==> keyCode != 9 && !isUpMode && (keyCode == 46 || (keyCode == 8 && inputEmpty))
    ensures r.action in {First, Last, Prev, Next} ==> !isUpMode && 37 <= keyCode <= 40
    ensures !isUpMode && keyCode == 37 ==> (r.action == First <==> hasOptions)
    ensures !isUpMode && keyCode == 39 ==> (r.action == Last <==> hasOptions)
    ensures !isUpMode && keyCode == 38 ==> r.action == Prev
    ensures !isUpMode && keyCode == 40 ==> r.action == Next
    ensures isUpMode && keyCode in {37, 38, 39, 40, 13} ==> r.action == Suppress
    ensures !isUpMode && keyCode in {37, 39} && !hasOptions ==> r.action == (if hasInputValue then Filter else Open)
    ensures !isUpMode && keyCode == 27 ==> r.action == Hide
    ensures !isUpMode && keyCode == 13 ==> r.action == Confirm
    ensures keyCode !in {9, 13, 27, 37, 38, 39, 40} ==> r.action == (if hasInputValue then Filter else Open)
    ensures isUpMode && keyCode != 9 && keyCode !in {37, 38, 39, 40, 13} ==> r.action == (if hasInputValue then Filter else Open)
  {
    var fallThrough := if hasInputValue then Filter else Open;
    if keyCode == 9 then KeyOutcome(false, Ignore)
    else if isUpMode && keyCode in {37, 39, 38, 40, 13} then KeyOutcome(false, Suppress)
    else
      var removeLast := !isUpMode && (keyCode == 46 || (keyCode == 8 && inputEmpty));
      var action :=
        if isUpMode then fallThrough
        else if keyCode == 27 then Hide
        else if keyCode == 37 && hasOptions then First
        else if keyCode == 39 && hasOptions then Last
        else if keyCode == 38 then Prev
        else if keyCode == 40 then Next
        else if keyCode == 13 then Confirm
        else fallThrough;
      KeyOutcome(removeLast, action)
  }

  // ----------------------------------------------------------- the component

  /** The state of a `SelectComponent` that the navigation engine and the
      selection logic read and write. */
  class SelectComponent {
    /** The candidate list currently shown. */
    var options: seq<Item>
    /** The full candidate list (`_options`). */
    var allOptions: seq<Item>
    /** The source items the behaviours filter from and index. The
        component's code never assigns them: they are an input here. */
    var itemObjects: seq<Item>
    /** The highlighted item (`undefined` is None). */
    var activeOption: Option<Item>
    var multiple: bool
    var disabled: bool
    /** The chosen ids. */
    var active: seq<Id>
    /** The chosen items. */
    var selectedActiveItems: seq<Item>
    var optionsOpened: bool
    var inputMode: bool
    /** The values handed to `onChange`, oldest first. */
    var changes: seq<ModelValue>
    /** The scrollable list of choices, if it is rendered. */
    const container: Container?

    constructor (container: Container?, multiple: bool, itemObjects: seq<Item>)
      ensures this.container == container && this.multiple == multiple && this.itemObjects == itemObjects
      ensures options == [] && allOptions == [] && activeOption == None
      ensures !disabled && active == [] && selectedActiveItems == [] && changes == []
      ensures !optionsOpened && !inputMode
    {
      this.container := container;
      this.multiple := multiple;
      this.itemObjects := itemObjects;
      options, allOptions, activeOption := [], [], None;
      disabled, active, selectedActiveItems, changes := false, [], [], [];
      optionsOpened, inputMode := false, false;
    }

    /** `firstItemHasChildren`: the grouped behaviour is used exactly when
        the first option has children. */
    predicate FirstItemHasChildren()
      reads this
    {
      |options| > 0 && |options[0].children| > 0
    }

    /** `getText`: the text of the first full-list option whose id equals
        `selected` (JSON equality of string and number ids is equality of
        the ids), or `''`. */
    function GetText(selected: Id): (r: string)
      reads this
      ensures (forall k :: 0 <= k < |allOptions| ==> allOptions[k].id != selected) ==> r == ""
      ensures forall k :: 0 <= k < |allOptions| && allOptions[k].id == selected
                      && (forall j :: 0 <= j < k ==> allOptions[j].id != selected)
                      ==> r == allOptions[k].text
    {
      var k := FindIndex(allOptions, (it: Item) => it.id == selected);
      if k >= 0 then allOptions[k].text else ""
    }

    /** `doEvent`: on `'selected'` and `'removed'`, `onChange` receives the
        chosen value. */
    method DoEvent(kind: EventKind)
      modifies this`changes
      ensures changes == old(changes) + (if kind == Typed then [] else [OnChangeValue(multiple, active)])
    {
      if kind == Selected || kind == Removed {
        changes := changes + [OnChangeValue(multiple, active)];
      }
    }

    /** `ngOnChanges` when the items input changed: the accepted items, in
        order, then a copy of every chosen item (the duplicate test passes
        a function to `_.includes`, so it never finds one). The full list
        and the shown list are the same array. */
    method OnItemsChange(items: seq<Js>, idField: string, textField: string, convert: Js -> Item)
      modifies this`options, this`allOptions
      ensures options == AcceptedItems(items, idField, textField, convert) + selectedActiveItems
      ensures allOptions == options
    {
      var p := (v: Js) => Accepted(idField, textField, v);
      options := [];
      var i := 0;
      while i < |items|
        invariant 0 <= i <= |items|
        invariant options == AcceptedItems(items[..i], idField, textField, convert)
      {
        KeepSnoc(items[..i], items[i], p);
        assert items[..i + 1] == items[..i] + [items[i]];
        if Accepted(idField, textField, items[i]) {
          options := options + [convert(items[i])];
        }
        i := i + 1;
      }
      assert items[..i] == items;
      var j := 0;
      ghost var accepted := options;
      while j < |selectedActiveItems|
        invariant 0 <= j <= |selectedActiveItems|
        invariant options == accepted + selectedActiveItems[..j]
      {
        assert selectedActiveItems[..j + 1] == selectedActiveItems[..j] + [selectedActiveItems[j]];
        options := options + [selectedActiveItems[j]];
        j := j + 1;
      }
      assert selectedActiveItems[..j] == selectedActiveItems;
      allOptions := options;
    }

    /** `selectMatch`: nothing happens when no options are shown; in
        multi-select mode the item's id is toggled; in single-select mode it
        becomes the only chosen id and the list closes. Then the full list
        is shown again and `onChange` receives the new value. */
    method SelectMatch(value: Item)
      modifies this
      ensures old(options) == [] ==> unchanged(this)
      ensures old(options) != [] ==>
        && (multiple ==> Selection(active, selectedActiveItems) == Toggle(old(Selection(active, selectedActiveItems)), value))
        && (multiple ==> optionsOpened == old(optionsOpened) && inputMode == old(inputMode))
        && (!multiple ==> active == [value.id] && selectedActiveItems == old(selectedActiveItems))
        && (!multiple ==> !optionsOpened && !inputMode)
        && options == allOptions
        && changes == old(changes) + [OnChangeValue(multiple, active)]
      ensures multiple == old(multiple) && allOptions == old(allOptions) && itemObjects == old(itemObjects)
      ensures activeOption == old(activeOption) && disabled == old(disabled)
    {
      if |options| == 0 {
        return;
      }
      if multiple {
        var s := Toggle(Selection(active, selectedActiveItems), value);
        active, selectedActiveItems := s.active, s.items;
      } else {
        active := [value.id];
        inputMode, optionsOpened := false, false;
      }
      options := allOptions;
      DoEvent(Selected);
    }

    /** `remove`, given the id of the item to drop: nothing when disabled;
        in multi-select mode the id and its item leave both lists (by the
        intended rule `Unselect`, not `UnselectAsWritten`); in single-select
        mode nothing stays chosen. `onChange` receives the new value. */
    method Remove(id: Id)
      modifies this`active, this`selectedActiveItems, this`changes
      ensures old(disabled) ==> unchanged(this)
      ensures !disabled && multiple ==>
        Selection(active, selectedActiveItems) == Unselect(old(Selection(active, selectedActiveItems)), id)
      ensures !disabled && !multiple ==> active == [] && selectedActiveItems == old(selectedActiveItems)
      ensures !disabled ==> changes == old(changes) + [OnChangeValue(multiple, active)]
    {
      if disabled {
        return;
      }
      if multiple {
        var s := Unselect(Selection(active, selectedActiveItems), id);
        active, selectedActiveItems := s.active, s.items;
        DoEvent(Removed);
      }
      if !multiple {
        active := [];
        DoEvent(Removed);
      }
    }
  }
}
