/**
 * `reorderTouchActionItems`: touchActions and touchActionInputs are taken out of the item
 * list and put back right after the first touchZone with the same command name, the inputs
 * first and the actions after them; those whose name matches no touchZone, or that have no
 * name, are dropped. The server then renumbers the result (see ServerIndices).
 */
module ServerReorder {
  import opened Wrappers
  import opened Seqs
  import opened DrawingItems
  import opened ServerIndices

  predicate IsInput(it: Item) {
    it.kind == TouchActionInput
  }

  predicate IsAction(it: Item) {
    it.kind == TouchAction
  }

  predicate IsZoneFor(it: Item, name: string) {
    it.kind == TouchZone && it.cmdName == name
  }

  /** The position of the first touchZone named `name`. */
  function FirstZone(s: seq<Item>, name: string): (r: Option<nat>)
    ensures r.Some? ==> r.value < |s| && IsZoneFor(s[r.value], name)
    ensures r.Some? ==> forall k :: 0 <= k < r.value ==> !IsZoneFor(s[k], name)
    ensures r.None? ==> forall k :: 0 <= k < |s| ==> !IsZoneFor(s[k], name)
  {
    if s == [] then None
    else if IsZoneFor(s[0], name) then Some(0)
    else
      match FirstZone(s[1..], name)
      case None => None
      case Some(i) => Some(i + 1)
  }

  /** From `j` on, the first position that is not a touchActionInput named `name`. */
  function SkipInputs(s: seq<Item>, name: string, j: nat): (r: nat)
    requires j <= |s|
    ensures j <= r <= |s|
    ensures forall k :: j <= k < r ==> s[k].kind == TouchActionInput && s[k].cmdName == name
    ensures r == |s| || !(s[r].kind == TouchActionInput && s[r].cmdName == name)
    decreases |s| - j
  {
    if j < |s| && s[j].kind == TouchActionInput && s[j].cmdName == name then SkipInputs(s, name, j + 1) else j
  }

  /** `s.splice(i, 0, x)`. */
  function InsertAt(s: seq<Item>, i: nat, x: Item): (r: seq<Item>)
    requires i <= |s|
    ensures |r| == |s| + 1
  {
    s[..i] + [x] + s[i..]
  }

  lemma {:induction false} InsertAtIndex(s: seq<Item>, i: nat, x: Item)
    requires i <= |s|
    ensures InsertAt(s, i, x)[i] == x
    ensures forall k :: 0 <= k < i ==> InsertAt(s, i, x)[k] == s[k]
    ensures forall k :: i < k <= |s| ==> InsertAt(s, i, x)[k] == s[k - 1]
  {
  }

  /** Where a touchActionInput goes: just after the first touchZone with its name. */
  function InputPlace(s: seq<Item>, t: Item): (r: Option<nat>)
    ensures r.Some? ==> 0 < r.value <= |s|
  {
    if t.cmdName == "" then None
    else
      match FirstZone(s, t.cmdName)
      case None => None
      case Some(i) => Some(i + 1)
  }

  /** Where a touchAction goes: after that touchZone and the touchActionInputs following it. */
  function ActionPlace(s: seq<Item>, t: Item): (r: Option<nat>)
    ensures r.Some? ==> 0 < r.value <= |s|
  {
    if t.cmdName == "" then None
    else
      match FirstZone(s, t.cmdName)
      case None => None
      case Some(i) => Some(SkipInputs(s, t.cmdName, i + 1))
  }

  function InsertInput(s: seq<Item>, t: Item): seq<Item> {
    match InputPlace(s, t)
    case None => s
    case Some(i) => InsertAt(s, i, t)
  }

  function InsertAction(s: seq<Item>, t: Item): seq<Item> {
    match ActionPlace(s, t)
    case None => s
    case Some(i) => InsertAt(s, i, t)
  }

  /** The touchActionInputs `ts` put back one after the other. */
  function InsertInputs(s: seq<Item>, ts: seq<Item>): seq<Item>
    decreases |ts|
  {
    if ts == [] then s else InsertInput(InsertInputs(s, ts[..|ts| - 1]), ts[|ts| - 1])
  }

  /** The touchActions `ts` put back one after the other. */
  function InsertActions(s: seq<Item>, ts: seq<Item>): seq<Item>
    decreases |ts|
  {
    if ts == [] then s else InsertAction(InsertActions(s, ts[..|ts| - 1]), ts[|ts| - 1])
  }

  /** The item list after reordering, before it is renumbered. */
  function Reordered(items: seq<Item>): seq<Item> {
    InsertActions(InsertInputs(Filter(items, NotChild), Filter(items, IsInput)), Filter(items, IsAction))
  }

  // ---------------------------------------------------------------------------------------
  // The loops

  /** The search loop of step 2. */
  method FindInputPlace(s: seq<Item>, t: Item) returns (r: Option<nat>)
    ensures r == InputPlace(s, t)
  {
    r := None;
    if t.cmdName == "" {
      return;
    }
    var i := 0;
    while i < |s|
      invariant 0 <= i <= |s|
      invariant forall k :: 0 <= k < i ==> !IsZoneFor(s[k], t.cmdName)
    {
      if s[i].kind == TouchZone && s[i].cmdName == t.cmdName {
        r := Some(i + 1);
        return;
      }
      i := i + 1;
    }
  }

  /** The search loop of step 3, with its inner loop over the inputs already placed. */
  method FindActionPlace(s: seq<Item>, t: Item) returns (r: Option<nat>)
    ensures r == ActionPlace(s, t)
  {
    r := None;
    if t.cmdName == "" {
      return;
    }
    var i := 0;
    while i < |s|
      invariant 0 <= i <= |s|
      invariant forall k :: 0 <= k < i ==> !IsZoneFor(s[k], t.cmdName)
    {
      if s[i].kind == TouchZone && s[i].cmdName == t.cmdName {
        var j := i + 1;
        while j < |s| && s[j].kind == TouchActionInput && s[j].cmdName == t.cmdName
          invariant i + 1 <= j <= |s|
          invariant SkipInputs(s, t.cmdName, j) == SkipInputs(s, t.cmdName, i + 1)
        {
          j := j + 1;
        }
        r := Some(j);
        return;
      }
      i := i + 1;
    }
  }

  /** Step 1: the three lists of the extraction loop. */
  method Extract(items: seq<Item>) returns (others: seq<Item>, actions: seq<Item>, inputs: seq<Item>)
    ensures others == Filter(items, NotChild)
    ensures actions == Filter(items, IsAction) && inputs == Filter(items, IsInput)
  {
    others, actions, inputs := [], [], [];
    var i := 0;
    while i < |items|
      invariant 0 <= i <= |items|
      invariant others == Filter(items[..i], NotChild)
      invariant actions == Filter(items[..i], IsAction) && inputs == Filter(items[..i], IsInput)
    {
      var it := items[i];
      FilterTakeOneMore(items, i, NotChild);
      FilterTakeOneMore(items, i, IsAction);
      FilterTakeOneMore(items, i, IsInput);
      if it.kind == TouchAction {
        actions := actions + [it];
      } else if it.kind == TouchActionInput {
        inputs := inputs + [it];
      } else {
        others := others + [it];
      }
      i := i + 1;
    }
    TakeAll(items);
  }

  /** Step 2: each touchActionInput spliced in after its touchZone. */
  method PlaceInputs(others: seq<Item>, inputs: seq<Item>) returns (r: seq<Item>)
    ensures r == InsertInputs(others, inputs)
  {
    r := others;
    var j := 0;
    while j < |inputs|
      invariant 0 <= j <= |inputs|
      invariant r == InsertInputs(others, inputs[..j])
    {
      var place := FindInputPlace(r, inputs[j]);
      assert inputs[..j + 1][..j] == inputs[..j];
      if place.Some? {
        r := r[..place.value] + [inputs[j]] + r[place.value..];
      }
      j := j + 1;
    }
    assert inputs[..j] == inputs;
  }

  /** Step 3: each touchAction spliced in after its touchZone and that zone's inputs. */
  method PlaceActions(placed: seq<Item>, actions: seq<Item>) returns (r: seq<Item>)
    ensures r == InsertActions(placed, actions)
  {
    r := placed;
    var j := 0;
    while j < |actions|
      invariant 0 <= j <= |actions|
      invariant r == InsertActions(placed, actions[..j])
    {
      var place := FindActionPlace(r, actions[j]);
      assert actions[..j + 1][..j] == actions[..j];
      if place.Some? {
        r := r[..place.value] + [actions[j]] + r[place.value..];
      }
      j := j + 1;
    }
    assert actions[..j] == actions;
  }

  /** Steps 1 to 3 of `reorderTouchActionItems`, before the renumbering. */
  method ReorderItems(items: seq<Item>) returns (r: seq<Item>)
    ensures r == Reordered(items)
  {
    var others, actions, inputs := Extract(items);
    r := PlaceInputs(others, inputs);
    r := PlaceActions(r, actions);
  }

  // ---------------------------------------------------------------------------------------
  // Other items keep their order

  lemma {:induction false} InsertKeepsOthers(s: seq<Item>, i: nat, x: Item)
    requires i <= |s| && IsTouchChild(x)
    ensures Filter(InsertAt(s, i, x), NotChild) == Filter(s, NotChild)
  {
    assert s == s[..i] + s[i..];
    FilterDropsMiddle(s[..i], x, s[i..], NotChild);
  }

  lemma {:induction false} InsertInputsKeepsOthers(s: seq<Item>, ts: seq<Item>)
    requires forall x :: x in ts ==> IsInput(x)
    ensures Filter(InsertInputs(s, ts), NotChild) == Filter(s, NotChild)
    decreases |ts|
  {
    if ts != [] {
      var front, t := ts[..|ts| - 1], ts[|ts| - 1];
      assert ts == front + [t] && t in ts;
      InsertInputsKeepsOthers(s, front);
      var p := InputPlace(InsertInputs(s, front), t);
      if p.Some? {
        InsertKeepsOthers(InsertInputs(s, front), p.value, t);
      }
    }
  }

  lemma {:induction false} InsertActionsKeepsOthers(s: seq<Item>, ts: seq<Item>)
    requires forall x :: x in ts ==> IsAction(x)
    ensures Filter(InsertActions(s, ts), NotChild) == Filter(s, NotChild)
    decreases |ts|
  {
    if ts != [] {
      var front, t := ts[..|ts| - 1], ts[|ts| - 1];
      assert ts == front + [t] && t in ts;
      InsertActionsKeepsOthers(s, front);
      var p := ActionPlace(InsertActions(s, front), t);
      if p.Some? {
        InsertKeepsOthers(InsertActions(s, front), p.value, t);
      }
    }
  }

  /** Items other than touchActions and touchActionInputs keep their relative order. */
  lemma {:induction false} ReorderedKeepsOthers(items: seq<Item>)
    ensures Filter(Reordered(items), NotChild) == Filter(items, NotChild)
  {
    var others := Filter(items, NotChild);
    InsertInputsKeepsOthers(others, Filter(items, IsInput));
    InsertActionsKeepsOthers(InsertInputs(others, Filter(items, IsInput)), Filter(items, IsAction));
    FilterIdempotent(items, NotChild);
  }

  // ---------------------------------------------------------------------------------------
  // Each touch child sits in the run that follows its touchZone

  /** `x` may directly follow `prev` inside the run after a touchZone. */
  predicate Joined(prev: Item, x: Item) {
    (prev.kind == TouchZone || IsTouchChild(prev)) && prev.cmdName == x.cmdName
  }

  /**
   * Every touchAction and touchActionInput directly follows its touchZone or another
   * touchAction or touchActionInput with the same command name (the first one follows `prev`).
   */
  predicate AttachedFrom(prev: Option<Item>, s: seq<Item>) {
    (|s| > 0 && IsTouchChild(s[0]) ==> prev.Some? && Joined(prev.value, s[0]))
    && forall p :: 0 < p < |s| && IsTouchChild(s[p]) ==> Joined(s[p - 1], s[p])
  }

  predicate Attached(s: seq<Item>) {
    AttachedFrom(None, s)
  }

  lemma {:induction false} InsertAttached(s: seq<Item>, i: nat, x: Item)
    requires Attached(s) && 0 < i <= |s| && IsTouchChild(x) && Joined(s[i - 1], x)
    ensures Attached(InsertAt(s, i, x))
  {
    var r := InsertAt(s, i, x);
    InsertAtIndex(s, i, x);
    assert r[0] == s[0];
    forall p | 0 < p < |r| && IsTouchChild(r[p])
      ensures Joined(r[p - 1], r[p])
    {
      if p < i {
        assert IsTouchChild(s[p]);
      } else if p == i + 1 {
        assert Joined(s[i - 1], s[i]);
      } else if p > i + 1 {
        assert Joined(s[p - 2], s[p - 1]);
      }
    }
  }

  lemma {:induction false} InputPlaceJoined(s: seq<Item>, t: Item)
    requires InputPlace(s, t).Some?
    ensures Joined(s[InputPlace(s, t).value - 1], t)
  {
  }

  lemma {:induction false} ActionPlaceJoined(s: seq<Item>, t: Item)
    requires ActionPlace(s, t).Some?
    ensures Joined(s[ActionPlace(s, t).value - 1], t)
  {
    var i := FirstZone(s, t.cmdName).value;
    var j := ActionPlace(s, t).value;
    if j > i + 1 {
      assert s[j - 1].kind == TouchActionInput && s[j - 1].cmdName == t.cmdName;
    }
  }

  lemma {:induction false} InsertInputsAttached(s: seq<Item>, ts: seq<Item>)
    requires Attached(s) && forall x :: x in ts ==> IsInput(x)
    ensures Attached(InsertInputs(s, ts))
    decreases |ts|
  {
    if ts != [] {
      var front, t := ts[..|ts| - 1], ts[|ts| - 1];
      assert ts == front + [t] && t in ts;
      InsertInputsAttached(s, front);
      var u := InsertInputs(s, front);
      if InputPlace(u, t).Some? {
        InputPlaceJoined(u, t);
        InsertAttached(u, InputPlace(u, t).value, t);
      }
    }
  }

  lemma {:induction false} InsertActionsAttached(s: seq<Item>, ts: seq<Item>)
    requires Attached(s) && forall x :: x in ts ==> IsAction(x)
    ensures Attached(InsertActions(s, ts))
    decreases |ts|
  {
    if ts != [] {
      var front, t := ts[..|ts| - 1], ts[|ts| - 1];
      assert ts == front + [t] && t in ts;
      InsertActionsAttached(s, front);
      var u := InsertActions(s, front);
      if ActionPlace(u, t).Some? {
        ActionPlaceJoined(u, t);
        InsertAttached(u, ActionPlace(u, t).value, t);
      }
    }
  }

  /** The other items hold no touch child, so the conditions on touch children hold trivially. */
  lemma {:induction false} OthersPlain(items: seq<Item>)
    ensures Attached(Filter(items, NotChild)) && AfterFirstZone(Filter(items, NotChild))
  {
    var others := Filter(items, NotChild);
    assert forall k :: 0 <= k < |others| ==> others[k] in others;
  }

  /** After reordering, every touch child sits in the run of children after a touchZone of its name. */
  lemma {:induction false} ReorderedAttached(items: seq<Item>)
    ensures Attached(Reordered(items))
  {
    var others := Filter(items, NotChild);
    OthersPlain(items);
    InsertInputsAttached(others, Filter(items, IsInput));
    InsertActionsAttached(InsertInputs(others, Filter(items, IsInput)), Filter(items, IsAction));
  }

  // ---------------------------------------------------------------------------------------
  // ... and after the first touchZone of its name

  /** Every touch child comes after the first touchZone with its command name. */
  predicate AfterFirstZone(s: seq<Item>) {
    forall p :: 0 <= p < |s| && IsTouchChild(s[p]) ==>
      FirstZone(s, s[p].cmdName).Some? && FirstZone(s, s[p].cmdName).value < p
  }

  /** The first touchZone of a name is the one with no touchZone of that name before it. */
  lemma {:induction false} FirstZoneAt(s: seq<Item>, name: string, q: nat)
    requires q < |s| && IsZoneFor(s[q], name)
    requires forall k :: 0 <= k < q ==> !IsZoneFor(s[k], name)
    ensures FirstZone(s, name) == Some(q)
  {
  }

  /** Inserting an item that is not a touchZone shifts the touchZones at or after `i` by one. */
  lemma {:induction false} FirstZoneInsert(s: seq<Item>, i: nat, x: Item, name: string)
    requires i <= |s| && x.kind != TouchZone
    ensures FirstZone(InsertAt(s, i, x), name) ==
      match FirstZone(s, name)
      case None => None
      case Some(q) => Some(if q < i then q else q + 1)
  {
    var r := InsertAt(s, i, x);
    InsertAtIndex(s, i, x);
    match FirstZone(s, name) {
      case None =>
        forall k | 0 <= k < |r|
          ensures !IsZoneFor(r[k], name)
        {
          if k < i {
            assert r[k] == s[k];
          } else if k > i {
            assert r[k] == s[k - 1];
          }
        }
        assert FirstZone(r, name) == None;
      case Some(q) =>
        var q' := if q < i then q else q + 1;
        assert IsZoneFor(r[q'], name);
        forall k | 0 <= k < q'
          ensures !IsZoneFor(r[k], name)
        {
          if k < i {
            assert r[k] == s[k];
          } else if k > i {
            assert r[k] == s[k - 1];
          }
        }
        FirstZoneAt(r, name, q');
    }
  }

  lemma {:induction false} InsertAfterFirstZone(s: seq<Item>, i: nat, x: Item)
    requires AfterFirstZone(s) && i <= |s| && IsTouchChild(x)
    requires FirstZone(s, x.cmdName).Some? && FirstZone(s, x.cmdName).value < i
    ensures AfterFirstZone(InsertAt(s, i, x))
  {
    var r := InsertAt(s, i, x);
    InsertAtIndex(s, i, x);
    forall p | 0 <= p < |r| && IsTouchChild(r[p])
      ensures FirstZone(r, r[p].cmdName).Some? && FirstZone(r, r[p].cmdName).value < p
    {
      FirstZoneInsert(s, i, x, r[p].cmdName);
      if p > i {
        assert r[p] == s[p - 1];
      } else if p < i {
        assert r[p] == s[p];
      }
    }
  }

  lemma {:induction false} InsertInputsAfterFirstZone(s: seq<Item>, ts: seq<Item>)
    requires AfterFirstZone(s) && forall x :: x in ts ==> IsInput(x)
    ensures AfterFirstZone(InsertInputs(s, ts))
    decreases |ts|
  {
    if ts != [] {
      var front, t := ts[..|ts| - 1], ts[|ts| - 1];
      assert ts == front + [t] && t in ts;
      InsertInputsAfterFirstZone(s, front);
      var u := InsertInputs(s, front);
      if InputPlace(u, t).Some? {
        InsertAfterFirstZone(u, InputPlace(u, t).value, t);
      }
    }
  }

  lemma {:induction false} InsertActionsAfterFirstZone(s: seq<Item>, ts: seq<Item>)
    requires AfterFirstZone(s) && forall x :: x in ts ==> IsAction(x)
    ensures AfterFirstZone(InsertActions(s, ts))
    decreases |ts|
  {
    if ts != [] {
      var front, t := ts[..|ts| - 1], ts[|ts| - 1];
      assert ts == front + [t] && t in ts;
      InsertActionsAfterFirstZone(s, front);
      var u := InsertActions(s, front);
      if ActionPlace(u, t).Some? {
        InsertAfterFirstZone(u, ActionPlace(u, t).value, t);
      }
    }
  }

  /** After reordering, every touch child comes after the first touchZone with its name. */
  lemma {:induction false} ReorderedAfterFirstZone(items: seq<Item>)
    ensures AfterFirstZone(Reordered(items))
  {
    var others := Filter(items, NotChild);
    OthersPlain(items);
    InsertInputsAfterFirstZone(others, Filter(items, IsInput));
    InsertActionsAfterFirstZone(InsertInputs(others, Filter(items, IsInput)), Filter(items, IsAction));
  }

  // ---------------------------------------------------------------------------------------
  // Which touch children are kept

  /** A touch child with a name for which `zones` holds a touchZone. */
  predicate Placeable(zones: seq<Item>, t: Item) {
    t.cmdName != "" && FirstZone(zones, t.cmdName).Some?
  }

  function PlaceableIn(zones: seq<Item>): Item -> bool {
    (t: Item) => Placeable(zones, t)
  }

  lemma {:induction false} InsertInputsContents(s: seq<Item>, ts: seq<Item>)
    requires forall x :: x in ts ==> IsInput(x)
    ensures multiset(InsertInputs(s, ts)) == multiset(s) + multiset(Filter(ts, PlaceableIn(s)))
    decreases |ts|
  {
    if ts != [] {
      var front, t := ts[..|ts| - 1], ts[|ts| - 1];
      assert ts == front + [t] && t in ts;
      InsertInputsContents(s, front);
      FilterAppend(front, [t], PlaceableIn(s));
      InsertInputsZones(s, front, t.cmdName);
      InsertInputStep(s, InsertInputs(s, front), t);
    }
  }

  lemma {:induction false} InsertInputStep(s: seq<Item>, u: seq<Item>, t: Item)
    requires FirstZone(u, t.cmdName).Some? == FirstZone(s, t.cmdName).Some?
    ensures multiset(InsertInput(u, t)) == multiset(u) + multiset(Filter([t], PlaceableIn(s)))
  {
    assert [t][1..] == [];
    if InputPlace(u, t).Some? {
      InsertMultiset(u, InputPlace(u, t).value, t);
    }
  }

  lemma {:induction false} InsertActionsContents(s: seq<Item>, ts: seq<Item>)
    requires forall x :: x in ts ==> IsAction(x)
    ensures multiset(InsertActions(s, ts)) == multiset(s) + multiset(Filter(ts, PlaceableIn(s)))
    decreases |ts|
  {
    if ts != [] {
      var front, t := ts[..|ts| - 1], ts[|ts| - 1];
      assert ts == front + [t] && t in ts;
      InsertActionsContents(s, front);
      FilterAppend(front, [t], PlaceableIn(s));
      InsertActionsZones(s, front, t.cmdName);
      InsertActionStep(s, InsertActions(s, front), t);
    }
  }

  lemma {:induction false} InsertActionStep(s: seq<Item>, u: seq<Item>, t: Item)
    requires FirstZone(u, t.cmdName).Some? == FirstZone(s, t.cmdName).Some?
    ensures multiset(InsertAction(u, t)) == multiset(u) + multiset(Filter([t], PlaceableIn(s)))
  {
    assert [t][1..] == [];
    if ActionPlace(u, t).Some? {
      InsertMultiset(u, ActionPlace(u, t).value, t);
    }
  }

  /** Putting touch children back leaves the touchZones where they can be found. */
  lemma {:induction false} InsertInputsZones(s: seq<Item>, ts: seq<Item>, name: string)
    requires forall x :: x in ts ==> IsInput(x)
    ensures FirstZone(InsertInputs(s, ts), name).Some? == FirstZone(s, name).Some?
    decreases |ts|
  {
    if ts != [] {
      var front, t := ts[..|ts| - 1], ts[|ts| - 1];
      assert ts == front + [t] && t in ts;
      InsertInputsZones(s, front, name);
      var u := InsertInputs(s, front);
      if InputPlace(u, t).Some? {
        FirstZoneInsert(u, InputPlace(u, t).value, t, name);
      }
    }
  }

  lemma {:induction false} InsertActionsZones(s: seq<Item>, ts: seq<Item>, name: string)
    requires forall x :: x in ts ==> IsAction(x)
    ensures FirstZone(InsertActions(s, ts), name).Some? == FirstZone(s, name).Some?
    decreases |ts|
  {
    if ts != [] {
      var front, t := ts[..|ts| - 1], ts[|ts| - 1];
      assert ts == front + [t] && t in ts;
      InsertActionsZones(s, front, name);
      var u := InsertActions(s, front);
      if ActionPlace(u, t).Some? {
        FirstZoneInsert(u, ActionPlace(u, t).value, t, name);
      }
    }
  }

  lemma {:induction false} InsertMultiset(s: seq<Item>, i: nat, x: Item)
    requires i <= |s|
    ensures multiset(InsertAt(s, i, x)) == multiset(s) + multiset{x}
  {
    assert s == s[..i] + s[i..];
  }

  /**
   * Reordering keeps every other item, and exactly those touchActionInputs and touchActions
   * that have a name some touchZone carries.
   */
  lemma {:induction false} ReorderedContents(items: seq<Item>)
    ensures var others := Filter(items, NotChild);
      multiset(Reordered(items)) ==
        multiset(others) + multiset(Filter(Filter(items, IsInput), PlaceableIn(others)))
        + multiset(Filter(Filter(items, IsAction), PlaceableIn(others)))
  {
    var others := Filter(items, NotChild);
    var inputs := Filter(items, IsInput);
    InsertInputsContents(others, inputs);
    var placed := InsertInputs(others, inputs);
    InsertActionsContents(placed, Filter(items, IsAction));
    forall name ensures FirstZone(placed, name).Some? == FirstZone(others, name).Some? {
      InsertInputsZones(others, inputs, name);
    }
    FilterCongruent(Filter(items, IsAction), PlaceableIn(placed), PlaceableIn(others));
  }

  // ---------------------------------------------------------------------------------------
  // Renumbering keeps the children attached

  lemma {:induction false} FilterKeepsAttached(prev: Option<Item>, s: seq<Item>, keep: Item -> bool)
    requires AttachedFrom(prev, s) && forall x :: !IsTouchChild(x) ==> keep(x)
    ensures AttachedFrom(prev, Filter(s, keep))
    decreases |s|
  {
    if s != [] {
      var rest := s[1..];
      if keep(s[0]) {
        AttachedTail(prev, s);
        FilterKeepsAttached(Some(s[0]), rest, keep);
        ConsAttached(prev, s[0], Filter(rest, keep));
      } else {
        DropAttached(prev, s);
        FilterKeepsAttached(prev, rest, keep);
      }
    }
  }

  lemma {:induction false} AttachedTail(prev: Option<Item>, s: seq<Item>)
    requires s != [] && AttachedFrom(prev, s)
    ensures AttachedFrom(Some(s[0]), s[1..])
  {
    var rest := s[1..];
    forall p | 0 <= p < |rest| && IsTouchChild(rest[p])
      ensures Joined(if p == 0 then s[0] else rest[p - 1], rest[p])
    {
      assert rest[p] == s[p + 1] && IsTouchChild(s[p + 1]);
    }
  }

  lemma {:induction false} DropAttached(prev: Option<Item>, s: seq<Item>)
    requires s != [] && AttachedFrom(prev, s) && IsTouchChild(s[0])
    ensures AttachedFrom(prev, s[1..])
  {
    var rest := s[1..];
    assert prev.Some? && Joined(prev.value, s[0]);
    if |rest| > 0 && IsTouchChild(rest[0]) {
      assert Joined(s[0], s[1]);
    }
    forall p | 0 < p < |rest| && IsTouchChild(rest[p])
      ensures Joined(rest[p - 1], rest[p])
    {
      assert rest[p] == s[p + 1] && IsTouchChild(s[p + 1]);
    }
  }

  lemma {:induction false} ConsAttached(prev: Option<Item>, x: Item, t: seq<Item>)
    requires IsTouchChild(x) ==> prev.Some? && Joined(prev.value, x)
    requires AttachedFrom(Some(x), t)
    ensures AttachedFrom(prev, [x] + t)
  {
    var r := [x] + t;
    assert r[0] == x;
    forall p | 0 < p < |r| && IsTouchChild(r[p])
      ensures Joined(r[p - 1], r[p])
    {
      assert r[p] == t[p - 1] && IsTouchChild(t[p - 1]);
      if p > 1 {
        assert r[p - 1] == t[p - 2];
      }
    }
  }

  /** Changing fields other than the type and the command name keeps the children attached. */
  lemma {:induction false} SameShapeAttached(s: seq<Item>, t: seq<Item>)
    requires Attached(s) && |s| == |t|
    requires forall k :: 0 <= k < |s| ==> t[k].kind == s[k].kind && t[k].cmdName == s[k].cmdName
    ensures Attached(t)
  {
    if |t| > 0 {
      assert IsTouchChild(t[0]) == IsTouchChild(s[0]);
    }
    forall p | 0 < p < |t| && IsTouchChild(t[p])
      ensures Joined(t[p - 1], t[p])
    {
      assert IsTouchChild(s[p]);
      assert t[p - 1].kind == s[p - 1].kind && t[p - 1].cmdName == s[p - 1].cmdName;
    }
  }

  /** The renumbering that ends `reorderTouchActionItems` keeps every kept child attached. */
  lemma {:induction false} UpdateKeepsAttached(items: seq<Item>, nextCmd: nat, nextIdx: nat)
    requires Attached(items)
    ensures Attached(UpdateIndices(items, nextCmd, nextIdx).1)
  {
    var start := Start(nextCmd, nextIdx);
    FirstPassKeepsAttached(items, nextCmd, nextIdx);
    var first := FirstPass(items, start, Role);
    SecondPassKeepsAttached(first.1, first.0.cmdMap);
    ThirdPassKeepsAttached(SecondPass(first.1, first.0.cmdMap), first.0);
    UpdateIndicesFinish(items, nextCmd, nextIdx);
  }

  lemma {:induction false} FirstPassKeepsAttached(items: seq<Item>, nextCmd: nat, nextIdx: nat)
    requires Attached(items)
    ensures Attached(FirstPass(items, Start(nextCmd, nextIdx), Role).1)
  {
    var start := Start(nextCmd, nextIdx);
    FirstPassNumbers(items, start, Role, nextCmd, nextIdx);
    var numbered := FirstPass(items, start, Role).1;
    assert forall k :: 0 <= k < |items| ==> Renumbered(items[k], numbered[k]);
    SameShapeAttached(items, numbered);
  }

  lemma {:induction false} SecondPassKeepsAttached(items: seq<Item>, cmdMap: map<string, nat>)
    requires Attached(items)
    ensures Attached(SecondPass(items, cmdMap))
  {
    var linked := LinkAll(items, cmdMap);
    SameShapeAttached(items, linked);
    FilterKeepsAttached(None, linked, (it: Item) => !Dangling(cmdMap, it));
  }

  lemma {:induction false} ThirdPassKeepsAttached(items: seq<Item>, a: Alloc)
    requires Attached(items)
    ensures Attached(ThirdPass(items, a))
  {
    var checked := RecheckAll(a, items);
    SameShapeAttached(items, checked);
    FilterKeepsAttached(None, checked, (it: Item) => !Emptied(it));
  }
}
