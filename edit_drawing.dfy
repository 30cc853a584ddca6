/**
 * The item list of the drawing editor page: the merged view that shows each touchZone
 * together with its touchActionInput and touchActions, the group operations on that view
 * (remove, move), and moving a single item up or down while the selection follows it.
 * The page's drawing and selection are an `ItemEditor` object whose methods change them.
 */
module EditDrawing {
  import opened Wrappers
  import opened Seqs
  import opened DrawingItems

  // ---------------------------------------------------------------------------------------
  // Index lists

  /** `a` may come before `b` in a list sorted by `(a, b) => a - b`, or by `(a, b) => b - a` when `desc`. */
  predicate InOrder(a: nat, b: nat, desc: bool) {
    if desc then a >= b else a <= b
  }

  predicate SortedBy(s: seq<nat>, desc: bool) {
    forall i, j :: 0 <= i < j < |s| ==> InOrder(s[i], s[j], desc)
  }

  /** `x` put into the sorted list `s` at its place. */
  function InsertSorted(s: seq<nat>, x: nat, desc: bool): (r: seq<nat>)
    requires SortedBy(s, desc)
    ensures SortedBy(r, desc) && multiset(r) == multiset(s) + multiset{x}
    ensures forall k :: 0 <= k < |r| ==> r[k] == x || r[k] in s
  {
    if s == [] then [x]
    else if InOrder(x, s[0], desc) then [x] + s
    else
      var rest := InsertSorted(s[1..], x, desc);
      InsertSortedStep(s, x, rest, desc);
      [s[0]] + rest
  }

  /** Putting the head back in front of the insertion into the tail keeps everything. */
  lemma InsertSortedStep(s: seq<nat>, x: nat, rest: seq<nat>, desc: bool)
    requires SortedBy(s, desc) && s != [] && !InOrder(x, s[0], desc)
    requires SortedBy(rest, desc) && multiset(rest) == multiset(s[1..]) + multiset{x}
    requires forall k :: 0 <= k < |rest| ==> rest[k] == x || rest[k] in s[1..]
    ensures SortedBy([s[0]] + rest, desc) && multiset([s[0]] + rest) == multiset(s) + multiset{x}
    ensures forall k :: 0 <= k < |[s[0]] + rest| ==> ([s[0]] + rest)[k] == x || ([s[0]] + rest)[k] in s
  {
    assert s == [s[0]] + s[1..];
    forall k | 0 <= k < |rest|
      ensures InOrder(s[0], rest[k], desc)
    {
      if rest[k] != x {
        var j :| 0 <= j < |s[1..]| && s[1..][j] == rest[k];
        assert s[j + 1] == rest[k];
      }
    }
  }

  /** `indices.sort(...)` with the ascending or the descending comparator: an insertion sort. */
  function Sort(s: seq<nat>, desc: bool): (r: seq<nat>)
    ensures SortedBy(r, desc) && multiset(r) == multiset(s)
  {
    if s == [] then []
    else
      assert s == s[..|s| - 1] + [s[|s| - 1]];
      InsertSorted(Sort(s[..|s| - 1], desc), s[|s| - 1], desc)
  }

  /** A sorted list of different positions is strictly ordered. */
  lemma SortedDistinct(s: seq<nat>, t: seq<nat>, desc: bool)
    requires forall a, b :: 0 <= a < b < |t| ==> t[a] != t[b]
    requires SortedBy(s, desc) && multiset(s) == multiset(t)
    ensures forall a, b :: 0 <= a < b < |s| ==> s[a] != s[b]
  {
    forall a, b | 0 <= a < b < |s|
      ensures s[a] != s[b]
    {
      if s[a] == s[b] {
        TwiceCounted(s, a, b);
        MultiplicityOfDistinct(t, s[a]);
      }
    }
  }

  /** A value at two positions occurs at least twice. */
  lemma TwiceCounted<T>(s: seq<T>, a: nat, b: nat)
    requires a < b < |s| && s[a] == s[b]
    ensures multiset(s)[s[a]] >= 2
  {
    var x := s[a];
    assert s == s[..a] + [x] + s[a + 1..b] + [x] + s[b + 1..];
  }

  /** In a list without repeats every element occurs once. */
  lemma {:induction false} MultiplicityOfDistinct(t: seq<nat>, x: nat)
    requires forall a, b :: 0 <= a < b < |t| ==> t[a] != t[b]
    ensures multiset(t)[x] <= 1
  {
    if t != [] {
      var init := t[..|t| - 1];
      assert t == init + [t[|t| - 1]];
      MultiplicityOfDistinct(init, x);
      if t[|t| - 1] == x {
        assert x !in init;
      }
    }
  }

  // ---------------------------------------------------------------------------------------
  // Removing a set of positions

  /** The items whose positions are not in `gone`, in their order. */
  function RemoveIndices<T>(items: seq<T>, gone: set<nat>): (r: seq<T>)
    ensures |r| <= |items|
    decreases |items|
  {
    if items == [] then []
    else RemoveIndices(items[..|items| - 1], gone) + (if |items| - 1 in gone then [] else [items[|items| - 1]])
  }

  /** Removing no position that the list has leaves it as it is. */
  lemma {:induction false} RemoveNone<T>(items: seq<T>, gone: set<nat>)
    requires forall x :: x in gone ==> x >= |items|
    ensures RemoveIndices(items, gone) == items
    decreases |items|
  {
    if items != [] {
      RemoveNone(items[..|items| - 1], gone);
    }
  }

  /**
   * Splicing out position `d` below every position already removed is removing `d` as
   * well: the positions before `d` have not moved.
   */
  lemma {:induction false} RemoveOneMore<T>(items: seq<T>, gone: set<nat>, d: nat)
    requires d < |items| && d !in gone && forall x :: x in gone ==> x > d
    ensures d < |RemoveIndices(items, gone)| && RemoveIndices(items, gone)[d] == items[d]
    ensures RemoveIndices(items, gone + {d}) == RemoveIndices(items, gone)[..d] + RemoveIndices(items, gone)[d + 1..]
    decreases |items|
  {
    var n := |items| - 1;
    var init := items[..n];
    if d == n {
      RemoveLast(items, gone);
    } else {
      RemoveOneMore(init, gone, d);
      var x := RemoveIndices(init, gone);
      var t := if n in gone then [] else [items[n]];
      assert RemoveIndices(items, gone) == x + t;
      assert RemoveIndices(items, gone + {d}) == RemoveIndices(init, gone + {d}) + t;
      SpliceBeforeTail(x, t, d);
    }
  }

  /** Removing the last position and nothing before it drops the last item. */
  lemma RemoveLast<T>(items: seq<T>, gone: set<nat>)
    requires items != [] && forall x :: x in gone ==> x >= |items|
    ensures RemoveIndices(items, gone) == items
    ensures RemoveIndices(items, gone + {|items| - 1}) == items[..|items| - 1]
  {
    var n := |items| - 1;
    RemoveNone(items[..n], gone + {n});
    RemoveNone(items, gone);
  }

  /** Splicing out a position of `x` is the same before and after appending `t`. */
  lemma SpliceBeforeTail<T>(x: seq<T>, t: seq<T>, d: nat)
    requires d < |x|
    ensures (x + t)[..d] + (x + t)[d + 1..] == x[..d] + x[d + 1..] + t
  {
    assert (x + t)[..d] == x[..d];
    assert (x + t)[d + 1..] == x[d + 1..] + t;
  }

  // ---------------------------------------------------------------------------------------
  // The editor's state

  class ItemEditor {
    var items: seq<Item>
    var selectedItemIndex: int

    constructor (drawingItems: seq<Item>)
      ensures items == drawingItems && selectedItemIndex == -1
    {
      items := drawingItems;
      selectedItemIndex := -1;
    }

    /** `removeItem`: once the user confirms, the item at `index` is spliced out. */
    method RemoveItem(index: nat, confirmed: bool)
      requires index < |items|
      modifies this
      ensures items == (if confirmed then RemoveAt(old(items), index) else old(items))
      ensures selectedItemIndex == old(selectedItemIndex)
    {
      if confirmed {
        items := items[..index] + items[index + 1..];
      }
    }

    /**
     * `moveItemDown`: the item at `index` changes places with the next one, and a selection
     * of either of the two follows its item; at the last position nothing happens.
     */
    method MoveItemDown(index: nat)
      modifies this
      ensures index + 1 >= |old(items)| ==> items == old(items) && selectedItemIndex == old(selectedItemIndex)
      ensures index + 1 < |old(items)| ==>
        items == old(items)[index := old(items)[index + 1]][index + 1 := old(items)[index]]
        && selectedItemIndex == SelectionAfterSwap(old(selectedItemIndex), index)
    {
      if index + 1 < |items| {
        var a := items[index];
        var b := items[index + 1];
        items := items[index := b][index + 1 := a];
        if selectedItemIndex == index {
          selectedItemIndex := index + 1;
        } else if selectedItemIndex == index + 1 {
          selectedItemIndex := index;
        }
      }
    }

    /**
     * `moveItemUp`: the item at `index` is taken out and put back at `UpTarget`, and a
     * selection of it or of an item it jumped over follows that item; at position 0
     * nothing happens.
     */
    method MoveItemUp(index: nat)
      requires index < |items|
      modifies this
      ensures index == 0 ==> items == old(items) && selectedItemIndex == old(selectedItemIndex)
      ensures index > 0 ==>
        var t := UpTarget(old(items), index);
        items == InsertAt(RemoveAt(old(items), index), t, old(items)[index])
        && selectedItemIndex == SelectionAfterMove(old(selectedItemIndex), index, t)
    {
      if index > 0 {
        var s := items;
        var current := s[index];
        var targetIndex := UpTargetScan(s, index);
        items := InsertAt(RemoveAt(s, index), targetIndex, current);
        if selectedItemIndex == index {
          selectedItemIndex := targetIndex;
        } else if selectedItemIndex >= targetIndex && selectedItemIndex < index {
          selectedItemIndex := selectedItemIndex + 1;
        }
      }
    }
    /**
     * `removeMergedTouchZone`: once the user confirms, the positions of the touchZone row are
     * spliced out from the highest down, so that each splice leaves the lower ones in place.
     */
    method RemoveMergedTouchZone(m: Merged, confirmed: bool)
      requires m.ZoneGroup? && WellFormedRow(items, m)
      modifies this
      ensures items == (if confirmed then RemoveIndices(old(items), SetOf(Members(m))) else old(items))
      ensures selectedItemIndex == old(selectedItemIndex)
    {
      var toRemove := Sort(Members(m), true);
      DescendingRemoval(items, m);
      if confirmed {
        items := SpliceDescending(items, toRemove);
      }
    }

    /**
     * `moveTouchZoneAndRepositionRelated`: the touchZone is moved to its new position, then
     * its touchActionInput and touchActions are taken out from the end backwards and put back,
     * in their order, right after the touchZone. The touchZone is followed by its position `p`
     * where the source finds it again by object identity.
     */
    method MoveTouchZoneAndRepositionRelated(m: Merged, target: Merged, up: bool)
      requires m.ZoneGroup? && WellFormedRow(items, m) && WellFormedRow(items, target)
      modifies this
      ensures items == Repositioned(old(items), m.zone, ZoneTarget(old(items), m.zone, target, up))
      ensures selectedItemIndex == old(selectedItemIndex)
    {
      var tp := ZoneTarget(items, m.zone, target, up);
      items := MoveZoneGroup(items, m.zone, tp);
    }

    /**
     * `moveMergedTouchZoneUp` and `moveMergedTouchZoneDown`: the touchZone row at `mergedIndex`
     * of a freshly built view changes places with the row above or below it; at the top or the
     * bottom nothing happens.
     */
    method MoveMergedTouchZone(mergedIndex: nat, up: bool)
      requires mergedIndex < |MergedView(items)| && MergedView(items)[mergedIndex].ZoneGroup?
      modifies this
      ensures var v := MergedView(old(items));
        var other := if up then mergedIndex - 1 else mergedIndex + 1;
        items == (if (up && mergedIndex == 0) || (!up && mergedIndex == |v| - 1) then old(items)
                  else Repositioned(old(items), v[mergedIndex].zone, ZoneTarget(old(items), v[mergedIndex].zone, v[other], up)))
      ensures selectedItemIndex == old(selectedItemIndex)
    {
      var view := CreateMergedItemsView(items);
      if up && mergedIndex == 0 {
        return;
      }
      if !up && mergedIndex == |view| - 1 {
        return;
      }
      var other := if up then mergedIndex - 1 else mergedIndex + 1;
      MoveTouchZoneAndRepositionRelated(view[mergedIndex], view[other], up);
    }
  }

  /** The selection after the items at `index` and `index + 1` change places. */
  function SelectionAfterSwap(selected: int, index: nat): int {
    if selected == index then index + 1 else if selected == index + 1 then index else selected
  }

  /** The selection after the item at `index` moves up to `target`. */
  function SelectionAfterMove(selected: int, index: nat, target: nat): int {
    if selected == index then target
    else if target <= selected < index then selected + 1
    else selected
  }

  predicate IsTouchKind(it: Item) {
    it.kind == TouchZone || it.kind == TouchAction || it.kind == TouchActionInput
  }

  /** `s.splice(i, 1)`. */
  function RemoveAt<T>(s: seq<T>, i: nat): (r: seq<T>)
    requires i < |s|
    ensures |r| == |s| - 1
  {
    s[..i] + s[i + 1..]
  }

  /** Splicing out one position is removing the set of just that position. */
  lemma RemoveAtIsRemoveIndices<T>(s: seq<T>, i: nat)
    requires i < |s|
    ensures RemoveAt(s, i) == RemoveIndices(s, {i})
    ensures |RemoveAt(s, i)| == |s| - 1 && forall k :: 0 <= k < |s| - 1 ==> RemoveAt(s, i)[k] == (if k < i then s[k] else s[k + 1])
  {
    RemoveNone(s, {});
    RemoveOneMore(s, {}, i);
    assert {} + {i} == {i};
  }

  /** `s.splice(i, 0, x)`. */
  function InsertAt<T>(s: seq<T>, i: nat, x: T): (r: seq<T>)
    requires i <= |s|
    ensures |r| == |s| + 1
  {
    s[..i] + [x] + s[i..]
  }

  /** The last touchZone named `name` before position `t`. */
  function ZoneBefore(s: seq<Item>, t: nat, name: string): (r: Option<nat>)
    requires t <= |s|
    ensures r.Some? ==> r.value < t && s[r.value].kind == TouchZone && s[r.value].cmdName == name
    ensures r.Some? ==> forall k :: r.value < k < t ==> !(s[k].kind == TouchZone && s[k].cmdName == name)
    ensures r.None? ==> forall k :: 0 <= k < t ==> !(s[k].kind == TouchZone && s[k].cmdName == name)
  {
    if t == 0 then None
    else if s[t - 1].kind == TouchZone && s[t - 1].cmdName == name then Some(t - 1)
    else ZoneBefore(s, t - 1, name)
  }

  /** The backwards scan for the touchZone of a touchAction or touchActionInput. */
  method FindZoneBefore(s: seq<Item>, t: nat, name: string) returns (r: Option<nat>)
    requires t <= |s|
    ensures r == ZoneBefore(s, t, name)
  {
    var i := t;
    while i > 0
      invariant 0 <= i <= t
      invariant ZoneBefore(s, t, name) == ZoneBefore(s, i, name)
    {
      if s[i - 1].kind == TouchZone && s[i - 1].cmdName == name {
        return Some(i - 1);
      }
      i := i - 1;
    }
    return None;
  }

  /**
   * The position above the item at `index` where `moveItemUp` puts it: the one just above,
   * except that an item outside the touch groups jumps over a touchAction or
   * touchActionInput to land at that item's touchZone.
   */
  function UpTarget(s: seq<Item>, index: nat): (r: nat)
    requires 0 < index < |s|
    ensures r < index
    ensures r == index - 1 || (!IsTouchKind(s[index]) && IsTouchChild(s[index - 1])
                               && s[r].kind == TouchZone && s[r].cmdName == s[index - 1].cmdName)
  {
    var t := index - 1;
    if !IsTouchKind(s[index]) && t > 0 && IsTouchChild(s[t]) && ZoneBefore(s, t, s[t].cmdName).Some? then
      ZoneBefore(s, t, s[t].cmdName).value
    else
      t
  }

  /** The loop of `moveItemUp` that finds where the item goes. */
  method UpTargetScan(s: seq<Item>, index: nat) returns (targetIndex: nat)
    requires 0 < index < |s|
    ensures targetIndex == UpTarget(s, index)
  {
    targetIndex := index - 1;
    if !IsTouchKind(s[index]) {
      while targetIndex > 0
        invariant 0 <= targetIndex < index
        invariant targetIndex == index - 1 || (IsZoneBefore(s, index - 1) && targetIndex == UpTarget(s, index))
        invariant targetIndex != index - 1 ==> s[targetIndex].kind == TouchZone
        decreases targetIndex, if targetIndex == index - 1 then 1 else 0
      {
        var target := s[targetIndex];
        if target.kind == TouchAction || target.kind == TouchActionInput {
          var zone := FindZoneBefore(s, targetIndex, target.cmdName);
          if zone.Some? {
            targetIndex := zone.value;
          } else {
            break;
          }
        } else {
          break;
        }
      }
    }
  }

  /** The jump of `moveItemUp` applies at `index`. */
  predicate IsZoneBefore(s: seq<Item>, t: nat)
    requires t < |s|
  {
    t > 0 && IsTouchChild(s[t]) && ZoneBefore(s, t, s[t].cmdName).Some?
  }

  /**
   * Moving an item up is a permutation: the moved item lands at the target, the items it
   * passes shift down by one, the rest stay; and the selection still names the item it
   * named before.
   */
  lemma {:induction false} MoveUpPermutes(s: seq<Item>, index: nat, selected: int)
    requires 0 < index < |s|
    ensures var t := UpTarget(s, index);
      var r := InsertAt(RemoveAt(s, index), t, s[index]);
      multiset(r) == multiset(s)
      && r[t] == s[index]
      && (forall k :: 0 <= k < t ==> r[k] == s[k])
      && (forall k :: t < k <= index ==> r[k] == s[k - 1])
      && (forall k :: index < k < |s| ==> r[k] == s[k])
      && (0 <= selected < |s| ==> r[SelectionAfterMove(selected, index, t)] == s[selected])
  {
    MoveToPermutes(s, index, UpTarget(s, index), selected);
  }

  /** Taking out the item at `index` and putting it back at `t <= index`. */
  lemma {:induction false} MoveToPermutes<T>(s: seq<T>, index: nat, t: nat, selected: int)
    requires t <= index < |s|
    ensures var r := InsertAt(RemoveAt(s, index), t, s[index]);
      multiset(r) == multiset(s)
      && r[t] == s[index]
      && (forall k :: 0 <= k < t ==> r[k] == s[k])
      && (forall k :: t < k <= index ==> r[k] == s[k - 1])
      && (forall k :: index < k < |s| ==> r[k] == s[k])
      && (0 <= selected < |s| ==> r[SelectionAfterMove(selected, index, t)] == s[selected])
  {
    var x := s[index];
    var a, b, c := s[..t], s[t..index], s[index + 1..];
    var r := InsertAt(RemoveAt(s, index), t, x);
    assert s == a + b + [x] + c;
    assert r == a + [x] + b + c by {
      assert RemoveAt(s, index) == a + b + c;
      assert (a + b + c)[..t] == a;
      assert (a + b + c)[t..] == b + c;
    }
    MovedParts(a, b, x, c, selected);
  }

  /** The item `x` moved from after `b` to before it. */
  lemma MovedParts<T>(a: seq<T>, b: seq<T>, x: T, c: seq<T>, selected: int)
    ensures var s, r, t, index := a + b + [x] + c, a + [x] + b + c, |a|, |a| + |b|;
      multiset(r) == multiset(s)
      && r[t] == s[index]
      && (forall k :: 0 <= k < t ==> r[k] == s[k])
      && (forall k :: t < k <= index ==> r[k] == s[k - 1])
      && (forall k :: index < k < |s| ==> r[k] == s[k])
      && (0 <= selected < |s| ==> r[SelectionAfterMove(selected, index, t)] == s[selected])
  {
    var s, r := a + b + [x] + c, a + [x] + b + c;
    assert multiset(r) == multiset(s) by {
      calc {
        multiset(r);
        multiset(a) + multiset{x} + multiset(b) + multiset(c);
        multiset(s);
      }
    }
    forall k | |a| < k <= |a| + |b|
      ensures r[k] == s[k - 1]
    {
      assert r[k] == b[k - |a| - 1];
    }
  }

  /** Moving down swaps two neighbours: a permutation, and the selection follows its item. */
  lemma {:induction false} MoveDownSwaps<T>(s: seq<T>, index: nat, selected: int)
    requires index + 1 < |s|
    ensures var r := s[index := s[index + 1]][index + 1 := s[index]];
      multiset(r) == multiset(s)
      && (0 <= selected < |s| ==> r[SelectionAfterSwap(selected, index)] == s[selected])
  {
    var r := s[index := s[index + 1]][index + 1 := s[index]];
    assert s == s[..index] + [s[index], s[index + 1]] + s[index + 2..];
    assert r == s[..index] + [s[index + 1], s[index]] + s[index + 2..];
  }

  // ---------------------------------------------------------------------------------------
  // The merged view

  /**
   * One row of the item list: an item shown on its own, or a touchZone with the
   * touchActionInput and touchActions that share its command name (positions in the items).
   */
  datatype Merged = Regular(index: nat) | ZoneGroup(zone: nat, input: Option<nat>, actions: seq<nat>)

  predicate IsZoneNamed(it: Item, name: string) {
    it.kind == TouchZone && it.cmdName == name
  }

  /** The first touchZone named `name` in positions `k` to `t - 1`. */
  function FirstZoneFrom(s: seq<Item>, k: nat, t: nat, name: string): (r: Option<nat>)
    requires k <= t <= |s|
    ensures r.Some? ==> k <= r.value < t && IsZoneNamed(s[r.value], name)
                        && forall m :: k <= m < r.value ==> !IsZoneNamed(s[m], name)
    ensures r.None? ==> forall m :: k <= m < t ==> !IsZoneNamed(s[m], name)
    decreases t - k
  {
    if k == t then None
    else if IsZoneNamed(s[k], name) then Some(k)
    else FirstZoneFrom(s, k + 1, t, name)
  }

  /**
   * The touchZone whose row shows the touchAction or touchActionInput at `j`: the first
   * touchZone with its command name, when that comes before it. None for every other item.
   */
  function Owner(s: seq<Item>, j: nat): (r: Option<nat>)
    requires j < |s|
    ensures r.Some? ==> r.value < j && IsTouchChild(s[j]) && IsZoneNamed(s[r.value], s[j].cmdName)
  {
    if IsTouchChild(s[j]) then FirstZoneFrom(s, 0, j, s[j].cmdName) else None
  }

  /** The owner is the first touchZone with the item's command name; without one, there is none before it. */
  lemma OwnerIsFirst(s: seq<Item>, j: nat)
    requires j < |s| && IsTouchChild(s[j])
    ensures Owner(s, j).Some? ==> forall m :: 0 <= m < Owner(s, j).value ==> !IsZoneNamed(s[m], s[j].cmdName)
    ensures Owner(s, j).None? ==> forall m :: 0 <= m < j ==> !IsZoneNamed(s[m], s[j].cmdName)
  {
  }

  /** The touchActions among the first `j` items that the touchZone at `z` shows, in order. */
  function ActionsUpTo(s: seq<Item>, z: nat, j: nat): (r: seq<nat>)
    requires j <= |s|
    ensures forall a :: 0 <= a < |r| ==> r[a] < j && s[r[a]].kind == TouchAction && Owner(s, r[a]) == Some(z)
    ensures forall a, b :: 0 <= a < b < |r| ==> r[a] < r[b]
  {
    if j == 0 then []
    else ActionsUpTo(s, z, j - 1) + (if s[j - 1].kind == TouchAction && Owner(s, j - 1) == Some(z) then [j - 1] else [])
  }

  /**
   * The touchActionInput among the first `j` items that the touchZone at `z` shows: the last
   * one, since each one found replaces the one before.
   */
  function InputUpTo(s: seq<Item>, z: nat, j: nat): (r: Option<nat>)
    requires j <= |s|
    ensures r.Some? ==> r.value < j && s[r.value].kind == TouchActionInput && Owner(s, r.value) == Some(z)
    ensures r.Some? ==> forall m :: r.value < m < j ==> !(s[m].kind == TouchActionInput && Owner(s, m) == Some(z))
    ensures r.None? ==> forall m :: 0 <= m < j ==> !(s[m].kind == TouchActionInput && Owner(s, m) == Some(z))
  {
    if j == 0 then None
    else if s[j - 1].kind == TouchActionInput && Owner(s, j - 1) == Some(z) then Some(j - 1)
    else InputUpTo(s, z, j - 1)
  }

  /** The position a row is listed under. */
  function Lead(m: Merged): nat {
    if m.Regular? then m.index else m.zone
  }

  /** A row as the view builds it for the items `s`. */
  predicate WellFormedRow(s: seq<Item>, m: Merged) {
    match m
    case Regular(i) => i < |s| && s[i].kind != TouchZone && Owner(s, i).None?
    case ZoneGroup(z, input, actions) =>
      z < |s| && s[z].kind == TouchZone && input == InputUpTo(s, z, |s|) && actions == ActionsUpTo(s, z, |s|)
  }

  /** The row, if any, that the item at `i` starts. */
  function RowAt(s: seq<Item>, i: nat): (r: seq<Merged>)
    requires i < |s|
    ensures |r| <= 1 && forall a :: 0 <= a < |r| ==> Lead(r[a]) == i && WellFormedRow(s, r[a])
  {
    if s[i].kind == TouchZone then [ZoneGroup(i, InputUpTo(s, i, |s|), ActionsUpTo(s, i, |s|))]
    else if Owner(s, i).None? then [Regular(i)]
    else []
  }

  /** The rows started by the first `i` items, in order of position. */
  function MergedUpTo(s: seq<Item>, i: nat): (r: seq<Merged>)
    requires i <= |s|
    ensures forall a :: 0 <= a < |r| ==> Lead(r[a]) < i && WellFormedRow(s, r[a])
    ensures forall a, b :: 0 <= a < b < |r| ==> Lead(r[a]) < Lead(r[b])
  {
    if i == 0 then [] else MergedUpTo(s, i - 1) + RowAt(s, i - 1)
  }

  /** The rows of `createMergedItemsView`. */
  function MergedView(s: seq<Item>): seq<Merged> {
    MergedUpTo(s, |s|)
  }

  /** Before the scan reaches position `i`, these positions have been put in a row. */
  predicate Claimed(s: seq<Item>, i: nat, k: nat)
    requires k < |s|
  {
    k < i || (Owner(s, k).Some? && Owner(s, k).value < i)
  }

  /** The positions put in a row before the scan reaches position `i`. */
  function ClaimedSet(s: seq<Item>, i: nat): set<nat> {
    set k: nat | k < |s| && Claimed(s, i, k)
  }

  /** The positions among the first `j` that the touchZone at `z` owns. */
  function OwnedUpTo(s: seq<Item>, z: nat, j: nat): (r: set<nat>)
    requires j <= |s|
  {
    if j == 0 then {}
    else OwnedUpTo(s, z, j - 1) + (if Owner(s, j - 1) == Some(z) then {j - 1} else {})
  }

  /** Only owned positions are found. */
  lemma {:induction false} OwnedUpToOwned(s: seq<Item>, z: nat, j: nat)
    requires j <= |s|
    ensures forall k :: k in OwnedUpTo(s, z, j) ==> k < j && Owner(s, k) == Some(z)
  {
    if j > 0 {
      OwnedUpToOwned(s, z, j - 1);
    }
  }

  /** Every owned position is found. */
  lemma {:induction false} OwnedUpToAll(s: seq<Item>, z: nat, j: nat, k: nat)
    requires k < j <= |s| && Owner(s, k) == Some(z)
    ensures k in OwnedUpTo(s, z, j)
  {
    if k < j - 1 {
      OwnedUpToAll(s, z, j - 1, k);
    }
  }

  /** One step of the outer scan: position `i` and what it owns join the placed positions. */
  lemma ClaimedNext(s: seq<Item>, i: nat)
    requires i < |s|
    ensures ClaimedSet(s, i + 1) == ClaimedSet(s, i) + OwnedUpTo(s, i, |s|) + {i}
  {
    OwnedUpToOwned(s, i, |s|);
    forall k | k in ClaimedSet(s, i + 1)
      ensures k in ClaimedSet(s, i) + OwnedUpTo(s, i, |s|) + {i}
    {
      if k != i && !Claimed(s, i, k) {
        OwnedUpToAll(s, i, |s|, k);
      }
    }
  }

  /**
   * While the scan stands at the touchZone `i`, an item joins its row exactly when the
   * touchZone owns it.
   */
  lemma JoinsGroup(s: seq<Item>, i: nat, j: nat)
    requires i < |s| && j < |s| && s[i].kind == TouchZone
    ensures Owner(s, j) == Some(i) <==>
      (j != i && !Claimed(s, i, j) && s[j].cmdName == s[i].cmdName && IsTouchChild(s[j]))
  {
    if j != i && !Claimed(s, i, j) && s[j].cmdName == s[i].cmdName && IsTouchChild(s[j]) {
      assert IsZoneNamed(s[i], s[j].cmdName);
      OwnerIsFirst(s, j);
    }
    if Owner(s, j) == Some(i) {
      OwnerIsFirst(s, j);
    }
  }

  /** The test the inner scan makes at position `j` picks exactly the positions owned. */
  lemma CollectStep(s: seq<Item>, i: nat, processed: set<nat>, owned: set<nat>, done: set<nat>, j: nat)
    requires i < |s| && j < |s| && s[i].kind == TouchZone
    requires processed == ClaimedSet(s, i) && owned == OwnedUpTo(s, i, j) && done == processed + owned
    ensures var joins := j != i && j !in done && s[j].cmdName == s[i].cmdName;
      && InputUpTo(s, i, j + 1) == (if joins && s[j].kind == TouchActionInput then Some(j) else InputUpTo(s, i, j))
      && ActionsUpTo(s, i, j + 1) == ActionsUpTo(s, i, j) + (if joins && s[j].kind == TouchAction then [j] else [])
      && (joins && IsTouchChild(s[j]) ==> OwnedUpTo(s, i, j + 1) == owned + {j} && done + {j} == processed + (owned + {j}))
      && (!(joins && IsTouchChild(s[j])) ==> OwnedUpTo(s, i, j + 1) == owned)
  {
    JoinsGroup(s, i, j);
    OwnedUpToOwned(s, i, j);
    assert j in processed <==> Claimed(s, i, j);
  }

  /** The inner scan of `createMergedItemsView` for the touchZone at `index`. */
  method CollectGroup(items: seq<Item>, index: nat, processed: set<nat>)
    returns (input: Option<nat>, actions: seq<nat>, done: set<nat>)
    requires index < |items| && items[index].kind == TouchZone
    requires processed == ClaimedSet(items, index)
    ensures input == InputUpTo(items, index, |items|) && actions == ActionsUpTo(items, index, |items|)
    ensures done == processed + OwnedUpTo(items, index, |items|)
  {
    input, actions, done := None, [], processed;
    ghost var owned: set<nat> := {};
    var j: nat := 0;
    while j < |items|
      invariant j <= |items|
      invariant input == InputUpTo(items, index, j) && actions == ActionsUpTo(items, index, j)
      invariant owned == OwnedUpTo(items, index, j) && done == processed + owned
    {
      CollectStep(items, index, processed, owned, done, j);
      if j != index && j !in done && items[j].cmdName == items[index].cmdName {
        if items[j].kind == TouchActionInput {
          input := Some(j);
          done, owned := done + {j}, owned + {j};
        } else if items[j].kind == TouchAction {
          actions := actions + [j];
          done, owned := done + {j}, owned + {j};
        }
      }
      j := j + 1;
    }
  }

  /** One step of the scan: the row the item at `index` starts, and what is claimed after it. */
  method ScanRow(items: seq<Item>, index: nat, processed: set<nat>) returns (row: seq<Merged>, done: set<nat>)
    requires index < |items| && processed == ClaimedSet(items, index)
    ensures row == RowAt(items, index) && done == ClaimedSet(items, index + 1)
  {
    ClaimedNext(items, index);
    OwnedUpToOwned(items, index, |items|);
    assert index in processed <==> Claimed(items, index, index);
    if index !in processed {
      if items[index].kind == TouchZone {
        var input, actions, owned := CollectGroup(items, index, processed);
        row := [ZoneGroup(index, input, actions)];
        done := owned + {index};
      } else {
        assert OwnedUpTo(items, index, |items|) == {};
        row := [Regular(index)];
        done := processed + {index};
      }
    } else {
      assert OwnedUpTo(items, index, |items|) == {};
      row := [];
      done := processed + {index};
    }
  }

  /**
   * `createMergedItemsView`: one scan over the items that starts a row at each item no
   * earlier row has taken, collecting a touchZone's related items into its row.
   */
  method CreateMergedItemsView(items: seq<Item>) returns (merged: seq<Merged>)
    ensures merged == MergedView(items)
  {
    merged := [];
    var processed: set<nat> := {};
    var index := 0;
    while index < |items|
      invariant index <= |items| && merged == MergedUpTo(items, index)
      invariant processed == ClaimedSet(items, index)
    {
      var row, done := ScanRow(items, index, processed);
      merged := merged + row;
      processed := done;
      index := index + 1;
    }
  }

  /** The positions a row stands for: the touchZone, its touchActionInput, its touchActions. */
  function Members(m: Merged): seq<nat> {
    match m
    case Regular(i) => [i]
    case ZoneGroup(z, input, actions) => [z] + (if input.Some? then [input.value] else []) + actions
  }

  /** A row started before position `n` is in the rows of the first `n` items. */
  lemma {:induction false} RowInView(s: seq<Item>, i: nat, n: nat)
    requires i < n <= |s|
    ensures forall m :: m in RowAt(s, i) ==> m in MergedUpTo(s, n)
  {
    if i < n - 1 {
      RowInView(s, i, n - 1);
    }
  }

  /** An owned touchAction is among the actions of its touchZone once the scan has passed it. */
  lemma {:induction false} ActionListed(s: seq<Item>, z: nat, j: nat, k: nat)
    requires k < j <= |s| && s[k].kind == TouchAction && Owner(s, k) == Some(z)
    ensures k in ActionsUpTo(s, z, j)
  {
    if k < j - 1 {
      ActionListed(s, z, j - 1, k);
    }
  }

  /**
   * Every item is shown: a touchZone heads its own group; any other item that no touchZone
   * owns is a row of its own; an owned touchAction is in its touchZone's group; and an
   * owned touchActionInput is that group's input unless a later one replaced it.
   */
  lemma ViewShowsEveryItem(s: seq<Item>, k: nat)
    requires k < |s|
    ensures s[k].kind == TouchZone ==>
      ZoneGroup(k, InputUpTo(s, k, |s|), ActionsUpTo(s, k, |s|)) in MergedView(s)
    ensures s[k].kind != TouchZone && Owner(s, k).None? ==> Regular(k) in MergedView(s)
    ensures Owner(s, k).Some? ==>
      var z := Owner(s, k).value;
      var g := ZoneGroup(z, InputUpTo(s, z, |s|), ActionsUpTo(s, z, |s|));
      g in MergedView(s)
      && (s[k].kind == TouchAction ==> k in g.actions)
      && (s[k].kind == TouchActionInput ==> g.input.Some? && k <= g.input.value)
  {
    RowInView(s, k, |s|);
    if Owner(s, k).Some? {
      var z := Owner(s, k).value;
      RowInView(s, z, |s|);
      if s[k].kind == TouchAction {
        ActionListed(s, z, |s|, k);
      }
    }
  }

  /** The positions of one row are all different. */
  lemma RowMembersDistinct(s: seq<Item>, m: Merged)
    requires WellFormedRow(s, m)
    ensures forall a, b :: 0 <= a < b < |Members(m)| ==> Members(m)[a] != Members(m)[b]
    ensures forall a :: 0 <= a < |Members(m)| ==> Members(m)[a] < |s|
  {
    if m.ZoneGroup? {
      var ms := Members(m);
      forall a | 0 <= a < |ms|
        ensures ms[a] < |s| && (a == 0 || Owner(s, ms[a]) == Some(m.zone))
        ensures a > 0 ==> (s[ms[a]].kind == TouchActionInput <==> m.input.Some? && a == 1)
      {
        GroupPosition(m.zone, m.input, m.actions, a);
      }
      forall a, b | 0 <= a < b < |ms|
        ensures ms[a] != ms[b]
      {
        GroupPosition(m.zone, m.input, m.actions, a);
        GroupPosition(m.zone, m.input, m.actions, b);
      }
    }
  }

  /** Where the `a`-th position of a group comes from. */
  lemma GroupPosition(z: nat, input: Option<nat>, actions: seq<nat>, a: nat)
    requires a < |Members(ZoneGroup(z, input, actions))|
    ensures var ms := Members(ZoneGroup(z, input, actions));
      var extra := if input.Some? then 1 else 0;
      (a == 0 ==> ms[a] == z)
      && (input.Some? && a == 1 ==> ms[a] == input.value)
      && (a >= 1 + extra ==> ms[a] == actions[a - 1 - extra])
  {
  }

  /** Every position is in one row at most: two rows of the view share no position. */
  lemma RowsDisjoint(s: seq<Item>, a: nat, b: nat)
    requires a < b < |MergedView(s)|
    ensures forall x :: x in Members(MergedView(s)[a]) ==> x !in Members(MergedView(s)[b])
  {
    var v := MergedView(s);
    var ma, mb := v[a], v[b];
    assert WellFormedRow(s, ma) && WellFormedRow(s, mb) && Lead(ma) < Lead(mb);
    forall x | x in Members(ma) && x in Members(mb)
      ensures false
    {
      MemberOwner(s, ma, x);
      MemberOwner(s, mb, x);
    }
  }

  /** A position in a row is the row's lead, or it is owned by the lead. */
  lemma MemberOwner(s: seq<Item>, m: Merged, x: nat)
    requires WellFormedRow(s, m) && x in Members(m)
    ensures x < |s|
    ensures x == Lead(m) || (m.ZoneGroup? && Owner(s, x) == Some(m.zone))
    ensures x == Lead(m) ==> (m.Regular? <==> s[x].kind != TouchZone) && (m.Regular? ==> Owner(s, x).None?)
  {
    if m.ZoneGroup? {
      var inputPart := if m.input.Some? then [m.input.value] else [];
      assert Members(m) == [m.zone] + inputPart + m.actions;
      if x in m.actions {
        var i :| 0 <= i < |m.actions| && m.actions[i] == x;
        assert Owner(s, x) == Some(m.zone);
      } else if x in inputPart {
        assert x == m.input.value;
      }
    }
  }

  // ---------------------------------------------------------------------------------------
  // Moving a touchZone row

  /** `getMergedItemIndices`: the positions of a row in ascending order. */
  function GetMergedItemIndices(m: Merged): (r: seq<nat>)
    ensures SortedBy(r, false) && multiset(r) == multiset(Members(m)) && |r| >= 1
  {
    assert |multiset(Members(m))| >= 1;
    Sort(Members(m), false)
  }

  /** The positions of a row of the view are strictly ascending and inside the items. */
  lemma MergedIndicesStrict(s: seq<Item>, m: Merged)
    requires WellFormedRow(s, m)
    ensures var r := GetMergedItemIndices(m);
      (forall a, b :: 0 <= a < b < |r| ==> r[a] < r[b])
      && forall a :: 0 <= a < |r| ==> r[a] < |s| && r[a] in Members(m)
  {
    var r := GetMergedItemIndices(m);
    var ms := Members(m);
    assert forall a, b :: 0 <= a < b < |ms| ==> ms[a] != ms[b] by {
      RowMembersDistinct(s, m);
    }
    SortedDistinct(r, ms, false);
    forall a | 0 <= a < |r|
      ensures r[a] < |s| && r[a] in ms
    {
      assert r[a] in multiset(ms);
      MemberOwner(s, m, r[a]);
    }
  }

  /** `Math.max(...s)`. */
  function MaxOf(s: seq<nat>): (r: nat)
    requires s != []
    ensures r in s && forall a :: 0 <= a < |s| ==> s[a] <= r
  {
    if |s| == 1 then s[0]
    else
      var m := MaxOf(s[1..]);
      assert forall a :: 1 <= a < |s| ==> s[a] == s[1..][a - 1];
      if s[0] >= m then s[0] else m
  }

  /**
   * Where the touchZone at `zi` goes among the `n - 1` items left once it is taken out:
   * moving up, to the first position of the row above; moving down, just past the last
   * position of the row below; one less when the touchZone was before that position.
   */
  function ZoneTarget(items: seq<Item>, zi: nat, target: Merged, up: bool): (r: nat)
    requires zi < |items| && WellFormedRow(items, target)
    ensures r < |items|
  {
    var tp := if up then Lead(target) else MaxOf(GetMergedItemIndices(target)) + 1;
    TargetBounded(items, target);
    if zi < tp then tp - 1 else tp
  }

  /**
   * The target puts the touchZone next to the neighbouring row: once it is taken out and put
   * back at the target, moving up leaves it directly before that row's lead.
   */
  lemma ZoneTargetBeforeRow(items: seq<Item>, zi: nat, target: Merged)
    requires zi < |items| && WellFormedRow(items, target) && zi != Lead(target)
    ensures var t := ZoneTarget(items, zi, target, true);
      var y := InsertAt(RemoveAt(items, zi), t, items[zi]);
      y[t] == items[zi] && y[t + 1] == items[Lead(target)]
  {
    TargetBounded(items, target);
    MovedBefore(items, zi, Lead(target), ZoneTarget(items, zi, target, true));
  }

  /**
   * Moving down, the touchZone is left directly after the last position of the row below.
   */
  lemma ZoneTargetAfterRow(items: seq<Item>, zi: nat, target: Merged)
    requires zi < |items| && WellFormedRow(items, target) && zi != MaxOf(GetMergedItemIndices(target))
    ensures var t := ZoneTarget(items, zi, target, false);
      var y := InsertAt(RemoveAt(items, zi), t, items[zi]);
      y[t] == items[zi] && 0 < t && y[t - 1] == items[MaxOf(GetMergedItemIndices(target))]
  {
    TargetBounded(items, target);
    MovedAfter(items, zi, MaxOf(GetMergedItemIndices(target)), ZoneTarget(items, zi, target, false));
  }

  /** Taking out the element at `zi` and putting it back before the element at `x`. */
  lemma MovedBefore<T>(s: seq<T>, zi: nat, x: nat, t: nat)
    requires zi < |s| && x < |s| && zi != x && t == if zi < x then x - 1 else x
    ensures var y := InsertAt(RemoveAt(s, zi), t, s[zi]);
      y[t] == s[zi] && y[t + 1] == s[x]
  {
  }

  /** Taking out the element at `zi` and putting it back after the element at `x`. */
  lemma MovedAfter<T>(s: seq<T>, zi: nat, x: nat, t: nat)
    requires zi < |s| && x < |s| && zi != x && t == if zi < x + 1 then x else x + 1
    ensures var y := InsertAt(RemoveAt(s, zi), t, s[zi]);
      y[t] == s[zi] && 0 < t && y[t - 1] == s[x]
  {
  }

  lemma TargetBounded(items: seq<Item>, target: Merged)
    requires WellFormedRow(items, target)
    ensures Lead(target) < |items| && MaxOf(GetMergedItemIndices(target)) < |items|
  {
    RowMembersDistinct(items, target);
    assert Members(target)[0] == Lead(target);
    var g := GetMergedItemIndices(target);
    SameElements(g, Members(target));
    assert MaxOf(g) in SetOf(Members(target));
  }

  /** A touchActionInput or touchAction of the touchZone named `cmd`. */
  predicate IsRelated(it: Item, cmd: string) {
    IsTouchChild(it) && it.cmdName == cmd
  }

  /** The test for the items related to the touchZone named `cmd`. */
  function RelatedTo(cmd: string): Item -> bool {
    (it: Item) => IsRelated(it, cmd)
  }

  /** The items that pass `rel` (`related`) or that do not, in their order. */
  function Keep<T>(s: seq<T>, rel: T -> bool, related: bool): (r: seq<T>)
    ensures |r| <= |s|
  {
    if s == [] then [] else (if rel(s[0]) == related then [s[0]] else []) + Keep(s[1..], rel, related)
  }

  lemma {:induction false} KeepAppend<T>(a: seq<T>, b: seq<T>, rel: T -> bool, related: bool)
    ensures Keep(a + b, rel, related) == Keep(a, rel, related) + Keep(b, rel, related)
  {
    if a == [] {
      assert a + b == b;
    } else {
      var ab := a + b;
      assert ab[0] == a[0] && ab[1..] == a[1..] + b;
      var h := if rel(a[0]) == related then [a[0]] else [];
      KeepHead(a, rel, related);
      KeepHead(ab, rel, related);
      KeepAppend(a[1..], b, rel, related);
      assert h + (Keep(a[1..], rel, related) + Keep(b, rel, related))
        == (h + Keep(a[1..], rel, related)) + Keep(b, rel, related);
    }
  }

  /** What a non-empty list keeps: its head when it qualifies, then what its tail keeps. */
  lemma KeepHead<T>(s: seq<T>, rel: T -> bool, related: bool)
    requires s != []
    ensures Keep(s, rel, related) == (if rel(s[0]) == related then [s[0]] else []) + Keep(s[1..], rel, related)
  {
  }

  /** Splitting the items into the related ones and the others loses nothing. */
  lemma {:induction false} KeepSplits<T>(s: seq<T>, rel: T -> bool)
    ensures multiset(Keep(s, rel, true)) + multiset(Keep(s, rel, false)) == multiset(s)
  {
    if s != [] {
      KeepSplits(s[1..], rel);
      var ht := if rel(s[0]) then [s[0]] else [];
      var hf := if rel(s[0]) then [] else [s[0]];
      assert Keep(s, rel, true) == ht + Keep(s[1..], rel, true);
      assert Keep(s, rel, false) == hf + Keep(s[1..], rel, false);
      assert multiset(ht) + multiset(hf) == multiset{s[0]};
      assert s == [s[0]] + s[1..];
      assert multiset(s) == multiset{s[0]} + multiset(s[1..]);
    }
  }

  /** The three steps of `moveTouchZoneAndRepositionRelated` on the item list. */
  method MoveZoneGroup(items: seq<Item>, zi: nat, tp: nat) returns (r: seq<Item>)
    requires zi < |items| && tp < |items| && items[zi].kind == TouchZone
    ensures r == Repositioned(items, zi, tp)
  {
    var zone := items[zi];
    var cmd := zone.cmdName;
    var y := InsertAt(RemoveAt(items, zi), tp, zone);
    var rest, related, p := ExtractRelated(y, RelatedTo(cmd), tp);
    KeepZoneAt(y, RelatedTo(cmd), tp);
    r := InsertAfter(rest, p, related);
  }

  /**
   * Step 2 of `moveTouchZoneAndRepositionRelated`: from the end backwards, each related item
   * is spliced out and put in front of those found so far; `p` follows the touchZone at `tp`.
   */
  method ExtractRelated<T>(y: seq<T>, rel: T -> bool, tp: nat) returns (work: seq<T>, related: seq<T>, p: nat)
    requires tp < |y|
    ensures work == Keep(y, rel, false) && related == Keep(y, rel, true) && p == |Keep(y[..tp], rel, false)|
  {
    work, related, p := y, [], tp;
    var k := |y|;
    while k > 0
      invariant 0 <= k <= |y|
      invariant work == y[..k] + Keep(y[k..], rel, false)
      invariant related == Keep(y[k..], rel, true)
      invariant p == if k >= tp then tp else k + |Keep(y[k..tp], rel, false)|
    {
      k := k - 1;
      ExtractStep(y, rel, k, tp);
      ghost var tail := Keep(y[k + 1..], rel, false);
      assert work == y[..k] + [y[k]] + tail;
      assert work[k] == y[k];
      if rel(work[k]) {
        related := [work[k]] + related;
        assert work[..k] == y[..k] && work[k + 1..] == tail;
        work := work[..k] + work[k + 1..];
        if k < p {
          p := p - 1;
        }
      }
    }
    assert y[..0] == [] && y[0..] == y && y[0..tp] == y[..tp];
  }

  /** Step 3 of `moveTouchZoneAndRepositionRelated`: the related items go in one by one after position `p`. */
  method InsertAfter<T>(rest: seq<T>, p: nat, related: seq<T>) returns (work: seq<T>)
    requires p < |rest|
    ensures work == rest[..p + 1] + related + rest[p + 1..]
  {
    work := rest;
    var insertion := p + 1;
    var j := 0;
    while j < |related|
      invariant j <= |related| && insertion == p + 1 + j
      invariant work == rest[..p + 1] + related[..j] + rest[p + 1..]
    {
      assert related[..j + 1] == related[..j] + [related[j]];
      work := work[..insertion] + [related[j]] + work[insertion..];
      insertion := insertion + 1;
      j := j + 1;
    }
    assert related[..j] == related;
  }

  /** The elements of a list of positions. */
  function SetOf(s: seq<nat>): set<nat> {
    set x | x in s
  }

  /** The positions of a row, sorted from the highest down, are strictly descending and cover the row. */
  lemma DescendingRemoval(s: seq<Item>, m: Merged)
    requires WellFormedRow(s, m)
    ensures var d := Sort(Members(m), true);
      (forall a, b :: 0 <= a < b < |d| ==> d[a] > d[b])
      && (forall a :: 0 <= a < |d| ==> d[a] < |s|)
      && SetOf(d) == SetOf(Members(m))
  {
    RowMembersDistinct(s, m);
    SortedCover(Members(m), |s|, true);
    var d := Sort(Members(m), true);
    assert forall a, b :: 0 <= a < b < |d| ==> InOrder(d[a], d[b], true) && d[a] != d[b];
  }

  /** Sorting a list of different positions below `n` gives a strictly ordered list of the same positions. */
  lemma SortedCover(t: seq<nat>, n: nat, desc: bool)
    requires forall a, b :: 0 <= a < b < |t| ==> t[a] != t[b]
    requires forall a :: 0 <= a < |t| ==> t[a] < n
    ensures var d := Sort(t, desc);
      (forall a, b :: 0 <= a < b < |d| ==> InOrder(d[a], d[b], desc) && d[a] != d[b])
      && (forall a :: 0 <= a < |d| ==> d[a] < n)
      && SetOf(d) == SetOf(t)
  {
    var d := Sort(t, desc);
    SortedDistinct(d, t, desc);
    SameElements(d, t);
    forall a | 0 <= a < |d|
      ensures d[a] < n
    {
      assert d[a] in SetOf(t);
    }
  }

  /** Two lists with the same multiset have the same elements. */
  lemma SameElements(d: seq<nat>, t: seq<nat>)
    requires multiset(d) == multiset(t)
    ensures SetOf(d) == SetOf(t)
  {
    forall x | x in d
      ensures x in t
    {
      assert x in multiset(d);
    }
    forall x | x in t
      ensures x in d
    {
      assert x in multiset(t);
    }
  }

  /** The splices of `removeMergedTouchZone`, from the highest position down. */
  method SpliceDescending(items: seq<Item>, toRemove: seq<nat>) returns (r: seq<Item>)
    requires forall a, b :: 0 <= a < b < |toRemove| ==> toRemove[a] > toRemove[b]
    requires forall a :: 0 <= a < |toRemove| ==> toRemove[a] < |items|
    ensures r == RemoveIndices(items, SetOf(toRemove))
  {
    r := items;
    var k := 0;
    RemoveNone(items, {});
    assert (SetOf(toRemove[..0])) == {};
    while k < |toRemove|
      invariant k <= |toRemove|
      invariant r == RemoveIndices(items, SetOf(toRemove[..k]))
    {
      ghost var gone := SetOf(toRemove[..k]);
      var d := toRemove[k];
      RemoveOneMore(items, gone, d);
      assert (SetOf(toRemove[..k + 1])) == gone + {d} by {
        assert toRemove[..k + 1] == toRemove[..k] + [d];
      }
      r := r[..d] + r[d + 1..];
      k := k + 1;
    }
    assert toRemove[..k] == toRemove;
  }

  /** One step of the backwards extraction loop. */
  lemma ExtractStep<T>(y: seq<T>, rel: T -> bool, k: nat, tp: nat)
    requires k < |y| && tp < |y|
    ensures y[..k + 1] == y[..k] + [y[k]]
    ensures Keep(y[k..], rel, true) == (if rel(y[k]) then [y[k]] else []) + Keep(y[k + 1..], rel, true)
    ensures Keep(y[k..], rel, false) == (if rel(y[k]) then [] else [y[k]]) + Keep(y[k + 1..], rel, false)
    ensures k < tp ==> Keep(y[k..tp], rel, false) == (if rel(y[k]) then [] else [y[k]]) + Keep(y[k + 1..tp], rel, false)
  {
    assert y[k..][1..] == y[k + 1..];
    if k < tp {
      assert y[k..tp][1..] == y[k + 1..tp];
    }
  }

  /** The touchZone itself is kept among the others, at the place counted before it. */
  lemma KeepZoneAt<T>(y: seq<T>, rel: T -> bool, tp: nat)
    requires tp < |y| && !rel(y[tp])
    ensures var p := |Keep(y[..tp], rel, false)|;
      p < |Keep(y, rel, false)| && Keep(y, rel, false)[p] == y[tp]
  {
    assert y == y[..tp] + [y[tp]] + y[tp + 1..];
    KeepAppend(y[..tp] + [y[tp]], y[tp + 1..], rel, false);
    KeepAppend(y[..tp], [y[tp]], rel, false);
    assert Keep([y[tp]], rel, false) == [y[tp]];
  }

  /**
   * The items after `moveTouchZoneAndRepositionRelated` moves the touchZone at `zi` to `tp`:
   * the other items in their order, with the touchZone's related items, in their order,
   * right after it.
   */
  function Repositioned(items: seq<Item>, zi: nat, tp: nat): (r: seq<Item>)
    requires zi < |items| && tp < |items| && items[zi].kind == TouchZone
    ensures |r| == |items|
  {
    var cmd := items[zi].cmdName;
    var y := InsertAt(RemoveAt(items, zi), tp, items[zi]);
    var rest := Keep(y, RelatedTo(cmd), false);
    var p := |Keep(y[..tp], RelatedTo(cmd), false)|;
    KeepZoneAt(y, RelatedTo(cmd), tp);
    KeepSplits(y, RelatedTo(cmd));
    assert |multiset(y)| == |Keep(y, RelatedTo(cmd), true)| + |rest|;
    rest[..p + 1] + Keep(y, RelatedTo(cmd), true) + rest[p + 1..]
  }

  /** Moving a touchZone row keeps every item: the result is a permutation. */
  lemma RepositionedPermutes(items: seq<Item>, zi: nat, tp: nat)
    requires zi < |items| && tp < |items| && items[zi].kind == TouchZone
    ensures multiset(Repositioned(items, zi, tp)) == multiset(items)
  {
    var rl := RelatedTo(items[zi].cmdName);
    var y := InsertAt(RemoveAt(items, zi), tp, items[zi]);
    var front, back := RepositionedShape(items, zi, tp);
    KeepSplits(y, rl);
    MiddlePermutes(front, Keep(y, rl, true), back);
    MovePermutes(items, zi, tp);
  }

  /** Putting a piece between two others adds its elements to theirs. */
  lemma MiddlePermutes<T>(a: seq<T>, g: seq<T>, c: seq<T>)
    ensures multiset(a + g + c) == multiset(g) + multiset(a + c)
  {
  }

  /** Taking an item out and putting it back elsewhere is a permutation. */
  lemma MovePermutes<T>(items: seq<T>, zi: nat, tp: nat)
    requires zi < |items| && tp < |items|
    ensures multiset(InsertAt(RemoveAt(items, zi), tp, items[zi])) == multiset(items)
  {
    var x := items[zi];
    var w := RemoveAt(items, zi);
    var a, b := items[..zi], items[zi + 1..];
    assert items == a + [x] + b;
    assert w == a + b;
    var c, d := w[..tp], w[tp..];
    assert w == c + d;
    assert InsertAt(w, tp, x) == c + [x] + d;
    calc {
      multiset(c + [x] + d);
      multiset(c) + multiset{x} + multiset(d);
      multiset(c + d) + multiset{x};
      multiset(a + b) + multiset{x};
      multiset(a) + multiset(b) + multiset{x};
      multiset(a + [x] + b);
    }
  }

  /** The result of `Repositioned` in three pieces: the others up to the touchZone, the group, the other others. */
  lemma RepositionedShape(items: seq<Item>, zi: nat, tp: nat) returns (front: seq<Item>, back: seq<Item>)
    requires zi < |items| && tp < |items| && items[zi].kind == TouchZone
    ensures var rl := RelatedTo(items[zi].cmdName);
      var y := InsertAt(RemoveAt(items, zi), tp, items[zi]);
      Repositioned(items, zi, tp) == front + Keep(y, rl, true) + back
      && Keep(y, rl, false) == front + back
      && |front| == |Keep(y[..tp], rl, false)| + 1 && front[|front| - 1] == items[zi]
  {
    var rl := RelatedTo(items[zi].cmdName);
    var y := InsertAt(RemoveAt(items, zi), tp, items[zi]);
    var rest := Keep(y, rl, false);
    var p := |Keep(y[..tp], rl, false)|;
    KeepZoneAt(y, rl, tp);
    front, back := rest[..p + 1], rest[p + 1..];
    assert rest == front + back;
  }

  /**
   * After moving a touchZone row the touchZone is followed directly by all its related
   * items, in their order in the drawing.
   */
  lemma RepositionedGroupsTogether(items: seq<Item>, zi: nat, tp: nat)
    requires zi < |items| && tp < |items| && items[zi].kind == TouchZone
    ensures var rl := RelatedTo(items[zi].cmdName);
      var r := Repositioned(items, zi, tp);
      var y := InsertAt(RemoveAt(items, zi), tp, items[zi]);
      var rel := Keep(items, rl, true);
      var p := |Keep(y[..tp], rl, false)|;
      p + |rel| < |r| && r[p] == items[zi] && r[p + 1..p + 1 + |rel|] == rel
  {
    var rl := RelatedTo(items[zi].cmdName);
    var front, back := RepositionedShape(items, zi, tp);
    KeepMoved(items, zi, tp, rl);
    var rel := Keep(items, rl, true);
    var r := front + rel + back;
    assert r[..|front|] == front;
    assert r[|front|..|front| + |rel|] == rel;
  }

  /**
   * After moving a touchZone row no related item is anywhere but in the group, and the
   * other items keep their order around it.
   */
  lemma RepositionedKeepsOrder(items: seq<Item>, zi: nat, tp: nat)
    requires zi < |items| && tp < |items| && items[zi].kind == TouchZone
    ensures var rl := RelatedTo(items[zi].cmdName);
      var r := Repositioned(items, zi, tp);
      var y := InsertAt(RemoveAt(items, zi), tp, items[zi]);
      Keep(r, rl, true) == Keep(items, rl, true) && Keep(r, rl, false) == Keep(y, rl, false)
  {
    var rl := RelatedTo(items[zi].cmdName);
    var front, back := RepositionedShape(items, zi, tp);
    KeepMoved(items, zi, tp, rl);
    ShapedKeeps(items, InsertAt(RemoveAt(items, zi), tp, items[zi]), Repositioned(items, zi, tp), front, back, rl);
  }

  /** A list shaped like `Repositioned` keeps the related items of `items` and the others of `y`. */
  lemma ShapedKeeps<T>(items: seq<T>, y: seq<T>, r: seq<T>, front: seq<T>, back: seq<T>, rl: T -> bool)
    requires r == front + Keep(y, rl, true) + back && Keep(y, rl, false) == front + back
    requires Keep(y, rl, true) == Keep(items, rl, true)
    ensures Keep(r, rl, true) == Keep(items, rl, true) && Keep(r, rl, false) == Keep(y, rl, false)
  {
    SplitKeeps(y, front, back, rl);
  }

  /** Putting the related items of `y` between two pieces of its other items keeps both filters. */
  lemma SplitKeeps<T>(y: seq<T>, front: seq<T>, back: seq<T>, rl: T -> bool)
    requires Keep(y, rl, false) == front + back
    ensures Keep(front + Keep(y, rl, true) + back, rl, true) == Keep(y, rl, true)
    ensures Keep(front + Keep(y, rl, true) + back, rl, false) == front + back
  {
    KeepKept(y, rl, true);
    KeepKept(y, rl, false);
    NoneRelatedInParts(front, back, rl);
    KeepOnlyMiddle(front, Keep(y, rl, true), back, rl);
    KeepDropMiddle(front, Keep(y, rl, true), back, rl);
  }

  /** When two pieces together hold nothing related, each holds nothing related and keeps all of itself among the others. */
  lemma NoneRelatedInParts<T>(a: seq<T>, c: seq<T>, rl: T -> bool)
    requires Keep(a + c, rl, true) == []
    ensures Keep(a, rl, true) == [] && Keep(c, rl, true) == []
    ensures Keep(a, rl, false) == a && Keep(c, rl, false) == c
  {
    KeepAppend(a, c, rl, true);
    assert |Keep(a, rl, true)| + |Keep(c, rl, true)| == 0;
    KeepNoneRelated(a, rl);
    KeepNoneRelated(c, rl);
  }

  /** Only the middle piece contributes related items when the outer pieces have none. */
  lemma KeepOnlyMiddle<T>(a: seq<T>, g: seq<T>, c: seq<T>, rl: T -> bool)
    requires Keep(a, rl, true) == [] && Keep(c, rl, true) == [] && Keep(g, rl, true) == g
    ensures Keep(a + g + c, rl, true) == g
  {
    assert Keep(a + g, rl, true) == g by {
      KeepAppend(a, g, rl, true);
      assert [] + g == g;
    }
    KeepAppend(a + g, c, rl, true);
    assert g + [] == g;
  }

  /** A middle piece with no other items drops out of what the others keep. */
  lemma KeepDropMiddle<T>(a: seq<T>, g: seq<T>, c: seq<T>, rl: T -> bool)
    requires Keep(a, rl, false) == a && Keep(c, rl, false) == c && Keep(g, rl, false) == []
    ensures Keep(a + g + c, rl, false) == a + c
  {
    assert Keep(a + g, rl, false) == a by {
      KeepAppend(a, g, rl, false);
      assert a + [] == a;
    }
    KeepAppend(a + g, c, rl, false);
  }

  /** Moving an unrelated item does not change which items are related, nor their order. */
  lemma KeepMoved<T>(items: seq<T>, zi: nat, tp: nat, rel: T -> bool)
    requires zi < |items| && tp < |items| && !rel(items[zi])
    ensures Keep(InsertAt(RemoveAt(items, zi), tp, items[zi]), rel, true) == Keep(items, rel, true)
  {
    var w := RemoveAt(items, zi);
    assert items == items[..zi] + [items[zi]] + items[zi + 1..];
    KeepSkip(items[..zi], items[zi], items[zi + 1..], rel, true);
    assert w == w[..tp] + w[tp..];
    KeepSkip(w[..tp], items[zi], w[tp..], rel, true);
  }

  /** An item of the other kind does not show in what is kept. */
  lemma KeepSkip<T>(a: seq<T>, x: T, b: seq<T>, rel: T -> bool, related: bool)
    requires rel(x) != related
    ensures Keep(a + [x] + b, rel, related) == Keep(a + b, rel, related)
  {
    KeepAppend(a + [x], b, rel, related);
    KeepAppend(a, [x], rel, related);
    KeepAppend(a, b, rel, related);
    assert Keep([x], rel, related) == [];
  }

  /** A list with nothing related keeps all of itself among the others. */
  lemma {:induction false} KeepNoneRelated<T>(s: seq<T>, rel: T -> bool)
    requires Keep(s, rel, true) == []
    ensures Keep(s, rel, false) == s
  {
    if s != [] {
      assert !rel(s[0]);
      KeepNoneRelated(s[1..], rel);
    }
  }

  /** What is kept keeps all of itself and none of the other kind. */
  lemma {:induction false} KeepKept<T>(s: seq<T>, rel: T -> bool, related: bool)
    ensures Keep(Keep(s, rel, related), rel, related) == Keep(s, rel, related)
    ensures Keep(Keep(s, rel, related), rel, !related) == []
  {
    if s != [] {
      KeepKept(s[1..], rel, related);
      var h := if rel(s[0]) == related then [s[0]] else [];
      KeepAppend(h, Keep(s[1..], rel, related), rel, related);
      KeepAppend(h, Keep(s[1..], rel, related), rel, !related);
    }
  }

  // ---------------------------------------------------------------------------------------
  // Removing positions

  /** Removal keeps exactly the items at the positions not removed, in their order. */
  lemma {:induction false} RemoveIndicesKeeps<T>(items: seq<T>, gone: set<nat>)
    ensures forall k :: 0 <= k < |items| && k !in gone ==> items[k] in RemoveIndices(items, gone)
    ensures forall x :: x in RemoveIndices(items, gone) ==> exists k :: 0 <= k < |items| && k !in gone && items[k] == x
    decreases |items|
  {
    if items != [] {
      var n := |items| - 1;
      RemoveIndicesKeeps(items[..n], gone);
      assert forall k :: 0 <= k < n ==> items[..n][k] == items[k];
    }
  }
}
