/**
 * The touchAction editor on the server: where a new touchAction goes in a drawing, how an
 * item is put into the action list of the isolated editing copy, how that copy's touchAction
 * is copied into the full preview and accepted back into the drawing, and the hide/restore
 * commands of the selection preview.
 *
 * The handlers receive the server's two maps and change them in place; here they are methods
 * over a `DrawingServer`, each proved against a function that computes the new maps.
 */
module TouchActionHandler {
  import opened Wrappers
  import opened Seqs
  import opened Text
  import opened DrawingItems
  import opened ServerReorder
  import opened Server

  // ---------------------------------------------------------------------------------------
  // Mode check

  /** `validateTouchActionMode`: a touchActionInput may not be added while editing a touchAction. */
  function ValidateTouchActionMode(mode: string, item: Item): (r: Validation)
    ensures r.Invalid? <==> mode == TouchAction && item.kind == TouchActionInput
  {
    if mode == TouchAction && item.kind == TouchActionInput then
      Invalid("touchActionInput items not allowed in touchAction mode")
    else
      Valid
  }

  // ---------------------------------------------------------------------------------------
  // insertTouchActionItemByCMD

  /** A touchAction or touchActionInput of the group named `name`. */
  predicate IsRelatedTo(it: Item, name: string) {
    IsTouchChild(it) && it.cmdName == name
  }

  /** The position of the last touchZone named `name`. */
  function LastZone(s: seq<Item>, name: string): (r: Option<nat>)
    ensures r.Some? ==> r.value < |s| && IsZoneFor(s[r.value], name)
    ensures r.Some? ==> forall k :: r.value < k < |s| ==> !IsZoneFor(s[k], name)
    ensures r.None? ==> forall k :: 0 <= k < |s| ==> !IsZoneFor(s[k], name)
  {
    if s == [] then None
    else if IsZoneFor(s[|s| - 1], name) then Some(|s| - 1)
    else LastZone(s[..|s| - 1], name)
  }

  /** The position of the last touchAction or touchActionInput named `name`. */
  function LastRelated(s: seq<Item>, name: string): (r: Option<nat>)
    ensures r.Some? ==> r.value < |s| && IsRelatedTo(s[r.value], name)
    ensures r.Some? ==> forall k :: r.value < k < |s| ==> !IsRelatedTo(s[k], name)
    ensures r.None? ==> forall k :: 0 <= k < |s| ==> !IsRelatedTo(s[k], name)
  {
    if s == [] then None
    else if IsRelatedTo(s[|s| - 1], name) then Some(|s| - 1)
    else LastRelated(s[..|s| - 1], name)
  }

  /**
   * Where a touchAction named `name` is inserted: just after the last item of its group
   * (its touchZones, touchActions and touchActionInputs), or at the end when no touchZone
   * has the name.
   */
  function CmdInsertIndex(s: seq<Item>, name: string): (r: nat)
    ensures r <= |s|
    ensures (forall k :: 0 <= k < |s| ==> !IsZoneFor(s[k], name)) ==> r == |s|
    ensures (exists k :: 0 <= k < |s| && IsZoneFor(s[k], name)) ==>
      0 < r && (IsZoneFor(s[r - 1], name) || IsRelatedTo(s[r - 1], name))
    ensures (exists k :: 0 <= k < |s| && IsZoneFor(s[k], name)) ==>
      forall k :: r <= k < |s| ==> !IsZoneFor(s[k], name) && !IsRelatedTo(s[k], name)
  {
    match LastZone(s, name)
    case None => |s|
    case Some(z) =>
      var l := LastRelated(s, name);
      if l.Some? && l.value > z then l.value + 1 else z + 1
  }

  /**
   * `insertTouchActionItemByCMD`: a touchAction with a command name is inserted at
   * `CmdInsertIndex`; anything else is left to the caller.
   */
  method InsertTouchActionItemByCmd(items: seq<Item>, item: Item) returns (r: seq<Item>, inserted: bool)
    ensures inserted <==> item.kind == TouchAction && item.cmdName != ""
    ensures !inserted ==> r == items
    ensures inserted ==> r == InsertAt(items, CmdInsertIndex(items, item.cmdName), item)
  {
    if item.kind != TouchAction || item.cmdName == "" {
      return items, false;
    }
    var zone, related := ScanGroup(items, item.cmdName);
    var at := |items|;
    if zone.Some? {
      at := if related.Some? && related.value > zone.value then related.value + 1 else zone.value + 1;
    }
    r := InsertAt(items, at, item);
    inserted := true;
  }

  /** The scan of `insertTouchActionItemByCMD`: the last touchZone and the last related item of the group. */
  method ScanGroup(items: seq<Item>, name: string) returns (zone: Option<nat>, related: Option<nat>)
    ensures zone == LastZone(items, name) && related == LastRelated(items, name)
  {
    zone, related := None, None;
    var i := 0;
    while i < |items|
      invariant i <= |items|
      invariant zone == LastZone(items[..i], name)
      invariant related == LastRelated(items[..i], name)
    {
      LastOneMore(items, i, name);
      if items[i].cmdName == name {
        if items[i].kind == TouchZone {
          zone := Some(i);
        } else if items[i].kind == TouchActionInput || items[i].kind == TouchAction {
          related := Some(i);
        }
      }
      i := i + 1;
    }
    assert items[..i] == items;
  }

  lemma {:induction false} LastOneMore(items: seq<Item>, i: nat, name: string)
    requires i < |items|
    ensures LastZone(items[..i + 1], name) == if IsZoneFor(items[i], name) then Some(i) else LastZone(items[..i], name)
    ensures LastRelated(items[..i + 1], name) == if IsRelatedTo(items[i], name) then Some(i) else LastRelated(items[..i], name)
  {
    assert items[..i + 1][..i] == items[..i];
  }

  /** The insertion adds the item at its place and moves nothing else out of order. */
  lemma {:induction false} InsertByCmdPlacesItem(items: seq<Item>, item: Item)
    requires item.kind == TouchAction && item.cmdName != ""
    ensures var i := CmdInsertIndex(items, item.cmdName);
      var r := InsertAt(items, i, item);
      r[i] == item && r[..i] + r[i + 1..] == items
  {
    var i := CmdInsertIndex(items, item.cmdName);
    var r := InsertAt(items, i, item);
    assert r[..i] == items[..i];
    assert r[i + 1..] == items[i..];
  }

  // ---------------------------------------------------------------------------------------
  // cleanupEmptyTouchActions

  /** Every item but a touchAction whose action list is missing or empty. */
  predicate KeptByCleanup(it: Item) {
    it.kind != TouchAction || ActionCount(it) > 0
  }

  /** `cleanupEmptyTouchActions`: the items without the touchActions that have no actions. */
  function CleanupEmptyTouchActions(items: seq<Item>): (r: seq<Item>)
    ensures forall x :: x in r <==> x in items && (x.kind != TouchAction || ActionCount(x) > 0)
  {
    Filter(items, KeptByCleanup)
  }

  /** The cleanup keeps the remaining items in their order, and a second cleanup changes nothing. */
  lemma {:induction false} CleanupKeepsOrder(items: seq<Item>)
    ensures Subsequence(CleanupEmptyTouchActions(items), items)
    ensures CleanupEmptyTouchActions(CleanupEmptyTouchActions(items)) == CleanupEmptyTouchActions(items)
  {
    FilterIsSubsequence(items, KeptByCleanup);
    FilterIdempotent(items, KeptByCleanup);
  }

  // ---------------------------------------------------------------------------------------
  // addTempItemToTouchAction

  predicate IsActionNamed(it: Item, name: string) {
    it.kind == TouchAction && it.cmdName == name
  }

  /** The position of the first touchAction named `name`. */
  function FirstActionNamed(s: seq<Item>, name: string): (r: Option<nat>)
    ensures r.Some? ==> r.value < |s| && IsActionNamed(s[r.value], name)
    ensures r.Some? ==> forall k :: 0 <= k < r.value ==> !IsActionNamed(s[k], name)
    ensures r.None? ==> forall k :: 0 <= k < |s| ==> !IsActionNamed(s[k], name)
  {
    if s == [] then None
    else if IsActionNamed(s[0], name) then Some(0)
    else
      match FirstActionNamed(s[1..], name)
      case None => None
      case Some(i) => Some(i + 1)
  }

  /** The search loop for a touchAction by command name. */
  method FindActionNamed(s: seq<Item>, name: string) returns (r: Option<nat>)
    ensures r == FirstActionNamed(s, name)
  {
    var i := 0;
    while i < |s|
      invariant i <= |s|
      invariant forall k :: 0 <= k < i ==> !IsActionNamed(s[k], name)
    {
      if s[i].kind == TouchAction && s[i].cmdName == name {
        return Some(i);
      }
      i := i + 1;
    }
    return None;
  }

  /** A touchAction's action list, with a missing one read as empty. */
  function ActionsOf(it: Item): seq<Item> {
    it.action.GetOr([])
  }

  /** The new items and edit index of the editing copy, and whether the item was placed. */
  datatype TempItemEdit = TempItemEdit(items: seq<Item>, editIndex: Option<int>, placed: bool)

  /**
   * `addTempItemToTouchAction` on the editing copy's items: the first touchAction named
   * `cmdName` gets a (possibly empty) action list; a non-negative edit index then replaces
   * that action entry if it exists, and otherwise the item is appended and the edit index
   * moved to it.
   */
  function AddTempItem(items: seq<Item>, item: Item, cmdName: string, editIndex: Option<int>): (r: TempItemEdit)
    ensures |r.items| == |items|
    ensures forall k :: 0 <= k < |items| && Some(k) != FirstActionNamed(items, cmdName) ==> r.items[k] == items[k]
  {
    match FirstActionNamed(items, cmdName)
    case None => TempItemEdit(items, editIndex, false)
    case Some(i) =>
      var actions := ActionsOf(items[i]);
      var target := items[i].(action := Some(actions));
      if editIndex.Some? && editIndex.value >= 0 then
        if editIndex.value < |actions| then
          TempItemEdit(items[i := target.(action := Some(actions[editIndex.value := item]))], editIndex, true)
        else
          TempItemEdit(items[i := target], editIndex, false)
      else
        TempItemEdit(items[i := target.(action := Some(actions + [item]))], Some(|actions|), true)
  }

  /**
   * The four outcomes: no touchAction of that name changes nothing; an edit index inside
   * the action list replaces exactly that entry; one past its end places nothing and changes
   * no action list; without an edit index the item is appended and the edit index then
   * points at it.
   */
  lemma {:induction false} AddTempItemOutcomes(items: seq<Item>, item: Item, cmdName: string, editIndex: Option<int>)
    ensures FirstActionNamed(items, cmdName).None? ==> AddTempItem(items, item, cmdName, editIndex) == TempItemEdit(items, editIndex, false)
    ensures FirstActionNamed(items, cmdName).Some? ==>
      var i := FirstActionNamed(items, cmdName).value;
      var r := AddTempItem(items, item, cmdName, editIndex);
      var before, after := ActionsOf(items[i]), ActionsOf(r.items[i]);
      r.items[i] == items[i].(action := Some(after))
      && (editIndex.Some? && 0 <= editIndex.value < |before| ==>
            r.placed && r.editIndex == editIndex && |after| == |before| && after[editIndex.value] == item
            && forall j :: 0 <= j < |before| && j != editIndex.value ==> after[j] == before[j])
      && (editIndex.Some? && editIndex.value >= |before| ==>
            !r.placed && r.editIndex == editIndex && after == before)
      && (editIndex.None? || editIndex.value < 0 ==>
            r.placed && after[..|before|] == before && r.editIndex == Some(|after| - 1) && after[|after| - 1] == item)
  {
    match FirstActionNamed(items, cmdName)
    case None =>
    case Some(i) =>
      var before := ActionsOf(items[i]);
      var r := AddTempItem(items, item, cmdName, editIndex);
      if editIndex.None? || editIndex.value < 0 {
        assert ActionsOf(r.items[i]) == before + [item];
      }
  }

  /**
   * `addTempItemToTouchAction` on the server: the editing copy's items and edit index
   * become those of `AddTempItem`, and a placed item becomes the copy's preview item and the
   * answer; otherwise the answer is null.
   */
  method AddTempItemToTouchAction(server: DrawingServer, tempName: string, item: Item, cmdName: string)
    returns (r: Option<Item>)
    requires tempName in server.tempEditDrawings
    modifies server
    ensures var entry := old(server.tempEditDrawings)[tempName];
      var e := AddTempItem(entry.data.items, item, cmdName, entry.editIndex);
      server.tempEditDrawings == old(server.tempEditDrawings)[tempName := entry.(
        data := entry.data.(items := e.items),
        editIndex := e.editIndex,
        tempPreviewItem := if e.placed then Some(item) else entry.tempPreviewItem)]
      && r == (if e.placed then Some(item) else None)
    ensures server.drawings == old(server.drawings)
    ensures server.allocatedIdx == old(server.allocatedIdx) && server.allocatedCmdIdx == old(server.allocatedCmdIdx)
  {
    var entry := server.tempEditDrawings[tempName];
    var items := entry.data.items;
    ghost var e := AddTempItem(items, item, cmdName, entry.editIndex);
    var found := FindActionNamed(items, cmdName);
    if found.None? {
      assert entry.(data := entry.data.(items := items), editIndex := entry.editIndex,
        tempPreviewItem := entry.tempPreviewItem) == entry;
      return None;
    }
    var i := found.value;
    var actions := ActionsOf(items[i]);
    var target := items[i].(action := Some(actions));
    var editIndex := entry.editIndex;
    var placed := true;
    if editIndex.Some? && editIndex.value >= 0 {
      if editIndex.value < |actions| {
        items := items[i := target.(action := Some(actions[editIndex.value := item]))];
      } else {
        items := items[i := target];
        placed := false;
      }
    } else {
      items := items[i := target.(action := Some(actions + [item]))];
      editIndex := Some(|actions|);
    }
    assert e == TempItemEdit(items, editIndex, placed);
    server.tempEditDrawings := server.tempEditDrawings[tempName := entry.(
      data := entry.data.(items := items), editIndex := editIndex,
      tempPreviewItem := if placed then Some(item) else entry.tempPreviewItem)];
    r := if placed then Some(item) else None;
  }

  // ---------------------------------------------------------------------------------------
  // syncTouchActionToPreview, and the placement shared with accepting a new touchAction

  /** The position of the first touchAction. */
  function FirstAction(s: seq<Item>): (r: Option<nat>)
    ensures r.Some? ==> r.value < |s| && s[r.value].kind == TouchAction
    ensures r.Some? ==> forall k :: 0 <= k < r.value ==> s[k].kind != TouchAction
    ensures r.None? ==> forall k :: 0 <= k < |s| ==> s[k].kind != TouchAction
  {
    if s == [] then None
    else if s[0].kind == TouchAction then Some(0)
    else
      match FirstAction(s[1..])
      case None => None
      case Some(i) => Some(i + 1)
  }

  /** From `j` on, the first position whose item is not named `name`. */
  function RunEnd(s: seq<Item>, name: string, j: nat): (r: nat)
    requires j <= |s|
    ensures j <= r <= |s|
    ensures forall k :: j <= k < r ==> s[k].cmdName == name
    ensures r == |s| || s[r].cmdName != name
    decreases |s| - j
  {
    if j < |s| && s[j].cmdName == name then RunEnd(s, name, j + 1) else j
  }

  /**
   * Where a new touchAction named `name` goes when it is synchronised or accepted: after the
   * run of same-named items that follows the first touchZone of that name, or at the end.
   */
  function AfterZoneRun(s: seq<Item>, name: string): (r: nat)
    ensures r <= |s|
    ensures FirstZone(s, name).None? ==> r == |s|
    ensures FirstZone(s, name).Some? ==>
      (FirstZone(s, name).value < r
      && (forall k :: FirstZone(s, name).value < k < r ==> s[k].cmdName == name)
      && (r == |s| || s[r].cmdName != name))
  {
    match FirstZone(s, name)
    case None => |s|
    case Some(z) => RunEnd(s, name, z + 1)
  }

  /** The search loops of the insert position, an outer one for the touchZone and an inner one for the run. */
  method FindAfterZoneRun(s: seq<Item>, name: string) returns (r: nat)
    ensures r == AfterZoneRun(s, name)
  {
    r := |s|;
    var i := 0;
    while i < |s|
      invariant i <= |s|
      invariant forall k :: 0 <= k < i ==> !IsZoneFor(s[k], name)
    {
      if s[i].kind == TouchZone && s[i].cmdName == name {
        var last := i;
        var j := i + 1;
        while j < |s|
          invariant i + 1 <= j <= |s| && last == j - 1
          invariant RunEnd(s, name, j) == RunEnd(s, name, i + 1)
        {
          if s[j].cmdName == name {
            last := j;
          } else {
            break;
          }
          j := j + 1;
        }
        return last + 1;
      }
      i := i + 1;
    }
  }

  /**
   * The preview items after synchronising touchAction `ta`: it replaces the first touchAction
   * with its name, or is inserted at `AfterZoneRun` when there is none.
   */
  function SyncedPreview(preview: seq<Item>, ta: Item): (r: seq<Item>)
    ensures |r| == |preview| || |r| == |preview| + 1
  {
    match FirstActionNamed(preview, ta.cmdName)
    case Some(p) => preview[p := ta]
    case None => InsertAt(preview, AfterZoneRun(preview, ta.cmdName), ta)
  }

  /** After a sync the preview's touchAction of that name is `ta`, and syncing again changes nothing. */
  lemma {:induction false} SyncedPreviewHoldsAction(preview: seq<Item>, ta: Item)
    requires ta.kind == TouchAction
    ensures var r := SyncedPreview(preview, ta);
      FirstActionNamed(r, ta.cmdName).Some? && r[FirstActionNamed(r, ta.cmdName).value] == ta
    ensures SyncedPreview(SyncedPreview(preview, ta), ta) == SyncedPreview(preview, ta)
  {
    var r := SyncedPreview(preview, ta);
    match FirstActionNamed(preview, ta.cmdName)
    case Some(p) =>
      assert r[p] == ta;
      assert forall k :: 0 <= k < p ==> r[k] == preview[k];
    case None =>
      var i := AfterZoneRun(preview, ta.cmdName);
      InsertAtIndex(preview, i, ta);
      assert r[i] == ta;
      assert forall k :: 0 <= k < i ==> !IsActionNamed(r[k], ta.cmdName);
    var f := FirstActionNamed(r, ta.cmdName).value;
    assert r[f := ta] == r;
  }

  /**
   * `syncTouchActionToPreview(tempName)`: the first touchAction of the editing copy is
   * synchronised into `<tempName>_preview`, which gets a new version. False, with nothing
   * changed, when either drawing or the touchAction is missing.
   */
  method SyncTouchActionToPreview(server: DrawingServer, tempName: string, now: nat) returns (ok: bool)
    modifies server
    ensures var previewName := tempName + "_preview";
      ok == (tempName in old(server.tempEditDrawings) && previewName in old(server.tempEditDrawings)
        && FirstAction(old(server.tempEditDrawings)[tempName].data.items).Some?)
    ensures !ok ==> server.tempEditDrawings == old(server.tempEditDrawings)
    ensures ok ==>
      var previewName := tempName + "_preview";
      var edit := old(server.tempEditDrawings)[tempName].data.items;
      var pe := old(server.tempEditDrawings)[previewName];
      server.tempEditDrawings == old(server.tempEditDrawings)[previewName := pe.(data := pe.data.(
        items := SyncedPreview(pe.data.items, edit[FirstAction(edit).value]),
        version := "V" + NatToString(now)))]
    ensures server.drawings == old(server.drawings)
    ensures server.allocatedIdx == old(server.allocatedIdx) && server.allocatedCmdIdx == old(server.allocatedCmdIdx)
  {
    var previewName := tempName + "_preview";
    if tempName !in server.tempEditDrawings || previewName !in server.tempEditDrawings {
      return false;
    }
    var edit := server.tempEditDrawings[tempName].data.items;
    var pe := server.tempEditDrawings[previewName];
    var isolated := FirstAction(edit);
    if isolated.None? {
      return false;
    }
    var ta := edit[isolated.value];
    var items := pe.data.items;
    var p := FindActionNamed(items, ta.cmdName);
    if p.Some? {
      items := items[p.value := ta];
    } else {
      var at := FindAfterZoneRun(items, ta.cmdName);
      items := InsertAt(items, at, ta);
    }
    server.tempEditDrawings := server.tempEditDrawings[previewName := pe.(data := pe.data.(
      items := items, version := "V" + NatToString(now)))];
    ok := true;
  }

  // ---------------------------------------------------------------------------------------
  // acceptTouchActionChanges

  /** What accepting the edited touchAction does to the drawing's items. */
  datatype AcceptOutcome = DropNew | Apply(items: seq<Item>) | IndexGone

  /**
   * The item rules of `acceptTouchActionChanges`, for the edited touchAction `edited` and
   * the position `index` recorded when the editing copy was made (-1 for a new touchAction).
   */
  function AcceptedItems(items: seq<Item>, edited: Item, index: Option<int>): AcceptOutcome {
    var hasActions := ActionCount(edited) > 0;
    var clean := edited.(isTemporary := false);
    if !hasActions && index == Some(-1) then DropNew
    else if index.Some? && index.value >= 0 then
      var i := index.value;
      if !hasActions then Apply(if i < |items| then items[..i] + items[i + 1..] else items)
      else if i < |items| && items[i].kind == TouchAction then Apply(items[i := clean])
      else IndexGone
    else
      Apply(InsertAt(items, AfterZoneRun(items, edited.cmdName), clean))
  }

  /**
   * With the positions the editing copy records (-1 or an index), a touchAction left without
   * actions never ends up in the drawing: a new one is dropped and an existing one removed.
   */
  lemma {:induction false} AcceptEmptyRules(items: seq<Item>, edited: Item, index: Option<int>)
    requires ActionCount(edited) == 0 && index.Some? && index.value >= -1
    ensures index.value == -1 ==> AcceptedItems(items, edited, index) == DropNew
    ensures 0 <= index.value < |items| ==>
      var r := AcceptedItems(items, edited, index);
      var i := index.value;
      r.Apply? && |r.items| == |items| - 1
      && (forall k :: 0 <= k < i ==> r.items[k] == items[k])
      && (forall k :: i <= k < |r.items| ==> r.items[k] == items[k + 1])
    ensures index.value >= |items| ==> AcceptedItems(items, edited, index) == Apply(items)
  {
  }

  /**
   * A touchAction with actions is stored unmarked: in place of the touchAction at its
   * recorded index, or inserted as a new one; a recorded index that no longer holds a
   * touchAction is refused.
   */
  lemma {:induction false} AcceptStoresEdited(items: seq<Item>, edited: Item, index: Option<int>)
    requires ActionCount(edited) > 0
    ensures var r := AcceptedItems(items, edited, index);
      var clean := edited.(isTemporary := false);
      (r.Apply? ==> clean in r.items && !clean.isTemporary)
      && (index.Some? && 0 <= index.value < |items| && items[index.value].kind == TouchAction ==>
            r == Apply(items[index.value := clean]))
      && (index.Some? && index.value >= 0 && !(index.value < |items| && items[index.value].kind == TouchAction) ==>
            r == IndexGone)
      && ((index.None? || index.value < 0) ==>
            r.Apply? && |r.items| == |items| + 1 && r.items[AfterZoneRun(items, edited.cmdName)] == clean)
  {
    var clean := edited.(isTemporary := false);
    if index.None? || index.value < 0 {
      InsertAtIndex(items, AfterZoneRun(items, edited.cmdName), clean);
    } else if index.value < |items| && items[index.value].kind == TouchAction {
      assert items[index.value := clean][index.value] == clean;
    }
  }

  /**
   * `acceptTouchActionChanges` on the server's maps: the reply and the new drawing and
   * temporary-copy maps. Only an editing copy named `..._touchAction_edit` that records its
   * original touchAction is accepted; success deletes the copy.
   */
  function Accept(drawings: map<string, Drawing>, temps: map<string, TempEntry>, tempName: string, now: nat)
    : (r: (Response, map<string, Drawing>, map<string, TempEntry>))
    ensures r.0.Failure? ==> r.1 == drawings && r.2 == temps
    ensures r.0.Success? ==> tempName in temps && r.2 == temps - {tempName} && r.1.Keys == drawings.Keys
    ensures r.0.Success? ==> forall name :: name in drawings && name != temps[tempName].originalName ==> r.1[name] == drawings[name]
  {
    if tempName !in temps then (Failure(404), drawings, temps)
    else
      var entry := temps[tempName];
      var original := entry.originalName;
      if original !in drawings then (Failure(404), drawings, temps)
      else if !Includes(tempName, "_touchAction_edit") || entry.originalCmdName.None? then (Failure(400), drawings, temps)
      else
        match FirstActionNamed(entry.data.items, entry.originalCmdName.value)
        case None => (Failure(500), drawings, temps)
        case Some(e) =>
          match AcceptedItems(drawings[original].items, entry.data.items[e], entry.originalTouchActionIndex)
          case DropNew => (Success, drawings, temps - {tempName})
          case IndexGone => (Failure(500), drawings, temps)
          case Apply(items) =>
            (Success, drawings[original := drawings[original].(items := items, version := "V" + NatToString(now))],
             temps - {tempName})
  }

  /** `acceptTouchActionChanges` on the server: the maps become those of `Accept`. */
  method AcceptTouchActionChanges(server: DrawingServer, tempName: string, now: nat) returns (reply: Response)
    modifies server
    ensures (reply, server.drawings, server.tempEditDrawings)
      == Accept(old(server.drawings), old(server.tempEditDrawings), tempName, now)
    ensures server.allocatedIdx == old(server.allocatedIdx) && server.allocatedCmdIdx == old(server.allocatedCmdIdx)
  {
    if tempName !in server.tempEditDrawings {
      return Failure(404);
    }
    var entry := server.tempEditDrawings[tempName];
    var original := entry.originalName;
    if original !in server.drawings {
      return Failure(404);
    }
    if !Includes(tempName, "_touchAction_edit") || entry.originalCmdName.None? {
      return Failure(400);
    }
    var e := FindActionNamed(entry.data.items, entry.originalCmdName.value);
    if e.None? {
      return Failure(500);
    }
    var edited := entry.data.items[e.value];
    var outcome := AcceptItems(server.drawings[original].items, edited, entry.originalTouchActionIndex);
    match outcome {
      case DropNew =>
        server.tempEditDrawings := server.tempEditDrawings - {tempName};
        reply := Success;
      case IndexGone =>
        reply := Failure(500);
      case Apply(items) =>
        server.drawings := server.drawings[original := server.drawings[original].(
          items := items, version := "V" + NatToString(now))];
        server.tempEditDrawings := server.tempEditDrawings - {tempName};
        reply := Success;
    }
  }

  /** The item steps of `acceptTouchActionChanges`: drop, remove, replace or insert. */
  method AcceptItems(items0: seq<Item>, edited: Item, index: Option<int>) returns (outcome: AcceptOutcome)
    ensures outcome == AcceptedItems(items0, edited, index)
  {
    var items := items0;
    var hasActions := ActionCount(edited) > 0;
    if !hasActions && index == Some(-1) {
      return DropNew;
    }
    var clean := edited.(isTemporary := false);
    if index.Some? && index.value >= 0 {
      var i := index.value;
      if !hasActions {
        if i < |items| {
          items := items[..i] + items[i + 1..];
        }
      } else if i < |items| && items[i].kind == TouchAction {
        items := items[i := clean];
      } else {
        return IndexGone;
      }
    } else {
      var at := FindAfterZoneRun(items, edited.cmdName);
      items := InsertAt(items, at, clean);
    }
    outcome := Apply(items);
  }

  // ---------------------------------------------------------------------------------------
  // Selection preview: hideItemInPreview / restorePreview

  predicate IsHideOrUnhide(it: Item) {
    it.kind == Hide || it.kind == Unhide
  }

  predicate NotHideOrUnhide(it: Item) {
    !IsHideOrUnhide(it)
  }

  /** The `{ type: 'hide', idx }` item. */
  function HideCommand(idx: int): Item {
    NewItem(Hide).(idx := Some(idx))
  }

  lemma {:induction false} NoHideOrUnhideLeft(items: seq<Item>)
    ensures Filter(Filter(items, NotHideOrUnhide), IsHideOrUnhide) == []
  {
    FilterNone(Filter(items, NotHideOrUnhide), IsHideOrUnhide);
  }

  /** The preview items restored: every hide and unhide command removed. */
  function Unhidden(items: seq<Item>): (r: seq<Item>)
    ensures forall x :: x in r ==> x in items && !IsHideOrUnhide(x)
    ensures forall x :: x in items && !IsHideOrUnhide(x) ==> x in r
  {
    Filter(items, NotHideOrUnhide)
  }

  /**
   * The preview items with item `idx` hidden: the one hide command left is the new one, and
   * the other items are those of the preview in their order.
   */
  function WithHidden(items: seq<Item>, idx: int): (r: seq<Item>)
    ensures Filter(r, IsHideOrUnhide) == [HideCommand(idx)]
    ensures Unhidden(r) == Unhidden(items)
  {
    var kept := Filter(items, NotHideOrUnhide);
    FilterAppend(kept, [HideCommand(idx)], IsHideOrUnhide);
    FilterAppend(kept, [HideCommand(idx)], NotHideOrUnhide);
    NoHideOrUnhideLeft(items);
    FilterIdempotent(items, NotHideOrUnhide);
    assert Filter([HideCommand(idx)], IsHideOrUnhide) == [HideCommand(idx)] by {
      assert [HideCommand(idx)][1..] == [];
    }
    assert Filter([HideCommand(idx)], NotHideOrUnhide) == [] by {
      assert [HideCommand(idx)][1..] == [];
    }
    kept + [HideCommand(idx)]
  }

  /** Restoring after hiding gives the restored preview of before the hide. */
  lemma {:induction false} RestoreUndoesHide(items: seq<Item>, idx: int)
    ensures Unhidden(WithHidden(items, idx)) == Unhidden(items)
    ensures Unhidden(Unhidden(items)) == Unhidden(items)
  {
    FilterIdempotent(items, NotHideOrUnhide);
  }

  /**
   * `hideItemInPreview` of the touchAction editor: `<drawingName>_selection_preview` gets
   * `WithHidden`, a new version and the update-only mark.
   */
  method HideItemInSelectionPreview(server: DrawingServer, drawingName: string, idx: Option<int>, now: nat)
    returns (reply: Response)
    modifies server
    ensures var name := drawingName + "_selection_preview";
      reply == (if drawingName !in old(server.drawings) then Failure(404)
        else if idx.None? then Failure(400)
        else if name !in old(server.tempEditDrawings) then Failure(404)
        else Success)
      && (reply.Failure? ==> server.tempEditDrawings == old(server.tempEditDrawings))
      && (reply.Success? ==>
        var pe := old(server.tempEditDrawings)[name];
        server.tempEditDrawings == old(server.tempEditDrawings)[name := pe.(
          data := pe.data.(items := WithHidden(pe.data.items, idx.value), version := "V" + NatToString(now)),
          isUpdateOnly := true)])
    ensures server.drawings == old(server.drawings)
    ensures server.allocatedIdx == old(server.allocatedIdx) && server.allocatedCmdIdx == old(server.allocatedCmdIdx)
  {
    if drawingName !in server.drawings {
      return Failure(404);
    }
    if idx.None? {
      return Failure(400);
    }
    var name := drawingName + "_selection_preview";
    if name !in server.tempEditDrawings {
      return Failure(404);
    }
    var pe := server.tempEditDrawings[name];
    var items := Filter(pe.data.items, NotHideOrUnhide) + [HideCommand(idx.value)];
    server.tempEditDrawings := server.tempEditDrawings[name := pe.(
      data := pe.data.(items := items, version := "V" + NatToString(now)), isUpdateOnly := true)];
    reply := Success;
  }

  /**
   * `restorePreview` of the touchAction editor: `<drawingName>_selection_preview` gets
   * `Unhidden`, a new version and the update-only mark.
   */
  method RestoreSelectionPreview(server: DrawingServer, drawingName: string, now: nat) returns (reply: Response)
    modifies server
    ensures var name := drawingName + "_selection_preview";
      reply == (if name in old(server.tempEditDrawings) then Success else Failure(404))
      && (reply.Failure? ==> server.tempEditDrawings == old(server.tempEditDrawings))
      && (reply.Success? ==>
        var pe := old(server.tempEditDrawings)[name];
        server.tempEditDrawings == old(server.tempEditDrawings)[name := pe.(
          data := pe.data.(items := Unhidden(pe.data.items), version := "V" + NatToString(now)),
          isUpdateOnly := true)])
    ensures server.drawings == old(server.drawings)
    ensures server.allocatedIdx == old(server.allocatedIdx) && server.allocatedCmdIdx == old(server.allocatedCmdIdx)
  {
    var name := drawingName + "_selection_preview";
    if name !in server.tempEditDrawings {
      return Failure(404);
    }
    var pe := server.tempEditDrawings[name];
    server.tempEditDrawings := server.tempEditDrawings[name := pe.(
      data := pe.data.(items := Unhidden(pe.data.items), version := "V" + NatToString(now)), isUpdateOnly := true)];
    reply := Success;
  }
}
