/**
 * The touchActionInput editor on the server: the mode check, where a new touchActionInput
 * goes in a drawing, and the editing copy it works on (created once per drawing, accepted
 * back as a whole drawing, or discarded).
 */
module TouchActionInputHandler {
  import opened Wrappers
  import opened Seqs
  import opened Text
  import opened DrawingItems
  import opened ServerReorder
  import opened Server
  import opened TouchActionHandler

  // ---------------------------------------------------------------------------------------
  // Mode check

  /** `validateTouchActionInputMode`: a touchAction may not be added while editing a touchActionInput. */
  function ValidateTouchActionInputMode(mode: string, item: Item): (r: Validation)
    ensures r.Invalid? <==> mode == TouchActionInput && item.kind == TouchAction
  {
    if mode == TouchActionInput && item.kind == TouchAction then
      Invalid("touchAction items not allowed in touchActionInput mode")
    else
      Valid
  }

  /**
   * The server applies both checks to every temporary update. No item is refused by both,
   * each editor refuses only the kind the other one edits, and outside the two editor modes
   * nothing is refused.
   */
  lemma ModeChecksPartition(mode: string, item: Item)
    ensures !(ValidateTouchActionMode(mode, item).Invalid? && ValidateTouchActionInputMode(mode, item).Invalid?)
    ensures mode != TouchAction && mode != TouchActionInput ==>
      ValidateTouchActionMode(mode, item) == Valid && ValidateTouchActionInputMode(mode, item) == Valid
    ensures !IsTouchChild(item) ==>
      ValidateTouchActionMode(mode, item) == Valid && ValidateTouchActionInputMode(mode, item) == Valid
  {
  }

  // ---------------------------------------------------------------------------------------
  // insertTouchActionInputByCMD

  /** A touchZone whose `cmd` is `cmd`. */
  predicate IsZoneWithCmd(it: Item, cmd: string) {
    it.kind == TouchZone && it.cmd == cmd
  }

  /** The position of the first touchZone whose `cmd` is `cmd`. */
  function FirstZoneWithCmd(s: seq<Item>, cmd: string): (r: Option<nat>)
    ensures r.Some? ==> r.value < |s| && IsZoneWithCmd(s[r.value], cmd)
    ensures r.Some? ==> forall k :: 0 <= k < r.value ==> !IsZoneWithCmd(s[k], cmd)
    ensures r.None? ==> forall k :: 0 <= k < |s| ==> !IsZoneWithCmd(s[k], cmd)
  {
    if s == [] then None
    else if IsZoneWithCmd(s[0], cmd) then Some(0)
    else
      match FirstZoneWithCmd(s[1..], cmd)
      case None => None
      case Some(i) => Some(i + 1)
  }

  /**
   * Where a touchActionInput with command `cmd` is inserted: directly after the first
   * touchZone with that command, or at the end when there is none.
   */
  function InputInsertIndex(s: seq<Item>, cmd: string): (r: nat)
    ensures r <= |s|
    ensures (forall k :: 0 <= k < |s| ==> !IsZoneWithCmd(s[k], cmd)) ==> r == |s|
    ensures (exists k :: 0 <= k < |s| && IsZoneWithCmd(s[k], cmd)) ==>
      0 < r && IsZoneWithCmd(s[r - 1], cmd) && forall k :: 0 <= k < r - 1 ==> !IsZoneWithCmd(s[k], cmd)
  {
    match FirstZoneWithCmd(s, cmd)
    case None => |s|
    case Some(z) => z + 1
  }

  /**
   * `insertTouchActionInputByCMD`: a touchActionInput with a command is spliced in after
   * its touchZone and `inserted` is true; any other item leaves the list alone.
   */
  method InsertTouchActionInputByCmd(items: seq<Item>, item: Item) returns (r: seq<Item>, inserted: bool)
    ensures inserted <==> item.kind == TouchActionInput && item.cmd != ""
    ensures !inserted ==> r == items
    ensures inserted ==> r == InsertAt(items, InputInsertIndex(items, item.cmd), item)
  {
    if item.kind != TouchActionInput || item.cmd == "" {
      return items, false;
    }
    var zone := -1;
    var i := 0;
    while i < |items|
      invariant 0 <= i <= |items|
      invariant zone == -1 ==> forall k :: 0 <= k < i ==> !IsZoneWithCmd(items[k], item.cmd)
      invariant zone != -1 ==> 0 <= zone && FirstZoneWithCmd(items, item.cmd) == Some(zone)
    {
      if items[i].kind == TouchZone && items[i].cmd == item.cmd {
        zone := i;
        break;
      }
      i := i + 1;
    }
    var at := if zone >= 0 then zone + 1 else |items|;
    r := items[..at] + [item] + items[at..];
    inserted := true;
  }

  /**
   * The inserted touchActionInput sits at `InputInsertIndex`, right after its touchZone when
   * there is one, and the other items keep their order.
   */
  lemma {:induction false} InsertByInputPlacesItem(items: seq<Item>, item: Item)
    requires item.kind == TouchActionInput && item.cmd != ""
    ensures var i := InputInsertIndex(items, item.cmd);
      var r := InsertAt(items, i, item);
      r[i] == item && r[..i] + r[i + 1..] == items
      && (FirstZoneWithCmd(items, item.cmd).Some? ==> 0 < i && IsZoneWithCmd(r[i - 1], item.cmd))
      && (FirstZoneWithCmd(items, item.cmd).None? ==> i == |items|)
  {
    var i := InputInsertIndex(items, item.cmd);
    var r := InsertAt(items, i, item);
    assert r[..i] == items[..i];
    assert r[i + 1..] == items[i..];
    if FirstZoneWithCmd(items, item.cmd).Some? {
      assert r[i - 1] == items[i - 1];
    }
  }

  /**
   * Adding an item to a drawing: a named touchAction goes after its group, a touchActionInput
   * with a command after its touchZone, and every other item to the end.
   */
  method AddItemToList(items: seq<Item>, item: Item) returns (r: seq<Item>)
    ensures |r| == |items| + 1
    ensures exists i :: 0 <= i < |r| && r[i] == item && r[..i] + r[i + 1..] == items
    ensures !(item.kind == TouchAction && item.cmdName != "") && !(item.kind == TouchActionInput && item.cmd != "") ==>
      r == items + [item]
  {
    var byName, inserted := InsertTouchActionItemByCmd(items, item);
    if inserted {
      InsertByCmdPlacesItem(items, item);
      return byName;
    }
    var byCmd, placed := InsertTouchActionInputByCmd(items, item);
    if placed {
      InsertByInputPlacesItem(items, item);
      return byCmd;
    }
    r := items + [item];
    assert r[..|items|] + r[|items| + 1..] == items;
  }

  // ---------------------------------------------------------------------------------------
  // The editing copy

  /** The name of a drawing's touchActionInput editing copy. */
  function InputTempName(drawingName: string): string {
    drawingName + "_touchActionInput_edit"
  }

  /**
   * `createTouchActionInputTempCopy` on the server's temporary-copy map: refused with 404
   * for an unknown drawing, a copy that already exists is reused unchanged, otherwise a
   * fresh copy of the drawing is stored under `InputTempName`.
   */
  function CreateInputCopy(drawings: map<string, Drawing>, temps: map<string, TempEntry>, drawingName: string,
                           mode: string, editIndex: Option<int>): (r: (Response, map<string, TempEntry>))
    ensures r.0 == (if drawingName in drawings then Success else Failure(404))
    ensures r.0.Success? ==> InputTempName(drawingName) in r.1 && r.1.Keys == temps.Keys + {InputTempName(drawingName)}
    ensures r.0.Success? && InputTempName(drawingName) !in temps ==>
      r.1[InputTempName(drawingName)].data == drawings[drawingName]
      && r.1[InputTempName(drawingName)].originalName == drawingName
    ensures forall name :: name in temps ==> name in r.1 && r.1[name] == temps[name]
  {
    if drawingName !in drawings then (Failure(404), temps)
    else
      var tempName := InputTempName(drawingName);
      if tempName in temps then (Success, temps)
      else (Success, temps[tempName := TempEntry(drawings[drawingName], drawingName, None, mode, editIndex, false, None, None)])
  }

  /** Asking for the editing copy a second time changes nothing: the first copy is kept. */
  lemma CreateInputCopyIdempotent(drawings: map<string, Drawing>, temps: map<string, TempEntry>, drawingName: string,
                                  mode: string, editIndex: Option<int>, mode2: string, editIndex2: Option<int>)
    ensures var (_, once) := CreateInputCopy(drawings, temps, drawingName, mode, editIndex);
      CreateInputCopy(drawings, once, drawingName, mode2, editIndex2) == CreateInputCopy(drawings, temps, drawingName, mode, editIndex)
  {
  }

  /** `createTouchActionInputTempCopy` on the server: the copies become those of `CreateInputCopy`. */
  method CreateTouchActionInputTempCopy(server: DrawingServer, drawingName: string, mode: string, editIndex: Option<int>)
    returns (reply: Response)
    modifies server
    ensures (reply, server.tempEditDrawings)
      == CreateInputCopy(old(server.drawings), old(server.tempEditDrawings), drawingName, mode, editIndex)
    ensures server.drawings == old(server.drawings)
    ensures server.allocatedIdx == old(server.allocatedIdx) && server.allocatedCmdIdx == old(server.allocatedCmdIdx)
  {
    if drawingName !in server.drawings {
      return Failure(404);
    }
    var tempName := InputTempName(drawingName);
    if tempName in server.tempEditDrawings {
      return Success;
    }
    server.tempEditDrawings := server.tempEditDrawings[tempName :=
      TempEntry(server.drawings[drawingName], drawingName, None, mode, editIndex, false, None, None)];
    reply := Success;
  }

  /** An item with its `__isTemporary` marker removed. */
  function Unmarked(it: Item): Item {
    it.(isTemporary := false)
  }

  /**
   * The drawing stored when an editing copy is accepted: the copy's items without temporary
   * markers, the refresh rate of the drawing it replaces and a new version.
   */
  function AcceptedDrawing(copy: Drawing, main: Drawing, now: nat): (r: Drawing)
    ensures |r.items| == |copy.items|
    ensures forall i :: 0 <= i < |r.items| ==> !r.items[i].isTemporary && r.items[i] == copy.items[i].(isTemporary := false)
    ensures r.refresh == main.refresh && r.version == "V" + NatToString(now)
    ensures r.name == copy.name && r.x == copy.x && r.y == copy.y && r.color == copy.color
  {
    copy.(items := Map(copy.items, Unmarked), refresh := main.refresh, version := "V" + NatToString(now))
  }

  /** Accepting a copy with no temporary items stores its items as they are. */
  lemma {:induction false} AcceptedUnmarkedCopy(copy: Drawing, main: Drawing, now: nat)
    requires forall i :: 0 <= i < |copy.items| ==> !copy.items[i].isTemporary
    ensures AcceptedDrawing(copy, main, now).items == copy.items
  {
    var r := AcceptedDrawing(copy, main, now);
    assert forall i :: 0 <= i < |r.items| ==> r.items[i] == copy.items[i];
  }

  /**
   * `acceptTouchActionInputChanges` on the server's maps: 404 for an unknown copy or an
   * original that is gone; otherwise the original is replaced by `AcceptedDrawing` and the
   * copy deleted.
   */
  function AcceptInput(drawings: map<string, Drawing>, temps: map<string, TempEntry>, tempName: string, now: nat)
    : (r: (Response, map<string, Drawing>, map<string, TempEntry>))
    ensures r.0 == (if tempName in temps && temps[tempName].originalName in drawings then Success else Failure(404))
    ensures r.0.Failure? ==> r.1 == drawings && r.2 == temps
    ensures r.0.Success? ==> r.2 == temps - {tempName} && r.1.Keys == drawings.Keys
    ensures r.0.Success? ==> forall name :: name in drawings && name != temps[tempName].originalName ==>
      r.1[name] == drawings[name]
  {
    if tempName !in temps then (Failure(404), drawings, temps)
    else
      var original := temps[tempName].originalName;
      if original !in drawings then (Failure(404), drawings, temps)
      else
        (Success, drawings[original := AcceptedDrawing(temps[tempName].data, drawings[original], now)], temps - {tempName})
  }

  /**
   * Creating the copy and accepting it straight away gives back the drawing with its
   * temporary markers cleared and a new version, and leaves no copy behind.
   */
  lemma CreateThenAccept(drawings: map<string, Drawing>, temps: map<string, TempEntry>, drawingName: string,
                         mode: string, editIndex: Option<int>, now: nat)
    requires drawingName in drawings && InputTempName(drawingName) !in temps
    ensures var (_, created) := CreateInputCopy(drawings, temps, drawingName, mode, editIndex);
      var (reply, ds, ts) := AcceptInput(drawings, created, InputTempName(drawingName), now);
      reply == Success && ts == temps
      && ds == drawings[drawingName := AcceptedDrawing(drawings[drawingName], drawings[drawingName], now)]
  {
    var (_, created) := CreateInputCopy(drawings, temps, drawingName, mode, editIndex);
    assert created - {InputTempName(drawingName)} == temps;
  }

  /** `acceptTouchActionInputChanges` on the server: the maps become those of `AcceptInput`. */
  method AcceptTouchActionInputChanges(server: DrawingServer, tempName: string, now: nat) returns (reply: Response)
    modifies server
    ensures (reply, server.drawings, server.tempEditDrawings)
      == AcceptInput(old(server.drawings), old(server.tempEditDrawings), tempName, now)
    ensures server.allocatedIdx == old(server.allocatedIdx) && server.allocatedCmdIdx == old(server.allocatedCmdIdx)
  {
    if tempName !in server.tempEditDrawings {
      return Failure(404);
    }
    var original := server.tempEditDrawings[tempName].originalName;
    if original !in server.drawings {
      return Failure(404);
    }
    var copy := server.tempEditDrawings[tempName].data;
    var items := Map(copy.items, Unmarked);
    server.drawings := server.drawings[original := copy.(
      items := items, refresh := server.drawings[original].refresh, version := "V" + NatToString(now))];
    server.tempEditDrawings := server.tempEditDrawings - {tempName};
    reply := Success;
  }

  /** `cleanupTouchActionInputTemp`: the copy is deleted, or 404 when there is none. */
  method CleanupTouchActionInputTemp(server: DrawingServer, tempName: string) returns (reply: Response)
    modifies server
    ensures reply == (if tempName in old(server.tempEditDrawings) then Success else Failure(404))
    ensures server.tempEditDrawings == old(server.tempEditDrawings) - {tempName}
    ensures server.drawings == old(server.drawings)
    ensures server.allocatedIdx == old(server.allocatedIdx) && server.allocatedCmdIdx == old(server.allocatedCmdIdx)
  {
    if tempName !in server.tempEditDrawings {
      return Failure(404);
    }
    server.tempEditDrawings := server.tempEditDrawings - {tempName};
    reply := Success;
  }
}
