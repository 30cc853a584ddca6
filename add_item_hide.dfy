/**
 * The show button of the add-item editor: an item of the drawing is hidden (or shown) in
 * the editor's preview copy `<drawing>_edit_preview` by appending a hide or unhide command,
 * after the preview has been saved under `<drawing>_edit_preview_show_backup`; restoring
 * puts the saved preview back and deletes the backup.
 */
module AddItemHide {
  import opened Wrappers
  import opened Text
  import opened DrawingItems
  import opened Server

  /** The request body: the item's index name or command name, its visibility and drawing. */
  datatype HideRequest = HideRequest(idxName: string, cmdName: string, isVisible: Option<bool>, dwgName: string)

  function PreviewName(drawingName: string): string {
    drawingName + "_edit_preview"
  }

  function BackupName(drawingName: string): string {
    PreviewName(drawingName) + "_show_backup"
  }

  lemma BackupIsNotPreview(drawingName: string)
    ensures BackupName(drawingName) != PreviewName(drawingName)
  {
    assert |BackupName(drawingName)| > |PreviewName(drawingName)|;
  }

  /** `isVisible !== false ? 'hide' : 'unhide'`: only an explicit false asks to show the item. */
  function ActionType(isVisible: Option<bool>): (r: string)
    ensures r == Unhide <==> isVisible == Some(false)
    ensures r == Hide || r == Unhide
  {
    if isVisible != Some(false) then Hide else Unhide
  }

  /** `items.find(p)`: the position of the first item satisfying `p`. */
  function FirstWhere(s: seq<Item>, p: Item -> bool): (r: Option<nat>)
    ensures r.Some? ==> r.value < |s| && p(s[r.value])
    ensures r.Some? ==> forall k :: 0 <= k < r.value ==> !p(s[k])
    ensures r.None? ==> forall k :: 0 <= k < |s| ==> !p(s[k])
  {
    if s == [] then None
    else if p(s[0]) then Some(0)
    else
      match FirstWhere(s[1..], p)
      case None => None
      case Some(i) => Some(i + 1)
  }

  /**
   * The hide or unhide command for the requested item, looked up in the drawing's items:
   * by index name when one is given (the item must have a non-zero index), otherwise by
   * command name. None when the lookup fails.
   */
  function HideCommandFor(items: seq<Item>, req: HideRequest): (r: Option<Item>)
    ensures r.Some? ==> r.value.kind == ActionType(req.isVisible)
    ensures req.idxName != "" ==>
      (r.Some? <==> exists k :: (0 <= k < |items| && items[k].idxName == req.idxName && HasIdx(items[k])
                                 && forall j :: 0 <= j < k ==> items[j].idxName != req.idxName))
    ensures req.idxName != "" && r.Some? ==>
      r.value.indexed && r.value.idxName == req.idxName
      && exists k :: (0 <= k < |items| && items[k].idxName == req.idxName && r.value.idx == items[k].idx
                      && forall j :: 0 <= j < k ==> items[j].idxName != req.idxName)
    ensures req.idxName == "" ==>
      (r.Some? <==> exists k :: 0 <= k < |items| && items[k].cmdName == req.cmdName)
    ensures req.idxName == "" && r.Some? ==>
      !r.value.indexed && r.value.cmdName == req.cmdName && r.value.drawingName == req.dwgName
      && exists k :: (0 <= k < |items| && items[k].cmdName == req.cmdName && r.value.cmd == items[k].cmd
                      && forall j :: 0 <= j < k ==> items[j].cmdName != req.cmdName)
  {
    var action := ActionType(req.isVisible);
    if req.idxName != "" then
      match FirstWhere(items, (it: Item) => it.idxName == req.idxName)
      case None => None
      case Some(t) =>
        if HasIdx(items[t]) then Some(NewItem(action).(idx := items[t].idx, idxName := req.idxName, indexed := true))
        else None
    else
      match FirstWhere(items, (it: Item) => it.cmdName == req.cmdName)
      case None => None
      case Some(t) =>
        Some(NewItem(action).(cmd := items[t].cmd, cmdName := req.cmdName, drawingName := req.dwgName))
  }

  /**
   * `hideItemInPreview` on the server's temporary-copy map. 404 for an unknown drawing, 400
   * when neither name is given, 404 when there is no preview; past those checks the backup
   * is stored, and then either the lookup fails (400, the backup stays) or the command is
   * appended to the preview, which gets a new version and the update-only mark.
   */
  function HideInPreview(drawings: map<string, Drawing>, temps: map<string, TempEntry>, drawingName: string,
                         req: HideRequest, now: nat): (r: (Response, map<string, TempEntry>))
    ensures r.0 == (if drawingName !in drawings then Failure(404)
      else if req.idxName == "" && req.cmdName == "" then Failure(400)
      else if PreviewName(drawingName) !in temps then Failure(404)
      else if HideCommandFor(drawings[drawingName].items, req).None? then Failure(400)
      else Success)
    ensures drawingName !in drawings || (req.idxName == "" && req.cmdName == "") || PreviewName(drawingName) !in temps ==>
      r.1 == temps
    ensures r.0 == Failure(400) && drawingName in drawings && !(req.idxName == "" && req.cmdName == "")
            && PreviewName(drawingName) in temps ==>
      r.1 == temps[BackupName(drawingName) := temps[PreviewName(drawingName)]]
    ensures r.1.Keys <= temps.Keys + {BackupName(drawingName)}
    ensures forall name :: name in temps && name != PreviewName(drawingName) && name != BackupName(drawingName) ==>
      name in r.1 && r.1[name] == temps[name]
    ensures r.0.Success? ==> PreviewName(drawingName) in r.1 && BackupName(drawingName) in r.1
    ensures r.0.Success? ==>
      var pe := temps[PreviewName(drawingName)];
      var np := r.1[PreviewName(drawingName)];
      np.data.items == pe.data.items + [HideCommandFor(drawings[drawingName].items, req).value]
      && np.isUpdateOnly && np.data.version == "V" + NatToString(now)
      && r.1[BackupName(drawingName)] == pe
  {
    var preview := PreviewName(drawingName);
    if drawingName !in drawings then (Failure(404), temps)
    else if req.idxName == "" && req.cmdName == "" then (Failure(400), temps)
    else if preview !in temps then (Failure(404), temps)
    else
      var pe := temps[preview];
      var saved := temps[BackupName(drawingName) := pe];
      BackupIsNotPreview(drawingName);
      match HideCommandFor(drawings[drawingName].items, req)
      case None => (Failure(400), saved)
      case Some(cmd) =>
        (Success, saved[preview := pe.(data := pe.data.(items := pe.data.items + [cmd], version := "V" + NatToString(now)),
                                       isUpdateOnly := true)])
  }

  /**
   * `restorePreview` on the server's temporary-copy map: 404 without a preview or without a
   * backup; otherwise the backup becomes the preview and is deleted.
   */
  function RestoreFromBackup(temps: map<string, TempEntry>, drawingName: string): (r: (Response, map<string, TempEntry>))
    ensures r.0 == (if PreviewName(drawingName) in temps && BackupName(drawingName) in temps then Success else Failure(404))
    ensures r.0.Failure? ==> r.1 == temps
    ensures r.0.Success? ==>
      BackupName(drawingName) !in r.1 && PreviewName(drawingName) in r.1 && r.1[PreviewName(drawingName)] == temps[BackupName(drawingName)]
      && forall name :: name in temps && name != PreviewName(drawingName) && name != BackupName(drawingName) ==>
        name in r.1 && r.1[name] == temps[name]
  {
    var preview := PreviewName(drawingName);
    var backup := BackupName(drawingName);
    if preview !in temps || backup !in temps then (Failure(404), temps)
    else
      BackupIsNotPreview(drawingName);
      (Success, temps[preview := temps[backup]] - {backup})
  }

  /**
   * Once a hide request has got past its checks and stored the backup, restoring gives back
   * the preview as it was, whether the item was found or not, and removes the backup.
   */
  lemma {:induction false} RestoreUndoesHide(drawings: map<string, Drawing>, temps: map<string, TempEntry>,
                                             drawingName: string, req: HideRequest, now: nat)
    requires drawingName in drawings && !(req.idxName == "" && req.cmdName == "") && PreviewName(drawingName) in temps
    ensures var (_, hidden) := HideInPreview(drawings, temps, drawingName, req, now);
      RestoreFromBackup(hidden, drawingName) == (Success, temps - {BackupName(drawingName)})
  {
    var preview := PreviewName(drawingName);
    var backup := BackupName(drawingName);
    BackupIsNotPreview(drawingName);
    var (_, hidden) := HideInPreview(drawings, temps, drawingName, req, now);
    assert preview in hidden && hidden[backup] == temps[preview];
    var restored := hidden[preview := hidden[backup]] - {backup};
    assert RestoreFromBackup(hidden, drawingName) == (Success, restored);
    forall name | name in restored
      ensures name in temps && restored[name] == temps[name]
    {
      if name != preview {
        assert name in temps && hidden[name] == temps[name];
      }
    }
    assert restored == temps - {backup};
  }

  /** `hideItemInPreview` on the server: the copies become those of `HideInPreview`. */
  method HideItemInPreview(server: DrawingServer, drawingName: string, req: HideRequest, now: nat)
    returns (reply: Response)
    modifies server
    ensures (reply, server.tempEditDrawings) == HideInPreview(old(server.drawings), old(server.tempEditDrawings), drawingName, req, now)
    ensures server.drawings == old(server.drawings)
    ensures server.allocatedIdx == old(server.allocatedIdx) && server.allocatedCmdIdx == old(server.allocatedCmdIdx)
  {
    if drawingName !in server.drawings {
      return Failure(404);
    }
    if req.idxName == "" && req.cmdName == "" {
      return Failure(400);
    }
    var preview := PreviewName(drawingName);
    if preview !in server.tempEditDrawings {
      return Failure(404);
    }
    var pe := server.tempEditDrawings[preview];
    server.tempEditDrawings := server.tempEditDrawings[BackupName(drawingName) := pe];
    var cmd := HideCommandFor(server.drawings[drawingName].items, req);
    if cmd.None? {
      return Failure(400);
    }
    server.tempEditDrawings := server.tempEditDrawings[preview := pe.(
      data := pe.data.(items := pe.data.items + [cmd.value], version := "V" + NatToString(now)), isUpdateOnly := true)];
    reply := Success;
  }

  /** `restorePreview` on the server: the copies become those of `RestoreFromBackup`. */
  method RestorePreview(server: DrawingServer, drawingName: string) returns (reply: Response)
    modifies server
    ensures (reply, server.tempEditDrawings) == RestoreFromBackup(old(server.tempEditDrawings), drawingName)
    ensures server.drawings == old(server.drawings)
    ensures server.allocatedIdx == old(server.allocatedIdx) && server.allocatedCmdIdx == old(server.allocatedCmdIdx)
  {
    var preview := PreviewName(drawingName);
    var backup := BackupName(drawingName);
    if preview !in server.tempEditDrawings || backup !in server.tempEditDrawings {
      return Failure(404);
    }
    server.tempEditDrawings := server.tempEditDrawings[preview := server.tempEditDrawings[backup]] - {backup};
    reply := Success;
  }
}
