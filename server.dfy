/**
 * The designer server's state and the request handlers that change it: the stored drawings,
 * the temporary editing copies, and the two counters from which `updateNumericIndices` hands
 * out command and index numbers. A browser session is a separate object holding the drawing
 * the session started with and the preview it was last asked for.
 */
module Server {
  import opened Wrappers
  import opened Text
  import opened Seqs
  import opened DrawingItems
  import opened ServerIndices
  import opened ServerCommands
  import opened ServerImport
  import opened ServerReorder

  /** A browser session's remembered drawing names ("" when unset). */
  class Session {
    var iframeContext: string
    var currentMainDrawing: string

    constructor (mainDrawing: string)
      ensures iframeContext == "" && currentMainDrawing == mainDrawing
    {
      iframeContext := "";
      currentMainDrawing := mainDrawing;
    }
  }

  // ---------------------------------------------------------------------------------------
  // The data endpoint's filter

  /**
   * A hide, unhide or erase item is complete when it names its target by index
   * (idx and idxName) or by command (cmd and cmdName); every other item is complete.
   */
  predicate Complete(it: Item) {
    !IsVisibilityCommand(it.kind) || (HasIdx(it) && it.idxName != "") || (it.cmd != "" && it.cmdName != "")
  }

  predicate NotCommand(it: Item) {
    !IsVisibilityCommand(it.kind)
  }

  /**
   * The filter keeps exactly the complete items, keeps the other item types in their order,
   * and filtering again changes nothing.
   */
  lemma {:induction false} CompleteFilter(items: seq<Item>)
    ensures forall x :: x in Filter(items, Complete) <==> x in items && Complete(x)
    ensures Filter(Filter(items, Complete), NotCommand) == Filter(items, NotCommand)
    ensures Filter(Filter(items, Complete), Complete) == Filter(items, Complete)
  {
    FilterOfFilter(items, Complete, NotCommand);
    FilterIdempotent(items, Complete);
  }

  // ---------------------------------------------------------------------------------------
  // Temp-update add mode

  /** Only the last item may be a preview, and a preview is never a hide, unhide or erase. */
  predicate TempShape(items: seq<Item>) {
    (forall k :: 0 <= k < |items| - 1 ==> !items[k].isTemporary)
    && (|items| > 0 && items[|items| - 1].isTemporary ==> !IsVisibilityCommand(items[|items| - 1].kind))
  }

  /** The shape above, and a preview at the end is the one the entry records. */
  predicate TempInvariant(items: seq<Item>, preview: Option<Item>) {
    TempShape(items) && (|items| > 0 && items[|items| - 1].isTemporary ==> preview.Some?)
  }

  /** The last item is a preview. */
  predicate EndsInPreview(items: seq<Item>) {
    |items| > 0 && items[|items| - 1].isTemporary
  }

  /**
   * The add-mode branch of a temp update: an earlier preview of another type is removed and
   * forgotten; a hide, unhide or erase item is appended as it is; any other item replaces
   * the preview at the end (if one is recorded) with itself marked as the new preview.
   */
  function TempAdd(items: seq<Item>, preview: Option<Item>, item: Item): (r: (seq<Item>, Option<Item>))
    ensures |r.0| > 0 && r.0[..|r.0| - 1] <= items
    ensures IsVisibilityCommand(item.kind) ==> r.0[|r.0| - 1] == item
    ensures !IsVisibilityCommand(item.kind) ==> r.0[|r.0| - 1] == item.(isTemporary := true) && r.1 == Some(r.0[|r.0| - 1])
  {
    var (items1, preview1) :=
      if preview.Some? && EndsInPreview(items) && items[|items| - 1].kind != item.kind
      then (items[..|items| - 1], None) else (items, preview);
    if IsVisibilityCommand(item.kind) then (items1 + [item], preview1)
    else
      var items2 := if preview1.Some? && EndsInPreview(items1) then items1[..|items1| - 1] else items1;
      var temp := item.(isTemporary := true);
      (items2 + [temp], Some(temp))
  }

  /** The add-mode steps on a temporary copy's items and recorded preview. */
  method AddToTemp(items0: seq<Item>, preview0: Option<Item>, item: Item) returns (items: seq<Item>, preview: Option<Item>)
    ensures (items, preview) == TempAdd(items0, preview0, item)
  {
    items, preview := items0, preview0;
    if preview.Some? {
      if |items| > 0 && items[|items| - 1].isTemporary && items[|items| - 1].kind != item.kind {
        items := items[..|items| - 1];
        preview := None;
      }
    }
    if item.kind == Hide || item.kind == Unhide || item.kind == Erase {
      items := items + [item];
    } else {
      if preview.Some? && |items| > 0 && items[|items| - 1].isTemporary {
        items := items[..|items| - 1];
      }
      var temp := item.(isTemporary := true);
      items := items + [temp];
      preview := Some(temp);
    }
  }

  /** Adding a (non-preview) item keeps at most one preview, at the end, recorded in the entry. */
  lemma {:induction false} TempAddKeepsInvariant(items: seq<Item>, preview: Option<Item>, item: Item)
    requires TempInvariant(items, preview) && !item.isTemporary
    ensures TempInvariant(TempAdd(items, preview, item).0, TempAdd(items, preview, item).1)
  {
    var r := TempAdd(items, preview, item).0;
    forall k | 0 <= k < |r| - 1
      ensures !r[k].isTemporary
    {
      assert r[k] == items[k];
    }
  }

  lemma {:induction false} FilterKeepsTempShape(s: seq<Item>, keep: Item -> bool)
    requires TempShape(s)
    ensures TempShape(Filter(s, keep))
    ensures EndsInPreview(Filter(s, keep)) ==> EndsInPreview(s)
  {
    if s != [] {
      var front, last := s[..|s| - 1], s[|s| - 1];
      assert s == front + [last];
      FilterAppend(front, [last], keep);
      assert [last][1..] == [];
      ShapeFront(s);
      var f := Filter(front, keep);
      if keep(last) {
        ShapeSnoc(f, last);
      } else {
        assert Filter(s, keep) == f;
        NoPreviewsShape(f);
      }
    }
  }

  predicate NoPreviews(s: seq<Item>) {
    forall x :: x in s ==> !x.isTemporary
  }

  lemma {:induction false} ShapeFront(s: seq<Item>)
    requires TempShape(s) && s != []
    ensures NoPreviews(s[..|s| - 1])
  {
    forall x | x in s[..|s| - 1]
      ensures !x.isTemporary
    {
      var k :| 0 <= k < |s| - 1 && s[..|s| - 1][k] == x;
      assert x == s[k];
    }
  }

  lemma {:induction false} NoPreviewsShape(s: seq<Item>)
    requires NoPreviews(s)
    ensures TempShape(s) && !EndsInPreview(s)
  {
    assert forall k :: 0 <= k < |s| ==> s[k] in s;
  }

  lemma {:induction false} ShapeSnoc(s: seq<Item>, last: Item)
    requires NoPreviews(s) && (last.isTemporary ==> !IsVisibilityCommand(last.kind))
    ensures TempShape(s + [last])
  {
    var r := s + [last];
    forall k | 0 <= k < |r| - 1
      ensures !r[k].isTemporary
    {
      assert r[k] == s[k] && s[k] in s;
    }
  }

  lemma {:induction false} SameShapeTemp(s: seq<Item>, t: seq<Item>)
    requires TempShape(s) && |s| == |t|
    requires forall k :: 0 <= k < |s| ==> t[k].kind == s[k].kind && t[k].isTemporary == s[k].isTemporary
    ensures TempShape(t) && (EndsInPreview(t) <==> EndsInPreview(s))
  {
  }

  /** The renumbering after an add keeps the preview invariant. */
  lemma {:induction false} UpdateKeepsTempInvariant(items: seq<Item>, preview: Option<Item>, nextCmd: nat, nextIdx: nat)
    requires TempInvariant(items, preview)
    ensures TempInvariant(UpdateIndices(items, nextCmd, nextIdx).1, preview)
  {
    var start := Start(nextCmd, nextIdx);
    FirstPassKeepsTempShape(items, nextCmd, nextIdx);
    var first := FirstPass(items, start, Role);
    SecondPassKeepsTempShape(first.1, first.0.cmdMap);
    ThirdPassKeepsTempShape(SecondPass(first.1, first.0.cmdMap), first.0);
    UpdateIndicesFinish(items, nextCmd, nextIdx);
  }

  lemma {:induction false} FirstPassKeepsTempShape(items: seq<Item>, nextCmd: nat, nextIdx: nat)
    requires TempShape(items)
    ensures var numbered := FirstPass(items, Start(nextCmd, nextIdx), Role).1;
      TempShape(numbered) && (EndsInPreview(numbered) ==> EndsInPreview(items))
  {
    var start := Start(nextCmd, nextIdx);
    FirstPassNumbers(items, start, Role, nextCmd, nextIdx);
    var numbered := FirstPass(items, start, Role).1;
    assert forall k :: 0 <= k < |items| ==> Renumbered(items[k], numbered[k]);
    SameShapeTemp(items, numbered);
  }

  lemma {:induction false} SecondPassKeepsTempShape(items: seq<Item>, cmdMap: map<string, nat>)
    requires TempShape(items)
    ensures TempShape(SecondPass(items, cmdMap))
    ensures EndsInPreview(SecondPass(items, cmdMap)) ==> EndsInPreview(items)
  {
    var linked := LinkAll(items, cmdMap);
    SameShapeTemp(items, linked);
    FilterKeepsTempShape(linked, (it: Item) => !Dangling(cmdMap, it));
  }

  lemma {:induction false} ThirdPassKeepsTempShape(items: seq<Item>, a: Alloc)
    requires TempShape(items)
    ensures TempShape(ThirdPass(items, a))
    ensures EndsInPreview(ThirdPass(items, a)) ==> EndsInPreview(items)
  {
    var checked := RecheckAll(a, items);
    SameShapeTemp(items, checked);
    FilterKeepsTempShape(checked, (it: Item) => !Emptied(it));
  }

  /** Whether a temp update renumbers: not for a touchAction item-editing copy. */
  predicate Renumbers(tempName: string) {
    !Includes(tempName, "_touchAction_item_edit")
  }

  /**
   * The items, recorded preview and counters after an add-mode temp update of a copy named
   * `tempName`, starting from counters `nextCmd` and `nextIdx`.
   */
  function TempAddRenumbered(tempName: string, items: seq<Item>, preview: Option<Item>, item: Item, nextCmd: nat, nextIdx: nat)
    : (r: (seq<Item>, Option<Item>, nat, nat))
    ensures !Renumbers(tempName) ==> (r.0, r.1) == TempAdd(items, preview, item) && r.2 == nextCmd && r.3 == nextIdx
  {
    var (added, p) := TempAdd(items, preview, item);
    if Renumbers(tempName) then
      var u := UpdateIndices(added, nextCmd, nextIdx);
      (u.1, p, u.0.nextCmd, u.0.nextIdx)
    else (added, p, nextCmd, nextIdx)
  }

  /** A whole add-mode temp update keeps at most one preview, at the end, recorded in the entry. */
  lemma {:induction false} TempUpdateKeepsInvariant(tempName: string, items: seq<Item>, preview: Option<Item>, item: Item, nextCmd: nat, nextIdx: nat)
    requires TempInvariant(items, preview) && !item.isTemporary
    ensures var r := TempAddRenumbered(tempName, items, preview, item, nextCmd, nextIdx); TempInvariant(r.0, r.1)
  {
    TempAddKeepsInvariant(items, preview, item);
    var (added, p) := TempAdd(items, preview, item);
    if Renumbers(tempName) {
      UpdateKeepsTempInvariant(added, p, nextCmd, nextIdx);
    }
  }

  // ---------------------------------------------------------------------------------------
  // The server

  class DrawingServer {
    var drawings: map<string, Drawing>
    var tempEditDrawings: map<string, TempEntry>
    var allocatedIdx: nat
    var allocatedCmdIdx: nat

    constructor ()
      ensures drawings == map[] && tempEditDrawings == map[]
      ensures allocatedIdx == 1 && allocatedCmdIdx == 1
    {
      drawings := map[];
      tempEditDrawings := map[];
      allocatedIdx := 1;
      allocatedCmdIdx := 1;
    }

    /**
     * `updateNumericIndices` on one drawing's items: the three passes, numbering from the
     * counters and leaving them past the last number handed out. The first pass uses the
     * intended branch chain `Role`, under which touch actions and touch action inputs number
     * nothing; the chain as written, `RoleAsWritten`, also gives a named touch child a
     * command number of its own, so a dangling one is kept (see `DanglingTouchAction`).
     */
    method UpdateNumericIndices(items: seq<Item>) returns (r: seq<Item>)
      modifies this
      ensures var (a, out) := UpdateIndices(items, old(allocatedCmdIdx), old(allocatedIdx));
        r == out && allocatedCmdIdx == a.nextCmd && allocatedIdx == a.nextIdx
      ensures old(allocatedCmdIdx) <= allocatedCmdIdx && old(allocatedIdx) <= allocatedIdx
      ensures drawings == old(drawings) && tempEditDrawings == old(tempEditDrawings)
    {
      var start := Start(allocatedCmdIdx, allocatedIdx);
      FirstPassNumbers(items, start, Role, allocatedCmdIdx, allocatedIdx);
      var a, numbered := AssignFirstAppearance(items, start);
      var linked := LinkTouchCommands(numbered, a.cmdMap);
      r := ResolveTouchReferences(linked, a);
      allocatedCmdIdx := a.nextCmd;
      allocatedIdx := a.nextIdx;
    }

    /**
     * `handlePfodWebCommand`: the startup command `{.}` names the drawing to start with and
     * may update the session's iframe context; any other command gets `CommandReply`.
     */
    method HandlePfodWebCommand(session: Session, cmdParam: string, preview: string, referer: Option<Referer>)
      returns (reply: PfodReply)
      modifies session
      ensures session.currentMainDrawing == old(session.currentMainDrawing)
      ensures cmdParam == "{.}" ==>
        var (name, context) := StartupTarget(preview, referer, old(session.iframeContext), old(session.currentMainDrawing));
        session.iframeContext == context
        && reply == if name == "" then NoMainDrawing else StartupReply(name)
      ensures cmdParam != "{.}" ==>
        session.iframeContext == old(session.iframeContext)
        && reply == CommandReply(cmdParam, drawings.Keys + tempEditDrawings.Keys)
    {
      if cmdParam == "{.}" {
        var target := StartupTarget(preview, referer, session.iframeContext, session.currentMainDrawing);
        session.iframeContext := target.1;
        if target.0 == "" {
          reply := NoMainDrawing;
        } else {
          reply := StartupReply(target.0);
        }
      } else {
        reply := CommandReply(cmdParam, drawings.Keys + tempEditDrawings.Keys);
      }
    }

    /**
     * The data endpoint: the named drawing (a stored one first, else a temporary copy) loses
     * its incomplete hide, unhide and erase items for good, and is returned; None is the
     * not-found answer.
     */
    method DrawingData(name: string) returns (d: Option<Drawing>)
      modifies this
      ensures name in old(drawings) ==>
        var data := old(drawings)[name].(items := Filter(old(drawings)[name].items, Complete));
        drawings == old(drawings)[name := data] && tempEditDrawings == old(tempEditDrawings) && d == Some(data)
      ensures name !in old(drawings) && name in old(tempEditDrawings) ==>
        var entry := old(tempEditDrawings)[name];
        var data := entry.data.(items := Filter(entry.data.items, Complete));
        tempEditDrawings == old(tempEditDrawings)[name := entry.(data := data)] && drawings == old(drawings)
        && d == Some(data)
      ensures name !in old(drawings) && name !in old(tempEditDrawings) ==>
        d.None? && drawings == old(drawings) && tempEditDrawings == old(tempEditDrawings)
      ensures allocatedIdx == old(allocatedIdx) && allocatedCmdIdx == old(allocatedCmdIdx)
    {
      if name in drawings {
        var data := drawings[name];
        data := data.(items := Filter(data.items, Complete));
        drawings := drawings[name := data];
        d := Some(data);
      } else if name in tempEditDrawings {
        var entry := tempEditDrawings[name];
        var data := entry.data.(items := Filter(entry.data.items, Complete));
        tempEditDrawings := tempEditDrawings[name := entry.(data := data)];
        d := Some(data);
      } else {
        d := None;
      }
    }

    /** `reorderTouchActionItems`: reorder, then renumber. */
    method ReorderTouchActionItems(items: seq<Item>) returns (r: seq<Item>)
      modifies this
      ensures var (a, out) := UpdateIndices(Reordered(items), old(allocatedCmdIdx), old(allocatedIdx));
        r == out && allocatedCmdIdx == a.nextCmd && allocatedIdx == a.nextIdx
      ensures Attached(r)
      ensures drawings == old(drawings) && tempEditDrawings == old(tempEditDrawings)
    {
      var reordered := ReorderItems(items);
      ReorderedAttached(items);
      UpdateKeepsAttached(reordered, allocatedCmdIdx, allocatedIdx);
      r := UpdateNumericIndices(reordered);
    }

    /**
     * The import endpoint once the uploaded drawing is parsed: merge touchActions, clean up
     * the index fields, renumber twice (the handler calls `updateNumericIndices` before and
     * after defaulting the version), and store the drawing under `name`. False is the 500
     * answer of a merge that throws, which stores nothing.
     */
    method ImportDrawing(name: string, data: Drawing, now: nat) returns (stored: bool)
      modifies this
      ensures stored == !MergeThrows(data.items)
      ensures !stored ==> (drawings == old(drawings)
        && allocatedCmdIdx == old(allocatedCmdIdx) && allocatedIdx == old(allocatedIdx))
      ensures stored ==>
        var first := UpdateIndices(CleanAll(MergeDuplicates(data.items)), old(allocatedCmdIdx), old(allocatedIdx));
        var second := UpdateIndices(first.1, first.0.nextCmd, first.0.nextIdx);
        var version := if data.version != "" then data.version else "V" + NatToString(now);
        drawings == old(drawings)[name := data.(items := second.1, version := version)]
        && allocatedCmdIdx == second.0.nextCmd && allocatedIdx == second.0.nextIdx
      ensures tempEditDrawings == old(tempEditDrawings)
    {
      var merged := MergeTouchActions(data.items);
      if merged.None? {
        return false;
      }
      var items := CleanUpIdx(merged.value);
      items := UpdateNumericIndices(items);
      var version := if data.version != "" then data.version else "V" + NatToString(now);
      items := UpdateNumericIndices(items);
      drawings := drawings[name := data.(items := items, version := version)];
      stored := true;
    }

    /**
     * A temp update in add mode: apply `TempAdd` to the temporary copy, give it a fresh
     * version, and renumber it unless it is a touchAction item-editing copy. False is the
     * not-found answer, which changes nothing.
     */
    method TempUpdateAdd(tempName: string, item: Item, now: nat) returns (found: bool)
      modifies this
      ensures found == (tempName in old(tempEditDrawings))
      ensures !found ==> (tempEditDrawings == old(tempEditDrawings)
        && allocatedCmdIdx == old(allocatedCmdIdx) && allocatedIdx == old(allocatedIdx))
      ensures found ==>
        var entry := old(tempEditDrawings)[tempName];
        var r := TempAddRenumbered(tempName, entry.data.items, entry.tempPreviewItem, item, old(allocatedCmdIdx), old(allocatedIdx));
        tempEditDrawings == old(tempEditDrawings)[tempName :=
          entry.(data := entry.data.(items := r.0, version := "V" + NatToString(now)), tempPreviewItem := r.1)]
        && allocatedCmdIdx == r.2 && allocatedIdx == r.3
      ensures drawings == old(drawings)
    {
      if tempName !in tempEditDrawings {
        return false;
      }
      found := true;
      var entry := tempEditDrawings[tempName];
      var items, preview := AddToTemp(entry.data.items, entry.tempPreviewItem, item);
      if !Includes(tempName, "_touchAction_item_edit") {
        items := UpdateNumericIndices(items);
      }
      tempEditDrawings := tempEditDrawings[tempName :=
        entry.(data := entry.data.(items := items, version := "V" + NatToString(now)), tempPreviewItem := preview)];
    }
  }
}
