/**
 * What the import endpoint does to the items of an uploaded drawing before numbering them:
 * touchActions sharing a command are merged into the first of them, then each item's index
 * fields are cleaned up (items with an index below 1 are dropped, an index makes the item
 * indexed and gives it a default index name, and a command gives it a default command name).
 */
module ServerImport {
  import opened Wrappers
  import opened Text
  import opened Seqs
  import opened DrawingItems

  // ---------------------------------------------------------------------------------------
  // Merging touchActions by command

  /** The merge key of an item: the command of a touchAction that has one. */
  function Key(it: Item): Option<string> {
    if it.kind == TouchAction && it.cmd != "" then Some(it.cmd) else None
  }

  predicate NotMerged(it: Item) {
    Key(it).None?
  }

  /** The position of the first item whose key is `c`. */
  function FirstWithKey(s: seq<Item>, c: string): (r: Option<nat>)
    ensures r.Some? ==> r.value < |s| && Key(s[r.value]) == Some(c)
    ensures r.Some? ==> forall k :: 0 <= k < r.value ==> Key(s[k]) != Some(c)
    ensures r.None? ==> forall k :: 0 <= k < |s| ==> Key(s[k]) != Some(c)
  {
    if s == [] then None
    else if Key(s[0]) == Some(c) then Some(0)
    else
      match FirstWithKey(s[1..], c)
      case None => None
      case Some(i) => Some(i + 1)
  }

  /** `existing` after `item`'s action array, if it has one, is appended to its own. */
  function MergeAction(existing: Item, item: Item): (r: Item)
    ensures r == existing.(action := r.action)
  {
    match item.action
    case None => existing
    case Some(more) => existing.(action := Some(existing.action.GetOr([]) + more))
  }

  /** One step of the merge loop over the already processed items. */
  function MergeStep(processed: seq<Item>, item: Item): seq<Item> {
    match Key(item)
    case None => processed + [item]
    case Some(c) =>
      match FirstWithKey(processed, c)
      case None => processed + [item]
      case Some(p) => processed[p := MergeAction(processed[p], item)]
  }

  /** The items after touchActions with equal commands are merged into the first of them. */
  function MergeDuplicates(items: seq<Item>): seq<Item>
    decreases |items|
  {
    if items == [] then [] else MergeStep(MergeDuplicates(items[..|items| - 1]), items[|items| - 1])
  }

  /** All action arrays of the items keyed `c`, concatenated in order. */
  function Actions(items: seq<Item>, c: string): seq<Item>
    decreases |items|
  {
    if items == [] then []
    else
      var last := items[|items| - 1];
      Actions(items[..|items| - 1], c) + (if Key(last) == Some(c) then last.action.GetOr([]) else [])
  }

  /**
   * The merge step that throws: a touchAction without an action array reaches a kept
   * touchAction that has none either, and the log line reads the length of that missing array.
   */
  predicate StepThrows(processed: seq<Item>, item: Item) {
    match Key(item)
    case None => false
    case Some(c) =>
      match FirstWithKey(processed, c)
      case None => false
      case Some(p) => processed[p].action.None? && item.action.None?
  }

  /** The merge loop throws on some item. */
  predicate MergeThrows(items: seq<Item>)
    decreases |items|
  {
    items != []
    && (MergeThrows(items[..|items| - 1])
        || StepThrows(MergeDuplicates(items[..|items| - 1]), items[|items| - 1]))
  }

  /**
   * The merge loop: a map from command to position stands for the source's map from command
   * to merged item. None is the exception that ends the import with a 500 answer.
   */
  method MergeTouchActions(items: seq<Item>) returns (r: Option<seq<Item>>)
    ensures r.None? <==> MergeThrows(items)
    ensures r.Some? ==> r.value == MergeDuplicates(items)
  {
    var acc: seq<Item> := [];
    var firstAt: map<string, nat> := map[];
    var i := 0;
    while i < |items|
      invariant 0 <= i <= |items|
      invariant acc == MergeDuplicates(items[..i]) && !MergeThrows(items[..i])
      invariant forall c :: c in firstAt <==> FirstWithKey(acc, c).Some?
      invariant forall c :: c in firstAt ==> FirstWithKey(acc, c) == Some(firstAt[c])
    {
      MergeTakeOneMore(items, i);
      var thrown;
      acc, firstAt, thrown := MergeItem(acc, firstAt, items[i]);
      if thrown {
        ThrowsPersist(items, i + 1);
        return None;
      }
      i := i + 1;
    }
    assert items[..i] == items;
    r := Some(acc);
  }

  /**
   * One turn of the merge loop: the item is kept, or merged into the touchAction `firstAt`
   * locates, or the turn throws.
   */
  method MergeItem(acc: seq<Item>, firstAt: map<string, nat>, item: Item)
    returns (next: seq<Item>, nextAt: map<string, nat>, thrown: bool)
    requires forall c :: c in firstAt <==> FirstWithKey(acc, c).Some?
    requires forall c :: c in firstAt ==> FirstWithKey(acc, c) == Some(firstAt[c])
    ensures thrown == StepThrows(acc, item)
    ensures !thrown ==> next == MergeStep(acc, item)
    ensures forall c :: c in nextAt <==> FirstWithKey(next, c).Some?
    ensures forall c :: c in nextAt ==> FirstWithKey(next, c) == Some(nextAt[c])
  {
    next, nextAt, thrown := acc, firstAt, false;
    match Key(item) {
      case None =>
        forall c ensures FirstWithKey(acc + [item], c) == FirstWithKey(acc, c) {
          FirstWithKeyAppend(acc, item, c);
        }
        next := acc + [item];
      case Some(cmd) =>
        if cmd in firstAt {
          var p := firstAt[cmd];
          if acc[p].action.None? && item.action.None? {
            thrown := true;
            return;
          }
          var merged := MergeAction(acc[p], item);
          forall c ensures FirstWithKey(acc[p := merged], c) == FirstWithKey(acc, c) {
            FirstWithKeyUpdate(acc, p, merged, c);
          }
          next := acc[p := merged];
        } else {
          forall c ensures FirstWithKey(acc + [item], c) == (if c == cmd then Some(|acc|) else FirstWithKey(acc, c)) {
            FirstWithKeyAppend(acc, item, c);
          }
          nextAt := firstAt[cmd := |acc|];
          next := acc + [item];
        }
    }
  }

  /** Once the loop has thrown on a prefix, the whole merge has thrown. */
  lemma {:induction false} ThrowsPersist(items: seq<Item>, i: nat)
    requires i <= |items| && MergeThrows(items[..i])
    ensures MergeThrows(items)
    decreases |items| - i
  {
    if i < |items| {
      MergeTakeOneMore(items, i);
      ThrowsPersist(items, i + 1);
    } else {
      assert items[..i] == items;
    }
  }

  lemma {:induction false} MergeTakeOneMore(items: seq<Item>, i: nat)
    requires i < |items|
    ensures MergeDuplicates(items[..i + 1]) == MergeStep(MergeDuplicates(items[..i]), items[i])
    ensures MergeThrows(items[..i + 1]) == (MergeThrows(items[..i]) || StepThrows(MergeDuplicates(items[..i]), items[i]))
  {
    assert items[..i + 1][..i] == items[..i];
  }

  lemma {:induction false} FirstWithKeyAppend(s: seq<Item>, x: Item, c: string)
    ensures FirstWithKey(s + [x], c) ==
      if FirstWithKey(s, c).Some? then FirstWithKey(s, c)
      else if Key(x) == Some(c) then Some(|s|) else None
  {
    var r := FirstWithKey(s + [x], c);
    if FirstWithKey(s, c).Some? {
      var p := FirstWithKey(s, c).value;
      assert (s + [x])[p] == s[p];
    } else if Key(x) == Some(c) {
      assert (s + [x])[|s|] == x;
    } else {
      assert forall k :: 0 <= k < |s| ==> (s + [x])[k] == s[k];
    }
  }

  lemma {:induction false} FirstWithKeyUpdate(s: seq<Item>, p: nat, y: Item, c: string)
    requires p < |s| && Key(y) == Key(s[p])
    ensures FirstWithKey(s[p := y], c) == FirstWithKey(s, c)
  {
    var t := s[p := y];
    assert forall k :: 0 <= k < |s| ==> Key(t[k]) == Key(s[k]);
  }

  // ---------------------------------------------------------------------------------------
  // What the merge guarantees

  /** Items that are not touchActions with a command keep their relative order. */
  lemma {:induction false} MergeKeepsOthers(items: seq<Item>)
    ensures Filter(MergeDuplicates(items), NotMerged) == Filter(items, NotMerged)
    decreases |items|
  {
    if items != [] {
      var front, last := items[..|items| - 1], items[|items| - 1];
      MergeKeepsOthers(front);
      var rf := MergeDuplicates(front);
      assert items == front + [last];
      FilterAppend(front, [last], NotMerged);
      MergeStepKeepsOthers(rf, last);
    }
  }

  lemma {:induction false} MergeStepKeepsOthers(rf: seq<Item>, last: Item)
    ensures Filter(MergeStep(rf, last), NotMerged) == Filter(rf, NotMerged) + Filter([last], NotMerged)
  {
    if Key(last).Some? && FirstWithKey(rf, Key(last).value).Some? {
      var p := FirstWithKey(rf, Key(last).value).value;
      UpdateKeepsOthers(rf, p, MergeAction(rf[p], last));
      assert Filter([last], NotMerged) == [];
    } else {
      FilterAppend(rf, [last], NotMerged);
    }
  }

  lemma {:induction false} UpdateKeepsOthers(s: seq<Item>, p: nat, y: Item)
    requires p < |s| && Key(s[p]).Some? && Key(y).Some?
    ensures Filter(s[p := y], NotMerged) == Filter(s, NotMerged)
  {
    var t := s[p := y];
    assert s == s[..p] + [s[p]] + s[p + 1..];
    assert t == s[..p] + [y] + s[p + 1..];
    FilterAppend(s[..p] + [s[p]], s[p + 1..], NotMerged);
    FilterAppend(s[..p], [s[p]], NotMerged);
    FilterAppend(s[..p] + [y], s[p + 1..], NotMerged);
    FilterAppend(s[..p], [y], NotMerged);
    assert Filter([y], NotMerged) == [] == Filter([s[p]], NotMerged);
  }

  /** No two merged touchActions share a command: each is the first with its command. */
  lemma {:induction false} MergedKeysDistinct(items: seq<Item>, k: nat)
    requires k < |MergeDuplicates(items)| && Key(MergeDuplicates(items)[k]).Some?
    ensures FirstWithKey(MergeDuplicates(items), Key(MergeDuplicates(items)[k]).value) == Some(k)
    decreases |items|
  {
    var front, last := items[..|items| - 1], items[|items| - 1];
    var rf := MergeDuplicates(front);
    var r := MergeDuplicates(items);
    var c := Key(r[k]).value;
    if Key(last).Some? && FirstWithKey(rf, Key(last).value).Some? {
      var p := FirstWithKey(rf, Key(last).value).value;
      FirstWithKeyUpdate(rf, p, MergeAction(rf[p], last), c);
      assert Key(rf[k]) == Key(r[k]);
      MergedKeysDistinct(front, k);
    } else {
      FirstWithKeyAppend(rf, last, c);
      if k < |rf| {
        assert rf[k] == r[k];
        MergedKeysDistinct(front, k);
      }
    }
  }

  /** A command no input touchAction carries is carried by no merged one. */
  lemma {:induction false} MergedNoEntry(items: seq<Item>, c: string)
    requires FirstWithKey(items, c).None?
    ensures FirstWithKey(MergeDuplicates(items), c).None?
    decreases |items|
  {
    if items != [] {
      var front, last := items[..|items| - 1], items[|items| - 1];
      assert items == front + [last];
      FirstWithKeyAppend(front, last, c);
      MergedNoEntry(front, c);
      var rf := MergeDuplicates(front);
      if Key(last).Some? && FirstWithKey(rf, Key(last).value).Some? {
        var p := FirstWithKey(rf, Key(last).value).value;
        FirstWithKeyUpdate(rf, p, MergeAction(rf[p], last), c);
      } else {
        FirstWithKeyAppend(rf, last, c);
      }
    }
  }

  lemma {:induction false} ActionsNone(items: seq<Item>, c: string)
    requires FirstWithKey(items, c).None?
    ensures Actions(items, c) == []
    decreases |items|
  {
    if items != [] {
      var front := items[..|items| - 1];
      assert items == front + [items[|items| - 1]];
      FirstWithKeyAppend(front, items[|items| - 1], c);
      ActionsNone(front, c);
    }
  }

  /**
   * `r` holds a touchAction for command `c` that is `first` except that its action array is
   * `actions` (missing when `first` had none and none was added).
   */
  predicate HoldsMerged(r: seq<Item>, c: string, first: Item, actions: seq<Item>) {
    FirstWithKey(r, c).Some?
    && r[FirstWithKey(r, c).value] == first.(action := r[FirstWithKey(r, c).value].action)
    && r[FirstWithKey(r, c).value].action.GetOr([]) == actions
  }

  /**
   * The touchAction for command `c` in the merged list is the first input touchAction with
   * that command, except that its action array is the concatenation of all their arrays.
   */
  lemma {:induction false} MergedEntry(items: seq<Item>, c: string)
    requires FirstWithKey(items, c).Some?
    ensures HoldsMerged(MergeDuplicates(items), c, items[FirstWithKey(items, c).value], Actions(items, c))
    decreases |items|
  {
    var front, last := items[..|items| - 1], items[|items| - 1];
    assert items == front + [last];
    FirstWithKeyAppend(front, last, c);
    var rf := MergeDuplicates(front);
    if FirstWithKey(front, c).Some? {
      MergedEntry(front, c);
      var i := FirstWithKey(front, c).value;
      assert items[i] == front[i];
      MergeStepEntry(rf, last, c, front[i], Actions(front, c));
    } else {
      MergedNoEntry(front, c);
      ActionsNone(front, c);
      FirstWithKeyAppend(rf, last, c);
      assert MergeDuplicates(items) == rf + [last];
    }
  }

  lemma {:induction false} MergeStepEntry(rf: seq<Item>, last: Item, c: string, first: Item, actions: seq<Item>)
    requires HoldsMerged(rf, c, first, actions)
    ensures HoldsMerged(MergeStep(rf, last), c, first,
                        actions + (if Key(last) == Some(c) then last.action.GetOr([]) else []))
  {
    var q := FirstWithKey(rf, c).value;
    if Key(last).Some? && FirstWithKey(rf, Key(last).value).Some? {
      var p := FirstWithKey(rf, Key(last).value).value;
      FirstWithKeyUpdate(rf, p, MergeAction(rf[p], last), c);
      if Key(last) == Some(c) {
        assert p == q;
      } else {
        assert p != q;
      }
    } else {
      FirstWithKeyAppend(rf, last, c);
      assert MergeStep(rf, last)[q] == rf[q];
    }
  }

  /** No touchAction of command `c` in `items` carries an action array. */
  predicate AllBare(items: seq<Item>, c: string)
    decreases |items|
  {
    items == []
    || (AllBare(items[..|items| - 1], c)
        && (Key(items[|items| - 1]) == Some(c) ==> items[|items| - 1].action.None?))
  }

  lemma {:induction false} AllBareMeans(items: seq<Item>, c: string)
    ensures AllBare(items, c)
      <==> forall k :: 0 <= k < |items| && Key(items[k]) == Some(c) ==> items[k].action.None?
    decreases |items|
  {
    if items != [] {
      var front := items[..|items| - 1];
      AllBareMeans(front, c);
      assert forall k :: 0 <= k < |front| ==> items[k] == front[k];
    }
  }

  /** A sequence without command `c` has no touchAction of `c` with an action array. */
  lemma AllBareNoEntry(items: seq<Item>, c: string)
    requires FirstWithKey(items, c).None?
    ensures AllBare(items, c)
  {
    AllBareMeans(items, c);
  }

  /** One merge step keeps the entry of `c` where it is; it gets an action array once `last` brings one. */
  lemma MergeStepBare(rf: seq<Item>, last: Item, c: string)
    requires FirstWithKey(rf, c).Some?
    ensures FirstWithKey(MergeStep(rf, last), c) == FirstWithKey(rf, c)
    ensures MergeStep(rf, last)[FirstWithKey(rf, c).value].action.None?
      == (rf[FirstWithKey(rf, c).value].action.None? && (Key(last) == Some(c) ==> last.action.None?))
  {
    var q := FirstWithKey(rf, c).value;
    if Key(last).Some? && FirstWithKey(rf, Key(last).value).Some? {
      var p := FirstWithKey(rf, Key(last).value).value;
      FirstWithKeyUpdate(rf, p, MergeAction(rf[p], last), c);
      if Key(last) == Some(c) {
        assert p == q;
      } else {
        assert p != q;
      }
    } else {
      FirstWithKeyAppend(rf, last, c);
      assert MergeStep(rf, last)[q] == rf[q];
    }
  }

  /**
   * The merged entry of command `c` still has no action array exactly when no touchAction of
   * `c` had one.
   */
  lemma {:induction false} MergedActionMissing(items: seq<Item>, c: string)
    requires FirstWithKey(items, c).Some?
    ensures FirstWithKey(MergeDuplicates(items), c).Some?
    ensures MergeDuplicates(items)[FirstWithKey(MergeDuplicates(items), c).value].action.None?
      == AllBare(items, c)
    decreases |items|
  {
    var front, last := items[..|items| - 1], items[|items| - 1];
    assert items == front + [last];
    FirstWithKeyAppend(front, last, c);
    var rf := MergeDuplicates(front);
    if FirstWithKey(front, c).Some? {
      MergedActionMissing(front, c);
      MergeStepBare(rf, last, c);
    } else {
      MergedNoEntry(front, c);
      AllBareNoEntry(front, c);
      FirstWithKeyAppend(rf, last, c);
      assert MergeDuplicates(items) == rf + [last];
    }
  }

  /**
   * The touchAction at `j` is the one the merge throws on: it has no action array, an earlier
   * touchAction has its command, and none of those earlier ones has an action array.
   */
  predicate ThrowsAt(items: seq<Item>, j: nat)
    requires j < |items|
  {
    Key(items[j]).Some? && items[j].action.None?
    && FirstWithKey(items[..j], Key(items[j]).value).Some?
    && AllBare(items[..j], Key(items[j]).value)
  }

  /** The merge's last turn throws exactly when the last touchAction is one it throws on. */
  lemma LastStepThrows(items: seq<Item>)
    requires items != []
    ensures StepThrows(MergeDuplicates(items[..|items| - 1]), items[|items| - 1])
      == ThrowsAt(items, |items| - 1)
  {
    var front, last := items[..|items| - 1], items[|items| - 1];
    if Key(last).Some? {
      var c := Key(last).value;
      if FirstWithKey(front, c).Some? {
        MergedActionMissing(front, c);
      } else {
        MergedNoEntry(front, c);
      }
    }
  }

  lemma ThrowsAtFront(items: seq<Item>, j: nat)
    requires j < |items| - 1
    ensures ThrowsAt(items[..|items| - 1], j) == ThrowsAt(items, j)
  {
    assert items[..|items| - 1][..j] == items[..j];
  }

  /** The import fails in the merge exactly when some touchAction is one it throws on. */
  lemma {:induction false} MergeThrowsExactly(items: seq<Item>)
    ensures MergeThrows(items) <==> exists j :: 0 <= j < |items| && ThrowsAt(items, j)
    decreases |items|
  {
    if items != [] {
      var n := |items| - 1;
      MergeThrowsExactly(items[..n]);
      LastStepThrows(items);
      forall j | 0 <= j < n
        ensures ThrowsAt(items[..n], j) == ThrowsAt(items, j)
      {
        ThrowsAtFront(items, j);
      }
    }
  }

  /** Two touchActions with one command and no action arrays make the import fail. */
  lemma TwoBareDuplicatesThrow(first: Item, second: Item)
    requires Key(first).Some? && Key(first) == Key(second)
    requires first.action.None? && second.action.None?
    ensures MergeThrows([first, second])
  {
    assert [first, second][..1] == [first];
    assert [first][..0] == [];
  }

  // ---------------------------------------------------------------------------------------
  // Index clean-up

  /**
   * One item of the clean-up loop: None when it is dropped. An index below 1 drops the item;
   * an index makes it indexed with a default name `idx_<idx>`; without one, an item other
   * than a touchActionInput loses its `indexed` and `idxName` fields; a command gives a
   * default command name equal to the command.
   */
  function CleanIdx(it: Item): (r: Option<Item>)
    ensures r.None? <==> it.idx.Some? && it.idx.value < 1
    ensures r.Some? ==> r.value.kind == it.kind && r.value.idx == it.idx && r.value.cmd == it.cmd
    ensures r.Some? && it.idx.Some? ==> r.value.indexed && r.value.idxName != ""
    ensures r.Some? && it.idx.Some? && it.idx.value >= 1 && it.idxName == "" ==>
      r.value.idxName == "idx_" + NatToString(it.idx.value)
    ensures r.Some? && it.idx.Some? && it.idxName != "" ==> r.value.idxName == it.idxName
    ensures r.Some? && it.idx.None? && it.kind != TouchActionInput ==> !r.value.indexed && r.value.idxName == ""
    ensures r.Some? && it.cmd != "" ==> r.value.cmdName != ""
    ensures r.Some? && it.cmdName != "" ==> r.value.cmdName == it.cmdName
  {
    if it.idx.Some? && it.idx.value < 1 then None
    else
      var indexedItem :=
        if HasIdx(it) then
          it.(indexed := true, idxName := if it.idxName == "" then "idx_" + NatToString(it.idx.value) else it.idxName)
        else if it.kind != TouchActionInput then it.(indexed := false, idxName := "")
        else it;
      Some(if indexedItem.cmd != "" && indexedItem.cmdName == "" then indexedItem.(cmdName := indexedItem.cmd) else indexedItem)
  }

  /** Cleaning up an item that was already cleaned up changes nothing. */
  lemma {:induction false} CleanIdxIdempotent(it: Item)
    requires CleanIdx(it).Some?
    ensures CleanIdx(CleanIdx(it).value) == CleanIdx(it)
  {
  }

  /** The items the clean-up loop keeps, cleaned up, in order. */
  function CleanAll(items: seq<Item>): (r: seq<Item>)
    ensures |r| <= |items|
    decreases |items|
  {
    if items == [] then []
    else
      var rest := CleanAll(items[..|items| - 1]);
      match CleanIdx(items[|items| - 1])
      case None => rest
      case Some(c) => rest + [c]
  }

  /** The clean-up loop, pushing each kept item onto a new list. */
  method CleanUpIdx(items: seq<Item>) returns (r: seq<Item>)
    ensures r == CleanAll(items)
  {
    r := [];
    var i := 0;
    while i < |items|
      invariant 0 <= i <= |items| && r == CleanAll(items[..i])
    {
      assert items[..i + 1][..i] == items[..i];
      var it := items[i];
      if it.idx.Some? && it.idx.value < 1 {
        // skipped
      } else {
        if HasIdx(it) {
          it := it.(indexed := true);
          if it.idxName == "" {
            it := it.(idxName := "idx_" + NatToString(it.idx.value));
          }
        } else if it.kind != TouchActionInput {
          it := it.(indexed := false, idxName := "");
        }
        if it.cmd != "" && it.cmdName == "" {
          it := it.(cmdName := it.cmd);
        }
        r := r + [it];
      }
      i := i + 1;
    }
    assert items[..i] == items;
  }

  /** Every kept item has an index of at least 1 or none, and an index makes it indexed. */
  lemma {:induction false} CleanAllValid(items: seq<Item>, x: Item)
    requires x in CleanAll(items)
    ensures x.idx.Some? ==> x.idx.value >= 1 && x.indexed && x.idxName != ""
    ensures x.cmd != "" ==> x.cmdName != ""
    decreases |items|
  {
    var rest := CleanAll(items[..|items| - 1]);
    if x in rest {
      CleanAllValid(items[..|items| - 1], x);
    }
  }

  /** Cleaning up a cleaned-up list changes nothing. */
  lemma {:induction false} CleanAllIdempotent(items: seq<Item>)
    ensures CleanAll(CleanAll(items)) == CleanAll(items)
    decreases |items|
  {
    if items != [] {
      var front := items[..|items| - 1];
      CleanAllIdempotent(front);
      var rest := CleanAll(front);
      match CleanIdx(items[|items| - 1]) {
        case None =>
        case Some(c) =>
          CleanIdxIdempotent(items[|items| - 1]);
          assert (rest + [c])[..|rest|] == rest;
      }
    }
  }
}
