/**
 * The add-item editor page: the helpers that shorten labels, invent fresh index and
 * command names, collect the names a drawing already uses, classify item types, read
 * boolean fields, and fold the drawing's items into the list of indexed items that the
 * hide, unhide and erase pickers offer.
 */
module AddItem {
  import opened Wrappers
  import opened Text
  import opened Js
  import opened DrawingItems

  // ---------------------------------------------------------------------------------------
  // Labels

  /** The default `maxLength` of `truncateText`. */
  const DefaultMaxLength: nat := 10

  /**
   * `truncateText`: text longer than `maxLength` is cut to its first `maxLength` characters
   * followed by "..."; shorter text, and the empty text, come back as they are.
   */
  function TruncateText(text: string, maxLength: nat): (r: string)
    ensures |text| <= maxLength ==> r == text
    ensures |text| > maxLength ==>
      |r| == maxLength + 3 && r[..maxLength] == text[..maxLength] && r[maxLength..] == "..."
  {
    if text == [] then []
    else if |text| > maxLength then text[..maxLength] + "..."
    else text
  }

  /** Cutting a label a second time changes nothing: the cut label already ends in "...". */
  lemma TruncateIdempotent(text: string, maxLength: nat)
    ensures TruncateText(TruncateText(text, maxLength), maxLength) == TruncateText(text, maxLength)
  {
    var r := TruncateText(text, maxLength);
    if |text| > maxLength {
      assert r == text[..maxLength] + "...";
      assert r[..maxLength] + "..." == r;
    }
  }

  // ---------------------------------------------------------------------------------------
  // Fresh names

  /** The candidate name `<prefix><n>`. */
  function Candidate(prefix: string, n: nat): string {
    prefix + NatToString(n)
  }

  /** The names of a list, as a set. */
  function NameSet(names: seq<string>): set<string> {
    set x | x in names
  }

  /** `<prefix><n>` is free and every candidate before it is taken. */
  predicate FirstFree(prefix: string, existing: seq<string>, n: nat) {
    n >= 1 && Candidate(prefix, n) !in existing
    && forall m: nat :: 1 <= m < n ==> Candidate(prefix, m) in existing
  }

  /**
   * The counting loop of `generateUniqueIndexName` and `generateUniqueTouchZoneCommandName`:
   * `<prefix>1`, `<prefix>2`, ... until one is not taken. The result is the first free
   * candidate.
   */
  method FirstFreeName(prefix: string, existing: seq<string>) returns (name: string)
    ensures name !in existing
    ensures exists n: nat :: FirstFree(prefix, existing, n) && name == Candidate(prefix, n)
  {
    var counter: nat := 1;
    name := Candidate(prefix, counter);
    assert Tried(prefix, 1) == {};
    while name in existing
      invariant counter >= 1 && name == Candidate(prefix, counter)
      invariant Tried(prefix, counter) <= NameSet(existing)
      decreases |NameSet(existing) - Tried(prefix, counter)|
    {
      TriedStep(prefix, counter, NameSet(existing));
      counter := counter + 1;
      name := Candidate(prefix, counter);
    }
    TriedTaken(prefix, counter, existing);
    assert FirstFree(prefix, existing, counter);
  }

  /** Every candidate tried was taken. */
  lemma TriedTaken(prefix: string, counter: nat, existing: seq<string>)
    requires Tried(prefix, counter) <= NameSet(existing)
    ensures forall m: nat :: 1 <= m < counter ==> Candidate(prefix, m) in existing
  {
    forall m: nat | 1 <= m < counter
      ensures Candidate(prefix, m) in existing
    {
      assert Candidate(prefix, m) in Tried(prefix, counter);
    }
  }

  /** The candidates before `<prefix><counter>`. */
  function Tried(prefix: string, counter: nat): set<string> {
    set m: nat | 1 <= m < counter :: Candidate(prefix, m)
  }

  /** Trying one more taken candidate leaves fewer taken names untried. */
  lemma TriedStep(prefix: string, counter: nat, taken: set<string>)
    requires counter >= 1 && Tried(prefix, counter) <= taken && Candidate(prefix, counter) in taken
    ensures Tried(prefix, counter + 1) == Tried(prefix, counter) + {Candidate(prefix, counter)}
    ensures Tried(prefix, counter + 1) <= taken
    ensures |taken - Tried(prefix, counter + 1)| < |taken - Tried(prefix, counter)|
  {
    var c := Candidate(prefix, counter);
    var before := Tried(prefix, counter);
    FreshCandidate(prefix, counter);
    assert Tried(prefix, counter + 1) == before + {c};
    var left := taken - before;
    assert left == (left - {c}) + {c};
    assert taken - (before + {c}) == left - {c};
  }

  /** The next candidate is none of the ones before it. */
  lemma FreshCandidate(prefix: string, counter: nat)
    ensures Candidate(prefix, counter) !in Tried(prefix, counter)
  {
    if Candidate(prefix, counter) in Tried(prefix, counter) {
      var m: nat :| 1 <= m < counter && Candidate(prefix, m) == Candidate(prefix, counter);
      PrefixedNumberInjective(prefix, m, counter);
    }
  }

  /** `generateUniqueIndexName`: the first of `idx_1`, `idx_2`, ... not among `existingIdxNames`. */
  method GenerateUniqueIndexName(existingIdxNames: seq<string>) returns (name: string)
    ensures name !in existingIdxNames
    ensures exists n: nat :: FirstFree("idx_", existingIdxNames, n) && name == Candidate("idx_", n)
  {
    name := FirstFreeName("idx_", existingIdxNames);
  }

  /** `generateUniqueTouchZoneCommandName`: the first of `cmd_c1`, `cmd_c2`, ... not among `existingCmdNames`. */
  method GenerateUniqueTouchZoneCommandName(existingCmdNames: seq<string>) returns (name: string)
    ensures name !in existingCmdNames
    ensures exists n: nat :: FirstFree("cmd_c", existingCmdNames, n) && name == Candidate("cmd_c", n)
  {
    name := FirstFreeName("cmd_c", existingCmdNames);
  }

  /** `generateInsertDwgCommandName`: `dwg_<name>`, or "" without a drawing name. */
  function GenerateInsertDwgCommandName(drawingName: string): (r: string)
    ensures r == "" <==> drawingName == ""
    ensures drawingName != "" ==> |r| == 4 + |drawingName| && r[..4] == "dwg_" && r[4..] == drawingName
  {
    if drawingName == "" then "" else "dwg_" + drawingName
  }

  /** Different drawings get different insertDwg command names. */
  lemma InsertDwgCommandNameInjective(a: string, b: string)
    requires GenerateInsertDwgCommandName(a) == GenerateInsertDwgCommandName(b)
    ensures a == b
  {
    if a != "" {
      assert GenerateInsertDwgCommandName(a)[4..] == a;
    }
  }

  // ---------------------------------------------------------------------------------------
  // The names a drawing already uses

  /**
   * Whether an item adds its name to the list of index names (`cmd` false) or to the list of
   * command names (`cmd` true): any item with an index name except the erase, hide, unhide
   * and touchActionInput commands, which only refer to one; touchZones and insertDwgs with a
   * command name.
   */
  predicate NameSource(it: Item, cmd: bool) {
    if cmd then (it.kind == TouchZone || it.kind == InsertDwg) && it.cmdName != ""
    else it.idxName != "" && it.kind != Erase && it.kind != Hide && it.kind != Unhide && it.kind != TouchActionInput
  }

  function NameOf(it: Item, cmd: bool): string {
    if cmd then it.cmdName else it.idxName
  }

  /** Some item of the drawing adds `x` to the list. */
  predicate Contributes(items: seq<Item>, x: string, cmd: bool) {
    exists k :: 0 <= k < |items| && NameSource(items[k], cmd) && NameOf(items[k], cmd) == x
  }

  predicate Distinct(s: seq<string>) {
    forall i, j :: 0 <= i < j < |s| ==> s[i] != s[j]
  }

  /** The names the first `n` items add, each once, in the order they first appear. */
  function Collected(items: seq<Item>, n: nat, cmd: bool): seq<string>
    requires n <= |items|
  {
    if n == 0 then []
    else
      var prev := Collected(items, n - 1, cmd);
      if NameSource(items[n - 1], cmd) && NameOf(items[n - 1], cmd) !in prev then prev + [NameOf(items[n - 1], cmd)]
      else prev
  }

  /** The collected names have no repeats, and they are exactly the names the items add. */
  lemma {:induction false} CollectedNames(items: seq<Item>, n: nat, cmd: bool)
    requires n <= |items|
    ensures Distinct(Collected(items, n, cmd))
    ensures forall x :: x in Collected(items, n, cmd) <==> Contributes(items[..n], x, cmd)
  {
    if n > 0 {
      CollectedNames(items, n - 1, cmd);
      var prev := Collected(items, n - 1, cmd);
      assert items[..n] == items[..n - 1] + [items[n - 1]];
      forall x
        ensures Contributes(items[..n], x, cmd) <==>
          (Contributes(items[..n - 1], x, cmd) || (NameSource(items[n - 1], cmd) && NameOf(items[n - 1], cmd) == x))
      {
        if Contributes(items[..n], x, cmd) {
          var k :| 0 <= k < n && NameSource(items[..n][k], cmd) && NameOf(items[..n][k], cmd) == x;
          if k < n - 1 {
            assert items[..n - 1][k] == items[..n][k];
          }
        }
        if Contributes(items[..n - 1], x, cmd) {
          var k :| 0 <= k < n - 1 && NameSource(items[..n - 1][k], cmd) && NameOf(items[..n - 1][k], cmd) == x;
          assert items[..n][k] == items[..n - 1][k];
        }
        if NameSource(items[n - 1], cmd) && NameOf(items[n - 1], cmd) == x {
          assert items[..n][n - 1] == items[n - 1];
        }
      }
    }
  }

  /** `list.indexOf(x)`: the first position of `x`, or -1. */
  function IndexOfName(s: seq<string>, x: string): (r: int)
    ensures -1 <= r < |s|
    ensures r == -1 <==> x !in s
    ensures r >= 0 ==> s[r] == x && forall j :: 0 <= j < r ==> s[j] != x
  {
    if s == [] then -1
    else if s[0] == x then 0
    else
      var r := IndexOfName(s[1..], x);
      if r == -1 then -1 else r + 1
  }

  /** `indexOf` then `splice(i, 1)` when found. */
  function RemoveName(s: seq<string>, x: string): seq<string> {
    var k := IndexOfName(s, x);
    if k < 0 then s else s[..k] + s[k + 1..]
  }

  /** Taking a name out of a list without repeats leaves every other name and only those, still without repeats. */
  lemma RemoveNameOfDistinct(s: seq<string>, x: string)
    requires Distinct(s)
    ensures Distinct(RemoveName(s, x))
    ensures forall y :: y in RemoveName(s, x) <==> y in s && y != x
  {
    var k := IndexOfName(s, x);
    if k >= 0 {
      SpliceOutDistinct(s, k);
      SpliceOutMembers(s, k);
    }
  }

  /** Splicing out one position of a list without repeats leaves a list without repeats. */
  lemma SpliceOutDistinct(s: seq<string>, k: nat)
    requires Distinct(s) && k < |s|
    ensures Distinct(s[..k] + s[k + 1..])
  {
    var r := s[..k] + s[k + 1..];
    forall i, j | 0 <= i < j < |r|
      ensures r[i] != r[j]
    {
      var i', j' := if i < k then i else i + 1, if j < k then j else j + 1;
      assert r[i] == s[i'] && r[j] == s[j'];
    }
  }

  /** Splicing out the only occurrence of a value leaves everything else. */
  lemma SpliceOutMembers<T>(s: seq<T>, k: nat)
    requires k < |s| && s[k] !in s[..k] && s[k] !in s[k + 1..]
    ensures forall y :: y in s[..k] + s[k + 1..] <==> y in s && y != s[k]
  {
    assert s == s[..k] + [s[k]] + s[k + 1..];
  }

  /** The name the edited item gives up: its index name, and its command name when it is a touchZone or an insertDwg. */
  function OwnName(editing: Option<Item>, cmd: bool): string {
    match editing
    case None => ""
    case Some(it) =>
      if !cmd then it.idxName
      else if it.kind == TouchZone || it.kind == InsertDwg then it.cmdName
      else ""
  }

  /** The list `buildExistingNameLists` leaves: the collected names without the edited item's own. */
  function ExistingNames(items: seq<Item>, editing: Option<Item>, cmd: bool): seq<string> {
    var all := Collected(items, |items|, cmd);
    if OwnName(editing, cmd) == "" then all else RemoveName(all, OwnName(editing, cmd))
  }

  /**
   * The existing names have no repeats; they are the names some item adds, other than the
   * edited item's own. No index name comes from an erase, hide, unhide or touchActionInput
   * item, and command names come only from touchZones and insertDwgs.
   */
  lemma ExistingNamesExact(items: seq<Item>, editing: Option<Item>, cmd: bool)
    ensures Distinct(ExistingNames(items, editing, cmd))
    ensures forall x :: x in ExistingNames(items, editing, cmd) <==>
      Contributes(items, x, cmd) && x != OwnName(editing, cmd)
  {
    CollectedNames(items, |items|, cmd);
    assert items[..|items|] == items;
    var all := Collected(items, |items|, cmd);
    if OwnName(editing, cmd) != "" {
      RemoveNameOfDistinct(all, OwnName(editing, cmd));
    } else {
      forall x | Contributes(items, x, cmd)
        ensures x != ""
      {
        var k :| 0 <= k < |items| && NameSource(items[k], cmd) && NameOf(items[k], cmd) == x;
      }
    }
  }

  /**
   * `buildExistingNameLists`: one pass over the items collecting index names and command
   * names, each once; when an item is being edited, its own names are then taken out.
   */
  method BuildExistingNameLists(items: seq<Item>, editing: Option<Item>)
    returns (existingIdxNames: seq<string>, existingCmdNames: seq<string>)
    ensures existingIdxNames == ExistingNames(items, editing, false)
    ensures existingCmdNames == ExistingNames(items, editing, true)
  {
    existingIdxNames := [];
    existingCmdNames := [];
    var i := 0;
    while i < |items|
      invariant i <= |items|
      invariant existingIdxNames == Collected(items, i, false) && existingCmdNames == Collected(items, i, true)
    {
      var item := items[i];
      if item.idxName != "" && item.kind != Erase && item.kind != Hide && item.kind != Unhide && item.kind != TouchActionInput {
        if item.idxName !in existingIdxNames {
          existingIdxNames := existingIdxNames + [item.idxName];
        }
      }
      if (item.kind == TouchZone || item.kind == InsertDwg) && item.cmdName != "" {
        if item.cmdName !in existingCmdNames {
          existingCmdNames := existingCmdNames + [item.cmdName];
        }
      }
      i := i + 1;
    }
    if editing.Some? {
      var editingItem := editing.value;
      if editingItem.idxName != "" {
        var idxIndex := IndexOfName(existingIdxNames, editingItem.idxName);
        if idxIndex > -1 {
          existingIdxNames := existingIdxNames[..idxIndex] + existingIdxNames[idxIndex + 1..];
        }
      }
      if editingItem.cmdName != "" && (editingItem.kind == TouchZone || editingItem.kind == InsertDwg) {
        var cmdIndex := IndexOfName(existingCmdNames, editingItem.cmdName);
        if cmdIndex > -1 {
          existingCmdNames := existingCmdNames[..cmdIndex] + existingCmdNames[cmdIndex + 1..];
        }
      }
    }
  }

  // ---------------------------------------------------------------------------------------
  // Item type categories

  /** `isIndexableItem`: the drawing primitives that can carry an index. */
  predicate IsIndexableItem(kind: string) {
    kind in ["line", "rectangle", "circle", "arc", "label", "value"]
  }

  /** `isSpecialItem`. */
  predicate IsSpecialItem(kind: string) {
    kind in [TouchZone, InsertDwg, Index]
  }

  /** `isControlItem`. */
  predicate IsControlItem(kind: string) {
    kind in ["pushZero", "popZero", Erase, Hide, Unhide]
  }

  /** No type is in two of the three categories, and the visibility commands are control items. */
  lemma CategoriesDisjoint(kind: string)
    ensures !(IsIndexableItem(kind) && IsSpecialItem(kind))
    ensures !(IsIndexableItem(kind) && IsControlItem(kind))
    ensures !(IsSpecialItem(kind) && IsControlItem(kind))
    ensures IsVisibilityCommand(kind) ==> IsControlItem(kind)
  {
  }

  // ---------------------------------------------------------------------------------------
  // Boolean fields

  /** `checkBool`: a field reads as true only when it is the boolean true or the text "true". */
  function CheckBool(value: JsValue): (r: bool)
    ensures r <==> value == Bool(true) || value == Str("true")
  {
    if Truthy(value) then
      if value.Bool? then value.b else value == Str("true")
    else false
  }

  // ---------------------------------------------------------------------------------------
  // The indexed items offered to hide, unhide and erase

  /**
   * An entry of `indexedItemsMap`: the item as it now stands, its position in the drawing,
   * its index name and index, and for an entry made by an index item the `visible: true`
   * mark such entries carry (None on an entry made by any other item).
   */
  datatype IndexedEntry = IndexedEntry(item: Item, globalIndex: nat, idxName: string, idx: Option<int>, visible: Option<bool>)

  /** A JavaScript `Map` from index names to entries: the entries and the order of their keys. */
  datatype IndexedMap = IndexedMap(keys: seq<string>, entries: map<string, IndexedEntry>)

  /** The keys are listed once each, the listed keys are the map's, and each entry is filed under its own index name. */
  ghost predicate ValidMap(m: IndexedMap) {
    Distinct(m.keys)
    && (forall k :: k in m.keys <==> k in m.entries)
    && forall k :: k in m.entries ==> m.entries[k].idxName == k
  }

  /** The items the fold looks at: a non-blank index name, not a touchActionInput, not temporary. */
  predicate Eligible(it: Item) {
    !AllSpace(it.idxName) && it.kind != TouchActionInput && !it.isTemporary
  }

  /** `map.set(k, e)`: a new key goes last, an existing key keeps its place. */
  function MapSet(m: IndexedMap, k: string, e: IndexedEntry): IndexedMap {
    IndexedMap(if k in m.entries then m.keys else m.keys + [k], m.entries[k := e])
  }

  /** The list without any occurrence of `k`. */
  function DropKey(keys: seq<string>, k: string): (r: seq<string>)
    ensures forall y :: y in r <==> y in keys && y != k
  {
    if keys == [] then []
    else if keys[0] == k then DropKey(keys[1..], k)
    else [keys[0]] + DropKey(keys[1..], k)
  }

  /** Dropping a key from a list without repeats leaves a list without repeats. */
  lemma {:induction false} DropKeyDistinct(keys: seq<string>, k: string)
    requires Distinct(keys)
    ensures Distinct(DropKey(keys, k))
  {
    if keys != [] {
      var tail := keys[1..];
      assert Distinct(tail) by {
        forall i, j | 0 <= i < j < |tail|
          ensures tail[i] != tail[j]
        {
          assert tail[i] == keys[i + 1] && tail[j] == keys[j + 1];
        }
      }
      DropKeyDistinct(tail, k);
      if keys[0] != k {
        assert keys[0] !in tail;
        ConsDistinct(keys[0], DropKey(tail, k));
      }
    }
  }

  /** A name in front of a list without repeats that does not hold it. */
  lemma ConsDistinct(x: string, s: seq<string>)
    requires Distinct(s) && x !in s
    ensures Distinct([x] + s)
  {
    var r := [x] + s;
    forall i, j | 0 <= i < j < |r|
      ensures r[i] != r[j]
    {
      assert r[j] == s[j - 1];
      if i > 0 {
        assert r[i] == s[i - 1];
      }
    }
  }

  /** `map.delete(k)`. */
  function MapDelete(m: IndexedMap, k: string): IndexedMap {
    IndexedMap(DropKey(m.keys, k), m.entries - {k})
  }

  /** The entry's item with `visible` set. */
  function WithVisible(e: IndexedEntry, v: bool): IndexedEntry {
    e.(item := e.item.(visible := Some(v)))
  }

  /** What one item of the drawing, at position `globalIndex`, does to the map. */
  function FoldStep(m: IndexedMap, it: Item, globalIndex: nat): IndexedMap {
    var k := it.idxName;
    if !Eligible(it) then m
    else if it.kind == Hide then
      (if k in m.entries then IndexedMap(m.keys, m.entries[k := WithVisible(m.entries[k], false)]) else m)
    else if it.kind == Unhide then
      (if k in m.entries then IndexedMap(m.keys, m.entries[k := WithVisible(m.entries[k], true)]) else m)
    else if it.kind == Erase then MapDelete(m, k)
    else if it.kind == Index then
      (if k in m.entries then m else MapSet(m, k, IndexedEntry(it, globalIndex, k, it.idx, Some(true))))
    else
      var existingVisible := if k in m.entries then m.entries[k].item.visible else it.visible;
      MapSet(m, k, IndexedEntry(it.(visible := existingVisible), globalIndex, k, it.idx, None))
  }

  /** The map after the first `n` items. */
  function FoldUpTo(items: seq<Item>, n: nat): IndexedMap
    requires n <= |items|
  {
    if n == 0 then IndexedMap([], map[])
    else FoldStep(FoldUpTo(items, n - 1), items[n - 1], n - 1)
  }

  /** Every prefix of the fold is a well-formed map: keys without repeats, each with its entry. */
  lemma {:induction false} FoldUpToValid(items: seq<Item>, n: nat)
    requires n <= |items|
    ensures ValidMap(FoldUpTo(items, n))
  {
    if n == 0 {
      assert FoldUpTo(items, n) == IndexedMap([], map[]);
    } else {
      var prev := FoldUpTo(items, n - 1);
      FoldUpToValid(items, n - 1);
      FoldStepValid(prev, items[n - 1], n - 1);
      assert FoldUpTo(items, n) == FoldStep(prev, items[n - 1], n - 1);
    }
  }

  /** `Array.from(map.values())`: the entries in the order of their keys (a key without an entry, which a well-formed map has not, is passed over). */
  function Values(m: IndexedMap): (r: seq<IndexedEntry>)
    ensures (forall k :: k in m.keys ==> k in m.entries) ==>
      |r| == |m.keys| && forall i :: 0 <= i < |r| ==> r[i] == m.entries[m.keys[i]]
    decreases |m.keys|
  {
    if m.keys == [] then []
    else
      var rest := Values(IndexedMap(m.keys[1..], m.entries));
      if m.keys[0] in m.entries then [m.entries[m.keys[0]]] + rest else rest
  }

  /** Each step keeps the map well formed. */
  lemma FoldStepValid(m: IndexedMap, it: Item, globalIndex: nat)
    requires ValidMap(m)
    ensures ValidMap(FoldStep(m, it, globalIndex))
  {
    var k := it.idxName;
    if Eligible(it) {
      if it.kind == Hide || it.kind == Unhide {
        if k in m.entries {
          UpdateValid(m, k, WithVisible(m.entries[k], it.kind == Unhide));
        }
      } else if it.kind == Erase {
        MapDeleteValid(m, k);
      } else if it.kind == Index {
        if k !in m.entries {
          MapSetValid(m, k, IndexedEntry(it, globalIndex, k, it.idx, Some(true)));
        }
      } else {
        var existingVisible := if k in m.entries then m.entries[k].item.visible else it.visible;
        MapSetValid(m, k, IndexedEntry(it.(visible := existingVisible), globalIndex, k, it.idx, None));
      }
    }
  }

  lemma MapSetValid(m: IndexedMap, k: string, e: IndexedEntry)
    requires ValidMap(m) && e.idxName == k
    ensures ValidMap(MapSet(m, k, e))
  {
    if k !in m.entries {
      assert k !in m.keys;
      forall i, j | 0 <= i < j < |m.keys + [k]|
        ensures (m.keys + [k])[i] != (m.keys + [k])[j]
      {
        assert (m.keys + [k])[i] == m.keys[i];
      }
    }
  }

  lemma MapDeleteValid(m: IndexedMap, k: string)
    requires ValidMap(m)
    ensures ValidMap(MapDelete(m, k))
  {
    DropKeyDistinct(m.keys, k);
  }

  lemma UpdateValid(m: IndexedMap, k: string, e: IndexedEntry)
    requires ValidMap(m) && k in m.entries && e.idxName == k
    ensures ValidMap(IndexedMap(m.keys, m.entries[k := e]))
  {
  }

  /**
   * The rules of one step: an item the fold skips, and a hide or unhide of a name the map
   * does not hold, change nothing; an erase removes the name; an index item adds its name
   * only when the name is absent; any other item puts its entry under its name and keeps
   * the visibility the name had. No other name is touched.
   */
  lemma FoldStepRules(m: IndexedMap, it: Item, globalIndex: nat)
    requires ValidMap(m)
    ensures var r := FoldStep(m, it, globalIndex);
      var k := it.idxName;
      (forall j :: j != k ==> (j in r.entries <==> j in m.entries) && (j in m.entries ==> r.entries[j] == m.entries[j]))
      && (!Eligible(it) ==> r == m)
      && (Eligible(it) && IsVisibilityCommand(it.kind) && it.kind != Erase && k !in m.entries ==> r == m)
      && (Eligible(it) && it.kind == Hide && k in m.entries ==> r.entries[k] == WithVisible(m.entries[k], false))
      && (Eligible(it) && it.kind == Unhide && k in m.entries ==> r.entries[k] == WithVisible(m.entries[k], true))
      && (Eligible(it) && it.kind == Erase ==> k !in r.entries && k !in r.keys)
      && (Eligible(it) && it.kind == Index && k in m.entries ==> r == m)
      && (Eligible(it) && it.kind == Index && k !in m.entries ==> k in r.entries && r.keys == m.keys + [k])
      && (Eligible(it) && !IsVisibilityCommand(it.kind) && it.kind != Index ==>
            k in r.entries && r.entries[k].globalIndex == globalIndex
            && r.entries[k].item == it.(visible := if k in m.entries then m.entries[k].item.visible else it.visible)
            && (k in m.entries ==> r.keys == m.keys))
  {
  }

  /**
   * An erase is final unless the name comes back: if after an eligible erase of a name at
   * position `j` no later eligible item carries that name except hide, unhide and erase
   * commands, the name is not among the offered entries.
   */
  lemma {:induction false} EraseIsFinal(items: seq<Item>, j: nat, n: nat)
    requires j < n <= |items| && Eligible(items[j]) && items[j].kind == Erase
    requires forall i :: j < i < n && Eligible(items[i]) && items[i].idxName == items[j].idxName ==>
      IsVisibilityCommand(items[i].kind)
    ensures items[j].idxName !in FoldUpTo(items, n).entries
  {
    var k := items[j].idxName;
    if n - 1 > j {
      EraseIsFinal(items, j, n - 1);
      AbsentStays(FoldUpTo(items, n - 1), items[n - 1], n - 1, k);
    } else {
      assert FoldUpTo(items, n) == MapDelete(FoldUpTo(items, j), k);
    }
  }

  /** A name the map does not hold stays out through an item of another name or a hide, unhide or erase command. */
  lemma AbsentStays(m: IndexedMap, it: Item, globalIndex: nat, k: string)
    requires k !in m.entries
    requires Eligible(it) && it.idxName == k ==> IsVisibilityCommand(it.kind)
    ensures k !in FoldStep(m, it, globalIndex).entries
  {
  }

  /**
   * The fold in `populateIndexLists`: the drawing's items are run through `indexedItemsMap`
   * in order, and its values become the list the erase, hide and unhide pickers show.
   */
  method PopulateIndexedItems(items: seq<Item>) returns (indexedItems: seq<IndexedEntry>)
    ensures indexedItems == Values(FoldUpTo(items, |items|))
    ensures forall i, j :: 0 <= i < j < |indexedItems| ==> indexedItems[i].idxName != indexedItems[j].idxName
  {
    var keys: seq<string> := [];
    var entries: map<string, IndexedEntry> := map[];
    var globalIndex := 0;
    while globalIndex < |items|
      invariant globalIndex <= |items| && IndexedMap(keys, entries) == FoldUpTo(items, globalIndex)
    {
      var item := items[globalIndex];
      var k := item.idxName;
      if !AllSpace(k) && item.kind != TouchActionInput && !item.isTemporary {
        if item.kind == Hide && k != "" {
          if k in entries {
            entries := entries[k := WithVisible(entries[k], false)];
          }
        } else if item.kind == Unhide && k != "" {
          if k in entries {
            entries := entries[k := WithVisible(entries[k], true)];
          }
        } else if item.kind == Erase && k != "" {
          keys := DropKey(keys, k);
          entries := entries - {k};
        } else if item.kind == Index {
          if k !in entries {
            keys := keys + [k];
            entries := entries[k := IndexedEntry(item, globalIndex, k, item.idx, Some(true))];
          }
        } else {
          var existingVisible := if k in entries then entries[k].item.visible else item.visible;
          if k !in entries {
            keys := keys + [k];
          }
          entries := entries[k := IndexedEntry(item.(visible := existingVisible), globalIndex, k, item.idx, None)];
        }
      }
      globalIndex := globalIndex + 1;
    }
    indexedItems := Values(IndexedMap(keys, entries));
    FoldUpToValid(items, |items|);
    ValuesDistinct(IndexedMap(keys, entries));
  }

  /** The values of a well-formed map carry pairwise different index names. */
  lemma ValuesDistinct(m: IndexedMap)
    requires ValidMap(m)
    ensures var r := Values(m);
      forall i, j :: 0 <= i < j < |r| ==> r[i].idxName != r[j].idxName
  {
    var r := Values(m);
    forall i, j | 0 <= i < j < |r|
      ensures r[i].idxName != r[j].idxName
    {
      assert r[i].idxName == m.keys[i] && r[j].idxName == m.keys[j];
    }
  }
}
