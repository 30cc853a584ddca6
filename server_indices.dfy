/**
 * The server's `updateNumericIndices` on one drawing: command and index names are turned into
 * numbers on first appearance, touch actions and touch action inputs are linked to the numbers
 * of the names they refer to, and the ones whose references lead nowhere are removed.
 *
 * The three passes are modelled as three methods over the item list, each proved equal to a
 * specification function; the lemmas state what the finished list guarantees.
 */
module ServerIndices {
  import opened Wrappers
  import opened Text
  import opened Seqs
  import opened Splices
  import opened DrawingItems

  /**
   * The numbering state of one run: the number given to each command name and each index
   * name seen so far, and the two server-wide counters the next new name takes its number from.
   * A command number `n` is written into items as the command `cmd_c<n>`.
   */
  datatype Alloc = Alloc(cmdMap: map<string, nat>, idxMap: map<string, nat>, nextCmd: nat, nextIdx: nat)

  function CmdValue(n: nat): string {
    "cmd_c" + NatToString(n)
  }

  /** Distinct command numbers give distinct commands. */
  lemma {:induction false} CmdValueInjective(m: nat, n: nat)
    requires CmdValue(m) == CmdValue(n)
    ensures m == n
  {
    PrefixedNumberInjective("cmd_c", m, n);
  }

  /** Which of its names the first pass numbers for an item. */
  datatype Numbering = CmdRole | IdxRole | NoRole

  /**
   * The branch chain of the first pass: an insertDwg or touchZone numbers its command name; a
   * hide, unhide or erase its command name, else its index name; touch actions and touch
   * action inputs only refer to other items' names and number nothing; any other item its
   * index name when it is indexed, else its command name.
   */
  function Role(it: Item): Numbering {
    if it.kind == InsertDwg then (if it.cmdName != [] then CmdRole else NoRole)
    else if it.kind == TouchZone && it.cmdName != [] then CmdRole
    else if IsVisibilityCommand(it.kind) then
      (if it.cmdName != [] then CmdRole else if it.idxName != [] then IdxRole else NoRole)
    else if IsTouchChild(it) then NoRole
    else if it.indexed && it.idxName != [] then IdxRole
    else if it.cmdName != [] then CmdRole
    else NoRole
  }

  /**
   * The branch chain as the server writes it: nothing sets touch actions and touch action
   * inputs apart, so they reach the last two branches like any other item.
   */
  function RoleAsWritten(it: Item): Numbering {
    if IsTouchChild(it) then
      (if it.indexed && it.idxName != [] then IdxRole else if it.cmdName != [] then CmdRole else NoRole)
    else Role(it)
  }

  /** The command number for `name`, allocating the next one on its first appearance. */
  function CmdNumber(a: Alloc, name: string): (r: (Alloc, nat))
    ensures name in r.0.cmdMap && r.0.cmdMap[name] == r.1
  {
    if name in a.cmdMap then (a, a.cmdMap[name])
    else (a.(cmdMap := a.cmdMap[name := a.nextCmd], nextCmd := a.nextCmd + 1), a.nextCmd)
  }

  /** The index number for `name`, allocating the next one on its first appearance. */
  function IdxNumber(a: Alloc, name: string): (r: (Alloc, nat))
    ensures name in r.0.idxMap && r.0.idxMap[name] == r.1
  {
    if name in a.idxMap then (a, a.idxMap[name])
    else (a.(idxMap := a.idxMap[name := a.nextIdx], nextIdx := a.nextIdx + 1), a.nextIdx)
  }

  /** One step of the first pass: the item with its name numbered. */
  function Assign(a: Alloc, it: Item, role: Numbering): (Alloc, Item) {
    match role
    case NoRole => (a, it)
    case CmdRole => var (b, n) := CmdNumber(a, it.cmdName); (b, it.(cmd := CmdValue(n)))
    case IdxRole => var (b, n) := IdxNumber(a, it.idxName); (b, it.(idx := Some(n)))
  }

  /** The first pass over `items`, from state `a`, with `roleOf` choosing each item's branch. */
  function FirstPass(items: seq<Item>, a: Alloc, roleOf: Item -> Numbering): (r: (Alloc, seq<Item>))
    ensures |r.1| == |items|
    decreases |items|
  {
    if items == [] then (a, [])
    else
      var prev := FirstPass(items[..|items| - 1], a, roleOf);
      var last := items[|items| - 1];
      var step := Assign(prev.0, last, roleOf(last));
      (step.0, prev.1 + [step.1])
  }

  /** The state a run starts from: no names seen, the counters where the server left them. */
  function Start(nextCmd: nat, nextIdx: nat): Alloc {
    Alloc(map[], map[], nextCmd, nextIdx)
  }

  /**
   * First pass of `updateNumericIndices`: number each item's command or index name on its
   * first appearance and give every item carrying a name that name's number.
   */
  method AssignFirstAppearance(items: seq<Item>, a0: Alloc) returns (a: Alloc, r: seq<Item>)
    ensures (a, r) == FirstPass(items, a0, Role)
  {
    a := a0;
    r := items;
    var i := 0;
    while i < |items|
      invariant 0 <= i <= |items| && |r| == |items|
      invariant (a, r[..i]) == FirstPass(items[..i], a0, Role)
      invariant r[i..] == items[i..]
    {
      assert r[i] == items[i];
      var b, next := AssignItem(a, r[i]);
      FirstPassOneMore(items, a0, i);
      ReplaceNext(r, i, next);
      a, r := b, r[i := next];
      i := i + 1;
    }
    assert items[..i] == items;
    assert r[..i] == r;
  }

  /** One item of the first pass. */
  method AssignItem(a0: Alloc, it0: Item) returns (a: Alloc, it: Item)
    ensures (a, it) == Assign(a0, it0, Role(it0))
  {
    a, it := a0, it0;
    match Role(it) {
      case CmdRole =>
        if it.cmdName in a.cmdMap {
          it := it.(cmd := CmdValue(a.cmdMap[it.cmdName]));
        } else {
          var newCmd := a.nextCmd;
          a := a.(cmdMap := a.cmdMap[it.cmdName := newCmd], nextCmd := a.nextCmd + 1);
          it := it.(cmd := CmdValue(newCmd));
        }
      case IdxRole =>
        if it.idxName in a.idxMap {
          it := it.(idx := Some(a.idxMap[it.idxName]));
        } else {
          var newIdx := a.nextIdx;
          a := a.(idxMap := a.idxMap[it.idxName := newIdx], nextIdx := a.nextIdx + 1);
          it := it.(idx := Some(newIdx));
        }
      case NoRole =>
    }
  }

  lemma {:induction false} FirstPassOneMore(items: seq<Item>, a0: Alloc, i: nat)
    requires i < |items|
    ensures var prev := FirstPass(items[..i], a0, Role);
      var step := Assign(prev.0, items[i], Role(items[i]));
      FirstPass(items[..i + 1], a0, Role) == (step.0, prev.1 + [step.1])
  {
    assert items[..i + 1][..i] == items[..i];
  }

  /** Replacing element `i` extends the prefix before it by the new element and keeps what follows. */
  lemma {:induction false} ReplaceNext<T>(r: seq<T>, i: nat, x: T)
    requires i < |r|
    ensures r[i := x][..i + 1] == r[..i] + [x] && r[i := x][i + 1..] == r[i + 1..]
  {
  }

  // ---------------------------------------------------------------------------------------
  // What the first pass guarantees

  /** Every number in `m` lies in [lo, next), and no two names share one. */
  predicate FreshNumbers(m: map<string, nat>, lo: nat, next: nat) {
    lo <= next
    && (forall n :: n in m ==> lo <= m[n] < next)
    && (forall n, k :: n in m && k in m && m[n] == m[k] ==> n == k)
  }

  /** Every number given out lies in the range the counters moved over, and no two names share one. */
  predicate Fresh(a: Alloc, c0: nat, i0: nat) {
    FreshNumbers(a.cmdMap, c0, a.nextCmd) && FreshNumbers(a.idxMap, i0, a.nextIdx)
  }

  /** Giving a new name the next number keeps the numbers fresh. */
  lemma {:induction false} NewNumberFresh(m: map<string, nat>, lo: nat, next: nat, name: string)
    requires FreshNumbers(m, lo, next) && name !in m
    ensures FreshNumbers(m[name := next], lo, next + 1)
  {
    var m' := m[name := next];
    forall n, k | n in m' && k in m' && m'[n] == m'[k]
      ensures n == k
    {
      if n != name && k != name {
        assert m'[n] == m[n] && m'[k] == m[k];
      }
    }
  }

  /** `b` keeps every number `a` gave out. */
  predicate Extends(a: Alloc, b: Alloc) {
    (forall n :: n in a.cmdMap ==> n in b.cmdMap && b.cmdMap[n] == a.cmdMap[n])
    && (forall n :: n in a.idxMap ==> n in b.idxMap && b.idxMap[n] == a.idxMap[n])
  }

  /** The item carries the number of the name its branch numbers. */
  predicate Carries(a: Alloc, it: Item, role: Numbering) {
    (role == CmdRole ==> it.cmdName in a.cmdMap && it.cmd == CmdValue(a.cmdMap[it.cmdName]))
    && (role == IdxRole ==> it.idxName in a.idxMap && it.idx == Some(a.idxMap[it.idxName]))
  }

  /** `after` is `before` with at most its cmd and idx fields changed. */
  predicate Renumbered(before: Item, after: Item) {
    after == before.(cmd := after.cmd, idx := after.idx)
  }

  lemma {:induction false} AssignKeepsFresh(a: Alloc, it: Item, role: Numbering, c0: nat, i0: nat)
    requires Fresh(a, c0, i0)
    ensures Fresh(Assign(a, it, role).0, c0, i0) && Extends(a, Assign(a, it, role).0)
    ensures Carries(Assign(a, it, role).0, Assign(a, it, role).1, role)
    ensures Renumbered(it, Assign(a, it, role).1)
  {
    match role
    case NoRole =>
    case CmdRole =>
      if it.cmdName !in a.cmdMap {
        NewNumberFresh(a.cmdMap, c0, a.nextCmd, it.cmdName);
      }
    case IdxRole =>
      if it.idxName !in a.idxMap {
        NewNumberFresh(a.idxMap, i0, a.nextIdx, it.idxName);
      }
  }

  lemma {:induction false} ExtendsCarries(a: Alloc, b: Alloc, it: Item, role: Numbering)
    requires Extends(a, b) && Carries(a, it, role)
    ensures Carries(b, it, role)
  {
  }

  /**
   * After the first pass every item carries the number of the name its branch numbers, and
   * differs from the input item in nothing else; the numbers handed out are fresh and unique.
   */
  lemma {:induction false} FirstPassNumbers(items: seq<Item>, a: Alloc, roleOf: Item -> Numbering, c0: nat, i0: nat)
    requires Fresh(a, c0, i0)
    ensures var r := FirstPass(items, a, roleOf);
      Fresh(r.0, c0, i0) && Extends(a, r.0)
      && (forall k :: 0 <= k < |items| ==> Carries(r.0, r.1[k], roleOf(items[k])))
      && (forall k :: 0 <= k < |items| ==> Renumbered(items[k], r.1[k]))
    decreases |items|
  {
    if items != [] {
      var front := items[..|items| - 1];
      var last := items[|items| - 1];
      FirstPassNumbers(front, a, roleOf, c0, i0);
      var prev := FirstPass(front, a, roleOf);
      AssignKeepsFresh(prev.0, last, roleOf(last), c0, i0);
      var r := FirstPass(items, a, roleOf);
      forall k | 0 <= k < |items|
        ensures Carries(r.0, r.1[k], roleOf(items[k])) && Renumbered(items[k], r.1[k])
      {
        if k < |front| {
          assert r.1[k] == prev.1[k] && items[k] == front[k];
          ExtendsCarries(prev.0, r.0, prev.1[k], roleOf(front[k]));
        }
      }
    }
  }

  /**
   * The names the first pass numbers are exactly the names of the items whose branch numbers
   * them (besides those numbered before).
   */
  lemma {:induction false} FirstPassNames(items: seq<Item>, a: Alloc, roleOf: Item -> Numbering, name: string)
    ensures var r := FirstPass(items, a, roleOf);
      name in r.0.cmdMap <==>
        name in a.cmdMap || exists k :: 0 <= k < |items| && roleOf(items[k]) == CmdRole && items[k].cmdName == name
    decreases |items|
  {
    if items != [] {
      var front := items[..|items| - 1];
      FirstPassNames(front, a, roleOf, name);
      if exists k :: 0 <= k < |items| && roleOf(items[k]) == CmdRole && items[k].cmdName == name {
        var k :| 0 <= k < |items| && roleOf(items[k]) == CmdRole && items[k].cmdName == name;
        if k < |front| {
          assert front[k] == items[k];
          FirstPassGrows(items, a, roleOf);
        }
      } else {
        assert forall k :: 0 <= k < |front| ==> front[k] == items[k];
      }
    }
  }

  lemma {:induction false} FirstPassGrows(items: seq<Item>, a: Alloc, roleOf: Item -> Numbering)
    requires items != []
    ensures FirstPass(items[..|items| - 1], a, roleOf).0.cmdMap.Keys <= FirstPass(items, a, roleOf).0.cmdMap.Keys
  {
  }

  /** Two items numbering the same command name carry the same command. */
  lemma {:induction false} SameCmdNameSameCmd(items: seq<Item>, nextCmd: nat, nextIdx: nat, j: nat, k: nat)
    requires j < |items| && k < |items|
    requires Role(items[j]) == CmdRole && Role(items[k]) == CmdRole
    ensures var r := FirstPass(items, Start(nextCmd, nextIdx), Role).1;
      r[j].cmd == r[k].cmd <==> items[j].cmdName == items[k].cmdName
  {
    FirstPassNumbers(items, Start(nextCmd, nextIdx), Role, nextCmd, nextIdx);
    var a := FirstPass(items, Start(nextCmd, nextIdx), Role).0;
    var r := FirstPass(items, Start(nextCmd, nextIdx), Role).1;
    assert Renumbered(items[j], r[j]) && Renumbered(items[k], r[k]);
    if r[j].cmd == r[k].cmd {
      CmdValueInjective(a.cmdMap[items[j].cmdName], a.cmdMap[items[k].cmdName]);
    }
  }

  /** Two items numbering the same index name carry the same index, different names different ones. */
  lemma {:induction false} SameIdxNameSameIdx(items: seq<Item>, nextCmd: nat, nextIdx: nat, j: nat, k: nat)
    requires j < |items| && k < |items|
    requires Role(items[j]) == IdxRole && Role(items[k]) == IdxRole
    ensures var r := FirstPass(items, Start(nextCmd, nextIdx), Role).1;
      r[j].idx == r[k].idx <==> items[j].idxName == items[k].idxName
  {
    FirstPassNumbers(items, Start(nextCmd, nextIdx), Role, nextCmd, nextIdx);
    var r := FirstPass(items, Start(nextCmd, nextIdx), Role).1;
    assert Renumbered(items[j], r[j]) && Renumbered(items[k], r[k]);
  }

  // ---------------------------------------------------------------------------------------
  // Second pass: link touch actions and touch action inputs to their touch zone's command

  /** A touch action or touch action input naming a command that nothing numbered. */
  predicate Dangling(cmdMap: map<string, nat>, it: Item) {
    IsTouchChild(it) && it.cmdName != [] && it.cmdName !in cmdMap
  }

  /** A touch action or touch action input given the command of the name it refers to. */
  function Linked(cmdMap: map<string, nat>, it: Item): Item {
    if IsTouchChild(it) && it.cmdName in cmdMap && it.cmdName != [] then it.(cmd := CmdValue(cmdMap[it.cmdName]))
    else it
  }

  function LinkAll(items: seq<Item>, cmdMap: map<string, nat>): (r: seq<Item>)
    ensures |r| == |items| && forall k :: 0 <= k < |items| ==> r[k] == Linked(cmdMap, items[k])
  {
    Map(items, (it: Item) => Linked(cmdMap, it))
  }

  /** The second pass: every touch child linked, the dangling ones removed. */
  function SecondPass(items: seq<Item>, cmdMap: map<string, nat>): seq<Item> {
    Filter(LinkAll(items, cmdMap), (it: Item) => !Dangling(cmdMap, it))
  }

  /**
   * Second pass of `updateNumericIndices`: link each touch action and touch action input to
   * the command of its name, marking the ones whose name has no command, then splice the
   * marked ones out from the last to the first.
   */
  method LinkTouchCommands(items: seq<Item>, cmdMap: map<string, nat>) returns (r: seq<Item>)
    ensures r == SecondPass(items, cmdMap)
  {
    var linked := items;
    var marks: seq<int> := [];
    var i := 0;
    while i < |items|
      invariant LinkScan(cmdMap, items, linked, marks, i)
    {
      var next, dangling := LinkItem(linked[i], cmdMap);
      LinkScanStep(cmdMap, items, linked, marks, i);
      linked := linked[i := next];
      if dangling {
        marks := marks + [i];
      }
      i := i + 1;
    }
    ghost var marked := set k | 0 <= k < |items| && Dangling(cmdMap, items[k]);
    r := RemoveMarked(linked, marks, marked);
    LinkScanDone(cmdMap, items, linked, marks, marked, r);
  }

  /** One item of the second pass: a touch child gets the command of its name, or is flagged dangling. */
  method LinkItem(it: Item, cmdMap: map<string, nat>) returns (next: Item, dangling: bool)
    ensures next == Linked(cmdMap, it) && dangling == Dangling(cmdMap, it)
  {
    next, dangling := it, false;
    if IsTouchChild(it) && it.cmdName != [] {
      if it.cmdName in cmdMap {
        next := it.(cmd := CmdValue(cmdMap[it.cmdName]));
      } else {
        dangling := true;
      }
    }
  }

  /**
   * The second pass after `i` items: those are linked, the rest untouched, and `marks` lists
   * the dangling ones among them in ascending order.
   */
  ghost predicate LinkScan(cmdMap: map<string, nat>, items: seq<Item>, linked: seq<Item>, marks: seq<int>, i: nat) {
    i <= |items| == |linked|
    && (forall k :: 0 <= k < i ==> linked[k] == Linked(cmdMap, items[k]))
    && (forall k :: i <= k < |items| ==> linked[k] == items[k])
    && StrictlyAscending(marks)
    && (forall j :: 0 <= j < |marks| ==> 0 <= marks[j] < i)
    && (forall k :: k in marks <==> 0 <= k < i && Dangling(cmdMap, items[k]))
  }

  lemma {:induction false} LinkScanStep(cmdMap: map<string, nat>, items: seq<Item>, linked: seq<Item>, marks: seq<int>, i: nat)
    requires LinkScan(cmdMap, items, linked, marks, i) && i < |items|
    ensures LinkScan(cmdMap, items, linked[i := Linked(cmdMap, linked[i])],
      if Dangling(cmdMap, linked[i]) then marks + [i] else marks, i + 1)
  {
  }

  lemma {:induction false} LinkScanDone(cmdMap: map<string, nat>, items: seq<Item>, linked: seq<Item>, marks: seq<int>, marked: set<int>, r: seq<Item>)
    requires LinkScan(cmdMap, items, linked, marks, |items|)
    requires marked == set k | 0 <= k < |items| && Dangling(cmdMap, items[k])
    requires r == Without(linked, marked, 0)
    ensures r == SecondPass(items, cmdMap)
  {
    assert linked == LinkAll(items, cmdMap);
    WithoutIsFilter(linked, marked, (it: Item) => !Dangling(cmdMap, it), 0);
    assert linked[0..] == linked;
  }

  // ---------------------------------------------------------------------------------------
  // Third pass: resolve the names a touch action's actions and a touch action input refer to

  /** An action whose index name, or else command name, has a number (or that names neither). */
  predicate Resolvable(a: Alloc, act: Item) {
    if act.idxName != [] then act.idxName in a.idxMap
    else act.cmdName != [] ==> act.cmdName in a.cmdMap
  }

  /** An action given the number of the name it refers to. */
  function Resolved(a: Alloc, act: Item): Item {
    if act.idxName != [] then
      (if act.idxName in a.idxMap then act.(idx := Some(a.idxMap[act.idxName])) else act)
    else if act.cmdName != [] && act.cmdName in a.cmdMap then act.(cmd := CmdValue(a.cmdMap[act.cmdName]))
    else act
  }

  function ResolveAll(a: Alloc, acts: seq<Item>): (r: seq<Item>)
    ensures |r| == |acts| && forall k :: 0 <= k < |acts| ==> r[k] == Resolved(a, acts[k])
  {
    Map(acts, (act: Item) => Resolved(a, act))
  }

  /** A touch action's actions after the third pass: resolved, the unresolvable ones removed. */
  function ResolvedActions(a: Alloc, acts: seq<Item>): seq<Item> {
    Filter(ResolveAll(a, acts), (act: Item) => Resolvable(a, act))
  }

  /** An item after the third pass, before emptied touch actions are removed. */
  function Rechecked(a: Alloc, it: Item): Item {
    if it.kind == TouchActionInput && it.idxName != [] then
      (if it.idxName in a.idxMap then it.(textIdx := Some(a.idxMap[it.idxName]))
       else it.(textIdx := None, idxName := []))
    else if it.kind == TouchAction && it.action.Some? then it.(action := Some(ResolvedActions(a, it.action.value)))
    else it
  }

  function RecheckAll(a: Alloc, items: seq<Item>): (r: seq<Item>)
    ensures |r| == |items| && forall k :: 0 <= k < |items| ==> r[k] == Rechecked(a, items[k])
  {
    Map(items, (it: Item) => Rechecked(a, it))
  }

  /** A touch action left with an action list and nothing in it. */
  predicate Emptied(it: Item) {
    it.kind == TouchAction && it.action == Some([])
  }

  /** The third pass: references resolved, touch actions left without actions removed. */
  function ThirdPass(items: seq<Item>, a: Alloc): seq<Item> {
    Filter(RecheckAll(a, items), (it: Item) => !Emptied(it))
  }

  /** One action of the loop: numbered if its name is known, flagged invalid if not. */
  method ResolveAction(act: Item, a: Alloc) returns (next: Item, ok: bool)
    ensures next == Resolved(a, act) && ok == Resolvable(a, act)
  {
    next, ok := act, true;
    if act.idxName != [] {
      if act.idxName in a.idxMap {
        next := act.(idx := Some(a.idxMap[act.idxName]));
      } else {
        ok := false;
      }
    } else if act.cmdName != [] {
      if act.cmdName in a.cmdMap {
        next := act.(cmd := CmdValue(a.cmdMap[act.cmdName]));
      } else {
        ok := false;
      }
    }
  }

  /** The actions of one touch action: resolve each, then splice out the unresolvable ones. */
  method ResolveActions(acts: seq<Item>, a: Alloc) returns (r: seq<Item>)
    ensures r == ResolvedActions(a, acts)
  {
    var resolved := acts;
    var invalid: seq<int> := [];
    var i := 0;
    while i < |acts|
      invariant ResolveScan(a, acts, resolved, invalid, i)
    {
      var next, ok := ResolveAction(resolved[i], a);
      ResolveScanStep(a, acts, resolved, invalid, i);
      resolved := resolved[i := next];
      if !ok {
        invalid := invalid + [i];
      }
      i := i + 1;
    }
    ghost var marked := set k | 0 <= k < |acts| && !Resolvable(a, acts[k]);
    r := RemoveMarked(resolved, invalid, marked);
    ResolveScanDone(a, acts, resolved, invalid, marked, r);
  }

  /**
   * The action loop after `i` actions: those are resolved, the rest untouched, and `invalid`
   * lists the unresolvable ones among them in ascending order.
   */
  ghost predicate ResolveScan(a: Alloc, acts: seq<Item>, resolved: seq<Item>, invalid: seq<int>, i: nat) {
    i <= |acts| == |resolved|
    && (forall k :: 0 <= k < i ==> resolved[k] == Resolved(a, acts[k]))
    && (forall k :: i <= k < |acts| ==> resolved[k] == acts[k])
    && StrictlyAscending(invalid)
    && (forall j :: 0 <= j < |invalid| ==> 0 <= invalid[j] < i)
    && (forall k :: k in invalid <==> 0 <= k < i && !Resolvable(a, acts[k]))
  }

  lemma {:induction false} ResolveScanStep(a: Alloc, acts: seq<Item>, resolved: seq<Item>, invalid: seq<int>, i: nat)
    requires ResolveScan(a, acts, resolved, invalid, i) && i < |acts|
    ensures ResolveScan(a, acts, resolved[i := Resolved(a, resolved[i])],
      if Resolvable(a, resolved[i]) then invalid else invalid + [i], i + 1)
  {
  }

  lemma {:induction false} ResolveScanDone(a: Alloc, acts: seq<Item>, resolved: seq<Item>, invalid: seq<int>, marked: set<int>, r: seq<Item>)
    requires ResolveScan(a, acts, resolved, invalid, |acts|)
    requires marked == set k | 0 <= k < |acts| && !Resolvable(a, acts[k])
    requires r == Without(resolved, marked, 0)
    ensures r == ResolvedActions(a, acts)
  {
    assert resolved == ResolveAll(a, acts);
    WithoutIsFilter(resolved, marked, (act: Item) => Resolvable(a, act), 0);
    assert resolved[0..] == resolved;
  }

  /**
   * Third pass of `updateNumericIndices`: give each touch action input the index of its index
   * name (or drop a name without one), resolve every touch action's actions, and splice out
   * the touch actions left with no action.
   */
  method ResolveTouchReferences(items: seq<Item>, a: Alloc) returns (r: seq<Item>)
    ensures r == ThirdPass(items, a)
  {
    var checked := items;
    var toRemove: seq<int> := [];
    var i := 0;
    while i < |items|
      invariant RecheckScan(a, items, checked, toRemove, i)
    {
      var next, emptied := RecheckItem(checked[i], a);
      RecheckScanStep(a, items, checked, toRemove, i);
      checked := checked[i := next];
      if emptied {
        toRemove := toRemove + [i];
      }
      i := i + 1;
    }
    ghost var marked := set k | 0 <= k < |items| && Emptied(Rechecked(a, items[k]));
    r := RemoveMarked(checked, toRemove, marked);
    RecheckScanDone(a, items, checked, toRemove, marked, r);
  }

  /**
   * One item of the third pass: a touch action input gets the index of its index name (or
   * loses the name), a touch action's actions are resolved; `emptied` says the touch action
   * was left with none.
   */
  method RecheckItem(it: Item, a: Alloc) returns (next: Item, emptied: bool)
    ensures next == Rechecked(a, it) && emptied == Emptied(next)
  {
    next, emptied := it, false;
    if it.kind == TouchActionInput && it.idxName != [] {
      if it.idxName in a.idxMap {
        next := it.(textIdx := Some(a.idxMap[it.idxName]));
      } else {
        next := it.(textIdx := None, idxName := []);
      }
    } else if it.kind == TouchAction && it.action.Some? {
      var acts := ResolveActions(it.action.value, a);
      next := it.(action := Some(acts));
      emptied := acts == [];
    }
  }

  /**
   * The third pass after `i` items: those are rechecked, the rest untouched, and `toRemove`
   * lists the emptied touch actions among them in ascending order.
   */
  ghost predicate RecheckScan(a: Alloc, items: seq<Item>, checked: seq<Item>, toRemove: seq<int>, i: nat) {
    i <= |items| == |checked|
    && (forall k :: 0 <= k < i ==> checked[k] == Rechecked(a, items[k]))
    && (forall k :: i <= k < |items| ==> checked[k] == items[k])
    && StrictlyAscending(toRemove)
    && (forall j :: 0 <= j < |toRemove| ==> 0 <= toRemove[j] < i)
    && (forall k :: k in toRemove <==> 0 <= k < i && Emptied(Rechecked(a, items[k])))
  }

  lemma {:induction false} RecheckScanStep(a: Alloc, items: seq<Item>, checked: seq<Item>, toRemove: seq<int>, i: nat)
    requires RecheckScan(a, items, checked, toRemove, i) && i < |items|
    ensures RecheckScan(a, items, checked[i := Rechecked(a, checked[i])],
      if Emptied(Rechecked(a, checked[i])) then toRemove + [i] else toRemove, i + 1)
  {
  }

  lemma {:induction false} RecheckScanDone(a: Alloc, items: seq<Item>, checked: seq<Item>, toRemove: seq<int>, marked: set<int>, r: seq<Item>)
    requires RecheckScan(a, items, checked, toRemove, |items|)
    requires marked == set k | 0 <= k < |items| && Emptied(Rechecked(a, items[k]))
    requires r == Without(checked, marked, 0)
    ensures r == ThirdPass(items, a)
  {
    assert checked == RecheckAll(a, items);
    WithoutIsFilter(checked, marked, (it: Item) => !Emptied(it), 0);
    assert checked[0..] == checked;
  }

  // ---------------------------------------------------------------------------------------
  // The whole run

  /** `updateNumericIndices` on one drawing: the final numbering state and item list. */
  function UpdateIndices(items: seq<Item>, nextCmd: nat, nextIdx: nat): (Alloc, seq<Item>) {
    var (a, numbered) := FirstPass(items, Start(nextCmd, nextIdx), Role);
    (a, Finish(numbered, a))
  }

  /** Where an item of the finished list comes from. */
  lemma {:induction false} Origin(numbered: seq<Item>, a: Alloc, x: Item) returns (z: Item)
    requires x in ThirdPass(SecondPass(numbered, a.cmdMap), a)
    ensures z in numbered && !Dangling(a.cmdMap, z) && !Emptied(x)
    ensures x == Rechecked(a, Linked(a.cmdMap, z))
  {
    var linked := SecondPass(numbered, a.cmdMap);
    assert x in RecheckAll(a, linked);
    var k :| 0 <= k < |linked| && RecheckAll(a, linked)[k] == x;
    var y := linked[k];
    assert y in LinkAll(numbered, a.cmdMap) && !Dangling(a.cmdMap, y);
    var j :| 0 <= j < |numbered| && LinkAll(numbered, a.cmdMap)[j] == y;
    z := numbered[j];
  }

  /** The second and third passes of a run, from the first pass's result `numbered` and state `a`. */
  function Finish(numbered: seq<Item>, a: Alloc): seq<Item> {
    ThirdPass(SecondPass(numbered, a.cmdMap), a)
  }

  lemma {:induction false} UpdateIndicesFinish(items: seq<Item>, nextCmd: nat, nextIdx: nat)
    ensures var first := FirstPass(items, Start(nextCmd, nextIdx), Role);
      UpdateIndices(items, nextCmd, nextIdx) == (first.0, Finish(first.1, first.0))
  {
  }

  /**
   * Every touch action and touch action input that names a command is kept only if that name
   * was numbered, and then carries the command of that name.
   */
  lemma {:induction false} ChildrenLinked(numbered: seq<Item>, a: Alloc, x: Item)
    requires x in Finish(numbered, a)
    requires IsTouchChild(x) && x.cmdName != []
    ensures x.cmdName in a.cmdMap && x.cmd == CmdValue(a.cmdMap[x.cmdName])
  {
    var z := Origin(numbered, a, x);
  }

  /**
   * After a run, the command name of a kept touch action or touch action input is one that an
   * item of another kind (a touch zone, an inserted drawing, a hide, unhide or erase, ...)
   * numbered, and the child carries that item's command.
   */
  lemma {:induction false} ChildrenFollowNamedItems(items: seq<Item>, nextCmd: nat, nextIdx: nat, x: Item)
    returns (k: nat)
    requires x in UpdateIndices(items, nextCmd, nextIdx).1
    requires IsTouchChild(x) && x.cmdName != []
    ensures k < |items| && !IsTouchChild(items[k]) && Role(items[k]) == CmdRole && items[k].cmdName == x.cmdName
    ensures var a := UpdateIndices(items, nextCmd, nextIdx).0;
      x.cmdName in a.cmdMap && x.cmd == CmdValue(a.cmdMap[x.cmdName])
  {
    var first := FirstPass(items, Start(nextCmd, nextIdx), Role);
    UpdateIndicesFinish(items, nextCmd, nextIdx);
    ChildrenLinked(first.1, first.0, x);
    FirstPassNames(items, Start(nextCmd, nextIdx), Role, x.cmdName);
    k :| 0 <= k < |items| && Role(items[k]) == CmdRole && items[k].cmdName == x.cmdName;
    CmdRoleNotChild(items[k]);
  }

  lemma {:induction false} CmdRoleNotChild(it: Item)
    requires Role(it) == CmdRole
    ensures !IsTouchChild(it)
  {
  }

  /** An action that passed the third pass carries the number of the name it refers to. */
  predicate ActionNumbered(a: Alloc, act: Item) {
    Resolvable(a, act)
    && (act.idxName != [] ==> act.idx == Some(a.idxMap[act.idxName]))
    && (act.idxName == [] && act.cmdName != [] ==> act.cmd == CmdValue(a.cmdMap[act.cmdName]))
  }

  /**
   * Every kept touch action with an action list has at least one action, and each action
   * names an index (or else a command) that was numbered and carries its number.
   */
  lemma {:induction false} ActionsResolved(numbered: seq<Item>, a: Alloc, x: Item)
    requires x in Finish(numbered, a)
    requires x.kind == TouchAction && x.action.Some?
    ensures x.action.value != [] && forall act :: act in x.action.value ==> ActionNumbered(a, act)
  {
    var z := Origin(numbered, a, x);
    var y := Linked(a.cmdMap, z);
    assert x.action.value == ResolvedActions(a, y.action.value);
    ResolvedActionsNumbered(a, y.action.value);
  }

  lemma {:induction false} ResolvedActionsNumbered(a: Alloc, acts: seq<Item>)
    ensures forall act :: act in ResolvedActions(a, acts) ==> ActionNumbered(a, act)
  {
    forall act | act in ResolvedActions(a, acts)
      ensures ActionNumbered(a, act)
    {
      assert act in ResolveAll(a, acts) && Resolvable(a, act);
      var k :| 0 <= k < |acts| && ResolveAll(a, acts)[k] == act;
      ResolvedNumbered(a, acts[k]);
    }
  }

  lemma {:induction false} ResolvedNumbered(a: Alloc, act: Item)
    requires Resolvable(a, Resolved(a, act))
    ensures ActionNumbered(a, Resolved(a, act))
  {
  }

  /** A kept touch action input keeps an index name only if it was numbered, and shows that index. */
  lemma {:induction false} InputsIndexed(numbered: seq<Item>, a: Alloc, x: Item)
    requires x in Finish(numbered, a)
    requires x.kind == TouchActionInput && x.idxName != []
    ensures x.idxName in a.idxMap && x.textIdx == Some(a.idxMap[x.idxName])
  {
    var z := Origin(numbered, a, x);
  }

  predicate NotChild(it: Item) {
    !IsTouchChild(it)
  }

  /**
   * The second and third passes remove no item other than touch actions and touch action
   * inputs, and leave the others unchanged and in their order.
   */
  lemma {:induction false} OthersKept(numbered: seq<Item>, a: Alloc)
    ensures Filter(Finish(numbered, a), NotChild) == Filter(numbered, NotChild)
  {
    SecondPassKeepsOthers(numbered, a.cmdMap);
    ThirdPassKeepsOthers(SecondPass(numbered, a.cmdMap), a);
  }

  lemma {:induction false} SecondPassKeepsOthers(items: seq<Item>, cmdMap: map<string, nat>)
    ensures Filter(SecondPass(items, cmdMap), NotChild) == Filter(items, NotChild)
  {
    var f := (it: Item) => Linked(cmdMap, it);
    var keep := (it: Item) => !Dangling(cmdMap, it);
    assert forall x :: NotChild(x) ==> f(x) == x && keep(x);
    assert forall x :: !NotChild(x) ==> !NotChild(f(x));
    FilterMapLeavesOthers(items, f, keep, NotChild);
    assert SecondPass(items, cmdMap) == Filter(Map(items, f), keep);
  }

  lemma {:induction false} ThirdPassKeepsOthers(items: seq<Item>, a: Alloc)
    ensures Filter(ThirdPass(items, a), NotChild) == Filter(items, NotChild)
  {
    var f := (it: Item) => Rechecked(a, it);
    var keep := (it: Item) => !Emptied(it);
    assert forall x :: NotChild(x) ==> f(x) == x && keep(x);
    assert forall x :: !NotChild(x) ==> !NotChild(f(x));
    FilterMapLeavesOthers(items, f, keep, NotChild);
    assert ThirdPass(items, a) == Filter(Map(items, f), keep);
  }

  // ---------------------------------------------------------------------------------------
  // As written, the dangling-reference check of the second pass never fires for a touch
  // child that is not indexed with an index name

  /**
   * With the branch chain as written, the first pass numbers the command name of every touch
   * action and touch action input itself (unless it is indexed with an index name), so none of
   * them is ever found dangling.
   */
  lemma {:induction false} NeverDanglingAsWritten(items: seq<Item>, nextCmd: nat, nextIdx: nat, k: nat)
    requires k < |items| && IsTouchChild(items[k]) && !(items[k].indexed && items[k].idxName != [])
    ensures !Dangling(FirstPass(items, Start(nextCmd, nextIdx), RoleAsWritten).0.cmdMap, items[k])
  {
    FirstPassNames(items, Start(nextCmd, nextIdx), RoleAsWritten, items[k].cmdName);
  }

  /** A touch action whose command name no touch zone carries: kept as written, removed as intended. */
  lemma DanglingTouchAction()
    ensures var ta := NewItem(TouchAction).(cmdName := "a", action := Some([NewItem(Hide)]));
      var asWritten := FirstPass([ta], Start(1, 1), RoleAsWritten);
      var intended := FirstPass([ta], Start(1, 1), Role);
      SecondPass(asWritten.1, asWritten.0.cmdMap) == [ta.(cmd := CmdValue(1))]
      && SecondPass(intended.1, intended.0.cmdMap) == []
  {
    var ta := NewItem(TouchAction).(cmdName := "a", action := Some([NewItem(Hide)]));
    assert [ta][..0] == [];
    assert RoleAsWritten(ta) == CmdRole && Role(ta) == NoRole;
    var asWritten := FirstPass([ta], Start(1, 1), RoleAsWritten);
    assert FirstPass([], Start(1, 1), RoleAsWritten) == (Start(1, 1), []);
    assert asWritten.1 == [] + [ta.(cmd := CmdValue(1))];
    var linked := LinkAll(asWritten.1, asWritten.0.cmdMap);
    assert linked == [ta.(cmd := CmdValue(1))];
    assert linked[1..] == [];
    var intended := FirstPass([ta], Start(1, 1), Role);
    assert FirstPass([], Start(1, 1), Role) == (Start(1, 1), []);
    assert intended.1 == [] + [ta];
    var none := LinkAll(intended.1, intended.0.cmdMap);
    assert none == [ta];
    assert none[1..] == [];
  }
}
