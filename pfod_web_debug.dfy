/**
 * The request bookkeeping of the pfodWeb viewer (`DrawingViewer`): the queue of requests
 * waiting to be sent, the one in flight, the stack of commands the back button returns
 * to and the command the reload button resends; the priority rule that abandons a
 * half-processed response; and the checks on the page's parameters (baud rate, IP address)
 * and on an empty `{}` reply.
 */
module PfodWebDebug {
  import opened Wrappers
  import opened Seqs
  import opened Text

  // ---------------------------------------------------------------------------------------
  // Requests

  /** A touch request's zone: whether its filter is DRAG, and the zone's command. */
  datatype TouchZoneInfo = TouchZoneInfo(isDrag: bool, cmd: string)

  /** A queued or in-flight request; `drawingName` is "" for null. */
  datatype Request = Request(
    drawingName: string,
    cmd: string,
    touchZoneInfo: Option<TouchZoneInfo>,
    requestType: string,
    isInitial: bool,
    discardResponse: bool)

  predicate IsRefresh(r: Request) {
    r.requestType == "refresh" || r.requestType == "refresh-insertDwg"
  }

  /** A request type that is user activity: queued refreshes give way to it. */
  predicate ClearsRefreshes(requestType: string) {
    requestType != "refresh" && requestType != "refresh-insertDwg" && requestType != "insertDwg"
  }

  /** A queued DRAG request from the touchZone with command `cmd`. */
  predicate IsDragFor(r: Request, cmd: string) {
    r.touchZoneInfo.Some? && r.touchZoneInfo.value.isDrag && r.touchZoneInfo.value.cmd == cmd
  }

  /**
   * Whether a queued request stays when `req` is added: refreshes go when `req` is user
   * activity, and DRAGs of the same zone go when `req` is a DRAG.
   */
  predicate Survives(r: Request, req: Request) {
    !(ClearsRefreshes(req.requestType) && IsRefresh(r))
    && !(req.touchZoneInfo.Some? && req.touchZoneInfo.value.isDrag && IsDragFor(r, req.touchZoneInfo.value.cmd))
  }

  /** The queue after `req` is added: the surviving requests in their order, then `req`. */
  function Enqueued(queue: seq<Request>, req: Request): (r: seq<Request>)
    ensures |r| >= 1 && r[|r| - 1] == req
    ensures forall x :: x in queue && Survives(x, req) ==> x in r
  {
    Filter(queue, (x: Request) => Survives(x, req)) + [req]
  }

  /** The in-flight request after a request of type `requestType` is added. */
  function SentAfterAdd(sent: Option<Request>, requestType: string): (r: Option<Request>)
    ensures r.Some? <==> sent.Some?
    ensures r.Some? ==> r.value.(discardResponse := sent.value.discardResponse) == sent.value
    ensures r.Some? && ClearsRefreshes(requestType) && IsRefresh(sent.value) ==> r.value.discardResponse
    ensures !ClearsRefreshes(requestType) ==> r == sent
  {
    if ClearsRefreshes(requestType) && sent.Some? && IsRefresh(sent.value) then
      Some(sent.value.(discardResponse := true))
    else
      sent
  }

  /**
   * What adding a request does to the queue: the requests kept are those of the old queue
   * in their order, user activity leaves no refresh queued, a DRAG leaves no other DRAG of
   * its zone queued, and the new request is last.
   */
  lemma {:induction false} EnqueuedRules(queue: seq<Request>, req: Request)
    ensures var r := Enqueued(queue, req);
      Subsequence(r[..|r| - 1], queue)
      && (ClearsRefreshes(req.requestType) ==> forall k :: 0 <= k < |r| - 1 ==> !IsRefresh(r[k]))
      && (req.touchZoneInfo.Some? && req.touchZoneInfo.value.isDrag ==>
            forall k :: 0 <= k < |r| - 1 ==> !IsDragFor(r[k], req.touchZoneInfo.value.cmd))
  {
    var keep := (x: Request) => Survives(x, req);
    var kept := Filter(queue, keep);
    assert Enqueued(queue, req)[..|kept|] == kept;
    FilterIsSubsequence(queue, keep);
    KeptSurvive(kept, queue, keep, req);
  }

  lemma {:induction false} KeptSurvive(kept: seq<Request>, queue: seq<Request>, keep: Request -> bool, req: Request)
    requires kept == Filter(queue, keep) && forall x :: keep(x) == Survives(x, req)
    ensures forall k :: 0 <= k < |kept| ==> Survives(kept[k], req)
  {
    forall k | 0 <= k < |kept|
      ensures Survives(kept[k], req)
    {
      assert kept[k] in kept;
    }
  }

  /**
   * The two filters of `addToRequestQueue`: queued refreshes are dropped for user activity
   * (when there are any), then queued DRAGs of the zone of a DRAG request.
   */
  method GiveWay(queue: seq<Request>, req: Request) returns (kept: seq<Request>)
    ensures kept == Filter(queue, (x: Request) => Survives(x, req))
  {
    var notRefresh := (x: Request) => !(ClearsRefreshes(req.requestType) && IsRefresh(x));
    kept := queue;
    if ClearsRefreshes(req.requestType) {
      var refreshes := Filter(queue, IsRefresh);
      if |refreshes| > 0 {
        kept := Filter(queue, (x: Request) => !IsRefresh(x));
      } else {
        FilterAll(queue, (x: Request) => !IsRefresh(x));
      }
      FilterCongruent(queue, (x: Request) => !IsRefresh(x), notRefresh);
    } else {
      FilterAll(queue, notRefresh);
    }
    assert kept == Filter(queue, notRefresh);
    var tz := req.touchZoneInfo;
    var notDrag := (x: Request) => !(tz.Some? && tz.value.isDrag && IsDragFor(x, tz.value.cmd));
    ghost var first := kept;
    if tz.Some? && tz.value.isDrag {
      var zone := tz.value.cmd;
      FilterCongruent(kept, (x: Request) => !IsDragFor(x, zone), notDrag);
      kept := Filter(kept, (x: Request) => !IsDragFor(x, zone));
    } else {
      FilterAll(kept, notDrag);
    }
    assert kept == Filter(first, notDrag);
    FilterBoth(queue, notRefresh, notDrag, (x: Request) => Survives(x, req));
  }

  // ---------------------------------------------------------------------------------------
  // Navigation

  /** No command follows an equal one on the stack. */
  predicate NoAdjacentRepeats(s: seq<string>) {
    forall i :: 0 < i < |s| ==> s[i - 1] != s[i]
  }

  /** Refreshes and back requests keep the stack as it is. */
  predicate Navigates(requestType: string) {
    requestType != "refresh" && requestType != "refresh-insertDwg" && requestType != "back"
  }

  /**
   * `updateNavigationStack` on the stack and the current command: a navigating request
   * pushes the current command (when set and not already on top) and becomes current.
   */
  function Navigated(stack: seq<string>, current: Option<string>, request: Request): (r: (seq<string>, Option<string>))
    ensures !Navigates(request.requestType) ==> r == (stack, current)
    ensures Navigates(request.requestType) ==>
      (r.1 == Some(request.cmd) && (r.0 == stack || (current.Some? && r.0 == stack + [current.value])))
    ensures NoAdjacentRepeats(stack) ==> NoAdjacentRepeats(r.0)
  {
    if !Navigates(request.requestType) then (stack, current)
    else if current.Some? && current.value != "" && (stack == [] || current.value != stack[|stack| - 1]) then
      (stack + [current.value], Some(request.cmd))
    else
      (stack, Some(request.cmd))
  }

  /** The back button: the stack's top is popped and resent, or `{.}` when the stack is empty. */
  function BackTarget(stack: seq<string>): (r: (seq<string>, string))
    ensures stack == [] ==> r == ([], "{.}")
    ensures stack != [] ==> r.0 + [r.1] == stack
  {
    if stack == [] then ([], "{.}") else (stack[..|stack| - 1], stack[|stack| - 1])
  }

  /**
   * After navigating away from the display of command `c`, the back button sends `c`
   * again, and the stack is as before (less `c` if it was already on top).
   */
  lemma {:induction false} BackReturnsToPrevious(stack: seq<string>, c: string, request: Request)
    requires c != "" && Navigates(request.requestType)
    ensures var (pushed, _) := Navigated(stack, Some(c), request);
      var (popped, sent) := BackTarget(pushed);
      sent == c && popped == (if stack != [] && stack[|stack| - 1] == c then stack[..|stack| - 1] else stack)
  {
    var (pushed, _) := Navigated(stack, Some(c), request);
    if stack == [] || stack[|stack| - 1] != c {
      assert pushed == stack + [c];
      assert pushed[..|pushed| - 1] == stack;
    }
  }

  // ---------------------------------------------------------------------------------------
  // The viewer's request state

  class DrawingViewer {
    var requestQueue: seq<Request>
    var sentRequest: Option<Request>
    var commandStack: seq<string>
    var currentRefreshCmd: Option<string>

    predicate Valid()
      reads this
    {
      NoAdjacentRepeats(commandStack)
    }

    constructor ()
      ensures Valid()
      ensures requestQueue == [] && sentRequest == None && commandStack == [] && currentRefreshCmd == None
    {
      requestQueue := [];
      sentRequest := None;
      commandStack := [];
      currentRefreshCmd := None;
    }

    /**
     * `addToRequestQueue`, up to the point where the queue is handed to the sender: an
     * unknown type is refused; otherwise queued refreshes and same-zone DRAGs give way, an
     * in-flight refresh is marked for discarding, and the request is appended.
     */
    method AddToRequestQueue(drawingName: string, cmd: string, touchZoneInfo: Option<TouchZoneInfo>,
                             requestType: string, isInitial: bool)
      modifies this
      ensures requestType == "unknown" ==> requestQueue == old(requestQueue) && sentRequest == old(sentRequest)
      ensures requestType != "unknown" ==>
        requestQueue == Enqueued(old(requestQueue), Request(drawingName, cmd, touchZoneInfo, requestType, isInitial, false))
        && sentRequest == SentAfterAdd(old(sentRequest), requestType)
      ensures commandStack == old(commandStack) && currentRefreshCmd == old(currentRefreshCmd)
    {
      if requestType == "unknown" {
        return;
      }
      var req := Request(drawingName, cmd, touchZoneInfo, requestType, isInitial, false);
      var kept := GiveWay(requestQueue, req);
      if ClearsRefreshes(requestType) && sentRequest.Some? && IsRefresh(sentRequest.value) {
        sentRequest := Some(sentRequest.value.(discardResponse := true));
      }
      requestQueue := kept + [req];
    }

    /** `clearPendingQueue`: the waiting requests are dropped; the one in flight stays. */
    method ClearPendingQueue()
      modifies this
      ensures requestQueue == []
      ensures sentRequest == old(sentRequest) && commandStack == old(commandStack)
      ensures currentRefreshCmd == old(currentRefreshCmd)
    {
      requestQueue := [];
    }

    /** `updateNavigationStack`: the stack and current command become those of `Navigated`. */
    method UpdateNavigationStack(request: Request)
      requires Valid()
      modifies this
      ensures Valid()
      ensures (commandStack, currentRefreshCmd) == Navigated(old(commandStack), old(currentRefreshCmd), request)
      ensures requestQueue == old(requestQueue) && sentRequest == old(sentRequest)
    {
      if request.requestType == "refresh" || request.requestType == "refresh-insertDwg" || request.requestType == "back" {
        return;
      }
      if currentRefreshCmd.Some? && currentRefreshCmd.value != "" {
        if |commandStack| == 0 || currentRefreshCmd.value != commandStack[|commandStack| - 1] {
          commandStack := commandStack + [currentRefreshCmd.value];
        }
      }
      currentRefreshCmd := Some(request.cmd);
    }

    /**
     * The back button: the command of `BackTarget` becomes current and is the only request
     * queued, as a `back` request.
     */
    method Back()
      requires Valid()
      modifies this
      ensures Valid()
      ensures var (stack, cmd) := BackTarget(old(commandStack));
        commandStack == stack && currentRefreshCmd == Some(cmd)
        && requestQueue == [Request("", cmd, None, "back", false, false)]
        && sentRequest == SentAfterAdd(old(sentRequest), "back")
    {
      var cmdToSend := "{.}";
      if |commandStack| > 0 {
        cmdToSend := commandStack[|commandStack| - 1];
        commandStack := commandStack[..|commandStack| - 1];
      }
      currentRefreshCmd := Some(cmdToSend);
      ClearPendingQueue();
      AddToRequestQueue("", cmdToSend, None, "back", false);
    }

    /**
     * The reload button: the current command, or `{.}` when there is none, is the only
     * request queued, as a `refresh`; nothing else changes.
     */
    method Reload()
      modifies this
      ensures var cmd := if old(currentRefreshCmd).Some? then old(currentRefreshCmd).value else "{.}";
        requestQueue == [Request("", cmd, None, "refresh", false, false)]
      ensures sentRequest == old(sentRequest) && commandStack == old(commandStack)
      ensures currentRefreshCmd == old(currentRefreshCmd)
    {
      ClearPendingQueue();
      var cmdToSend := if currentRefreshCmd.Some? then currentRefreshCmd.value else "{.}";
      AddToRequestQueue("", cmdToSend, None, "refresh", false);
    }
  }

  // ---------------------------------------------------------------------------------------
  // Abandoning a half-processed response

  /** The priority of the request types: mainMenu > main > touch > refresh; None for others. */
  function Priority(requestType: string): Option<nat> {
    if requestType == "mainMenu" then Some(3)
    else if requestType == "main" then Some(2)
    else if requestType == "touch" then Some(1)
    else if requestType == "refresh" then Some(0)
    else None
  }

  /** A queued request whose type outranks priority `p`. */
  predicate Outranks(r: Request, p: nat) {
    Priority(r.requestType).Some? && Priority(r.requestType).value > p
  }

  /**
   * `shouldAbandonShadowProcessing` for the response being processed for a request of type
   * `shadowType` (None for null): it is abandoned when a queued request outranks it, and a
   * refresh also when the mouse is down; a mainMenu response is never abandoned and a
   * response of any other type always is.
   */
  function ShouldAbandon(shadowType: Option<string>, isDown: bool, queue: seq<Request>): (r: bool)
    ensures shadowType.None? || Priority(shadowType.value).None? ==> r
    ensures shadowType == Some("mainMenu") ==> !r
    ensures shadowType.Some? && Priority(shadowType.value).Some? ==>
      (r <==> (shadowType.value == "refresh" && isDown)
              || exists k :: 0 <= k < |queue| && Outranks(queue[k], Priority(shadowType.value).value))
  {
    if shadowType == Some("refresh") then
      isDown || exists k :: 0 <= k < |queue| && queue[k].requestType in ["mainMenu", "main", "touch"]
    else if shadowType == Some("touch") then
      exists k :: 0 <= k < |queue| && queue[k].requestType in ["mainMenu", "main"]
    else if shadowType == Some("main") then
      exists k :: 0 <= k < |queue| && queue[k].requestType == "mainMenu"
    else if shadowType == Some("mainMenu") then
      false
    else
      true
  }

  // ---------------------------------------------------------------------------------------
  // Checks on replies and page parameters

  /** `isEmptyCmd`: the reply's command array (None when missing) starts with `{` and `}`. */
  function IsEmptyCmd(cmd: Option<seq<string>>): (r: bool)
    ensures r ==> cmd.Some? && |cmd.value| >= 2
    ensures cmd.Some? && |cmd.value| >= 2 ==> (r <==> Trim(cmd.value[0]) == "{" && Trim(cmd.value[1]) == "}")
  {
    cmd.Some? && |cmd.value| >= 2 && Trim(cmd.value[0]) == "{" && Trim(cmd.value[1]) == "}"
  }

  /** The empty reply `{}`, split into its elements, is recognised whatever follows it. */
  lemma EmptyReplyIsEmpty(rest: seq<string>)
    ensures IsEmptyCmd(Some(["{", "}"] + rest))
    ensures !IsEmptyCmd(Some(["{"]))
  {
    assert IsTrimmed("{") && IsTrimmed("}");
    TrimOfTrimmed("{");
    TrimOfTrimmed("}");
  }

  const ValidBaudRates: seq<int> := [9600, 19200, 38400, 57600, 74880, 115200]

  /**
   * `extractBaudRate` from the page's `serial` and `baudRate` parameters (None when
   * missing): the first that parses to a supported rate, else 115200.
   */
  function ExtractBaudRate(serial: Option<string>, baudRate: Option<string>): (r: int)
    ensures r in ValidBaudRates
    ensures serial.Some? && serial.value != "" && ParseInt(serial.value).Some? && ParseInt(serial.value).value in ValidBaudRates
      ==> r == ParseInt(serial.value).value
  {
    if serial.Some? && serial.value != "" && ParseInt(serial.value).Some? && ParseInt(serial.value).value in ValidBaudRates then
      ParseInt(serial.value).value
    else if baudRate.Some? && baudRate.value != "" && ParseInt(baudRate.value).Some?
            && ParseInt(baudRate.value).value in ValidBaudRates then
      ParseInt(baudRate.value).value
    else
      115200
  }

  /**
   * A supported rate written in either parameter is read back; `serial` wins over
   * `baudRate`, and a page with neither gets 115200.
   */
  lemma {:induction false} BaudRateReadBack(b: nat, other: Option<string>)
    requires b in ValidBaudRates
    ensures ExtractBaudRate(Some(NatToString(b)), other) == b
    ensures ExtractBaudRate(None, Some(NatToString(b))) == b
    ensures ExtractBaudRate(None, None) == 115200
  {
    ParseIntOfNatToString(b);
  }

  // ---------------------------------------------------------------------------------------
  // isValidIPAddress

  /**
   * The pattern `^(\d{1,3}\.){3}\d{1,3}$` read left to right: `dots` dots seen so far and
   * `run` digits in the current group.
   */
  predicate PatternFrom(s: string, dots: nat, run: nat)
    decreases |s|
  {
    if s == [] then dots == 3 && run >= 1
    else if IsDigit(s[0]) then run < 3 && PatternFrom(s[1..], dots, run + 1)
    else s[0] == '.' && dots < 3 && run >= 1 && PatternFrom(s[1..], dots + 1, 0)
  }

  /** A number `parseInt` reads from a group: between 0 and 255 (NaN fails both tests). */
  predicate InOctetRange(n: Option<int>) {
    n.Some? && 0 <= n.value <= 255
  }

  /** `isValidIPAddress`: the pattern matches, and every dot-separated group is at most 255. */
  predicate IsValidIPAddress(ip: string) {
    PatternFrom(ip, 0, 0) && forall k :: 0 <= k < |Split(ip, '.')| ==> InOctetRange(ParseInt(Split(ip, '.')[k]))
  }

  /** The dot-separated groups of a pattern still to match, with `run` digits already read. */
  predicate GroupsFit(parts: seq<string>, dots: nat, run: nat) {
    parts != [] && |parts| + dots == 4
    && (forall k :: 0 <= k < |parts| ==> AllDigits(parts[k]))
    && 1 <= run + |parts[0]| <= 3
    && (forall k :: 1 <= k < |parts| ==> 1 <= |parts[k]| <= 3)
  }

  lemma {:induction false} SplitAtDot(t: string)
    ensures Split(['.'] + t, '.') == [""] + Split(t, '.')
  {
    var s := ['.'] + t;
    assert IndexOf(s, '.') == Some(0);
    assert s[..0] == "" && s[1..] == t;
  }

  lemma {:induction false} SplitAtOther(c: char, t: string)
    requires c != '.'
    ensures Split([c] + t, '.') == [[c] + Split(t, '.')[0]] + Split(t, '.')[1..]
  {
    var s := [c] + t;
    assert s[1..] == t;
    match IndexOf(t, '.')
    case None =>
      assert IndexOf(s, '.') == None;
    case Some(i) =>
      assert IndexOf(s, '.') == Some(i + 1);
      assert s[..i + 1] == [c] + t[..i];
      assert s[i + 2..] == t[i + 1..];
  }

  /** A leading digit joins the first group. */
  lemma {:induction false} DigitStep(p: seq<string>, p': seq<string>, c: char, dots: nat, run: nat)
    requires IsDigit(c) && p' != [] && |p| == |p'| && p[0] == [c] + p'[0]
    requires forall k :: 1 <= k < |p| ==> p[k] == p'[k]
    ensures GroupsFit(p, dots, run) <==> run < 3 && GroupsFit(p', dots, run + 1)
  {
    AllDigitsCons(c, p'[0]);
    assert (forall k :: 0 <= k < |p| ==> AllDigits(p[k])) <==> (forall k :: 0 <= k < |p'| ==> AllDigits(p'[k])) by {
      assert forall k :: 1 <= k < |p| ==> AllDigits(p[k]) == AllDigits(p'[k]);
    }
  }

  lemma {:induction false} AllDigitsCons(c: char, x: string)
    requires IsDigit(c)
    ensures AllDigits([c] + x) <==> AllDigits(x)
  {
    assert forall i :: 0 <= i < |x| ==> ([c] + x)[i + 1] == x[i];
  }

  /** A leading dot closes the first group, which is then empty. */
  lemma {:induction false} DotStep(p: seq<string>, p': seq<string>, dots: nat, run: nat)
    requires p' != [] && p == [""] + p' && run <= 3
    ensures GroupsFit(p, dots, run) <==> dots < 3 && run >= 1 && GroupsFit(p', dots + 1, 0)
  {
    assert AllDigits(p[0]) && |p[0]| == 0;
    if GroupsFit(p, dots, run) {
      forall k | 0 <= k < |p'|
        ensures AllDigits(p'[k]) && 1 <= |p'[k]| <= 3
      {
        assert p'[k] == p[k + 1];
      }
      assert GroupsFit(p', dots + 1, 0);
    }
    if dots < 3 && run >= 1 && GroupsFit(p', dots + 1, 0) {
      forall k | 1 <= k < |p|
        ensures AllDigits(p[k]) && 1 <= |p[k]| <= 3
      {
        assert p[k] == p'[k - 1];
      }
      assert GroupsFit(p, dots, run);
    }
  }

  /** Any other leading character puts a non-digit into the first group. */
  lemma {:induction false} OtherStep(p: seq<string>, c: char, dots: nat, run: nat)
    requires !IsDigit(c) && p != [] && p[0] != [] && p[0][0] == c
    ensures !GroupsFit(p, dots, run)
  {
  }

  /** The groups of `s` against those of the rest of `s` past its first character. */
  lemma {:induction false} SplitStep(s: string, dots: nat, run: nat)
    requires s != [] && run <= 3
    ensures IsDigit(s[0]) ==>
      (GroupsFit(Split(s, '.'), dots, run) <==> run < 3 && GroupsFit(Split(s[1..], '.'), dots, run + 1))
    ensures s[0] == '.' ==>
      (GroupsFit(Split(s, '.'), dots, run) <==> dots < 3 && run >= 1 && GroupsFit(Split(s[1..], '.'), dots + 1, 0))
    ensures !IsDigit(s[0]) && s[0] != '.' ==> !GroupsFit(Split(s, '.'), dots, run)
  {
    var t := s[1..];
    assert s == [s[0]] + t;
    if IsDigit(s[0]) {
      SplitAtOther(s[0], t);
      DigitStep(Split(s, '.'), Split(t, '.'), s[0], dots, run);
    } else if s[0] == '.' {
      SplitAtDot(t);
      DotStep(Split(s, '.'), Split(t, '.'), dots, run);
    } else {
      SplitAtOther(s[0], t);
      OtherStep(Split(s, '.'), s[0], dots, run);
    }
  }

  /** The pattern matches exactly when the groups split at the dots fit it. */
  lemma {:induction false} PatternFromSplit(s: string, dots: nat, run: nat)
    requires dots <= 3 && run <= 3
    ensures PatternFrom(s, dots, run) <==> GroupsFit(Split(s, '.'), dots, run)
    decreases |s|
  {
    if s == [] {
      assert Split(s, '.') == [s];
    } else if IsDigit(s[0]) {
      if run < 3 {
        PatternFromSplit(s[1..], dots, run + 1);
      }
      DigitCase(s, dots, run);
    } else if s[0] == '.' {
      if dots < 3 {
        PatternFromSplit(s[1..], dots + 1, 0);
      }
      DotCase(s, dots, run);
    } else {
      SplitStep(s, dots, run);
    }
  }

  lemma {:induction false} DigitCase(s: string, dots: nat, run: nat)
    requires s != [] && IsDigit(s[0]) && dots <= 3 && run <= 3
    requires run < 3 ==> (PatternFrom(s[1..], dots, run + 1) <==> GroupsFit(Split(s[1..], '.'), dots, run + 1))
    ensures PatternFrom(s, dots, run) <==> GroupsFit(Split(s, '.'), dots, run)
  {
    SplitStep(s, dots, run);
  }

  lemma {:induction false} DotCase(s: string, dots: nat, run: nat)
    requires s != [] && s[0] == '.' && dots <= 3 && run <= 3
    requires dots < 3 ==> (PatternFrom(s[1..], dots + 1, 0) <==> GroupsFit(Split(s[1..], '.'), dots + 1, 0))
    ensures PatternFrom(s, dots, run) <==> GroupsFit(Split(s, '.'), dots, run)
  {
    SplitStep(s, dots, run);
  }

  /** `parseInt` reads a group of digits as its decimal value. */
  lemma {:induction false} ParseIntOfDigits(p: string)
    requires p != [] && AllDigits(p)
    ensures ParseInt(p) == Some(DigitsValue(p))
  {
    assert !IsSpace(p[0]);
    assert TrimStart(p) == p;
    assert SignFree(p) == p;
    LeadingDigitsOfAllDigits(p);
  }

  /**
   * `isValidIPAddress` accepts exactly four dot-separated groups of one to three digits
   * each, each at most 255.
   */
  lemma {:induction false} ValidIPAddressGroups(ip: string)
    ensures IsValidIPAddress(ip) <==>
      var parts := Split(ip, '.');
      |parts| == 4 && forall k :: 0 <= k < 4 ==> 1 <= |parts[k]| <= 3 && AllDigits(parts[k]) && DigitsValue(parts[k]) <= 255
  {
    var parts := Split(ip, '.');
    PatternFromSplit(ip, 0, 0);
    FourGroups(parts);
    if GroupsFit(parts, 0, 0) {
      OctetsOfGroups(parts);
    }
  }

  /** From the start, fitting the pattern is four groups of one to three digits. */
  lemma {:induction false} FourGroups(parts: seq<string>)
    ensures GroupsFit(parts, 0, 0) <==>
      |parts| == 4 && forall k :: 0 <= k < 4 ==> 1 <= |parts[k]| <= 3 && AllDigits(parts[k])
  {
  }

  /** On groups of digits, the range test of `parseInt` is a bound on their values. */
  lemma {:induction false} OctetsOfGroups(parts: seq<string>)
    requires forall k :: 0 <= k < |parts| ==> parts[k] != [] && AllDigits(parts[k])
    ensures (forall k :: 0 <= k < |parts| ==> InOctetRange(ParseInt(parts[k])))
      <==> forall k :: 0 <= k < |parts| ==> DigitsValue(parts[k]) <= 255
  {
    forall k | 0 <= k < |parts|
      ensures ParseInt(parts[k]) == Some(DigitsValue(parts[k]))
    {
      ParseIntOfDigits(parts[k]);
    }
  }
}
