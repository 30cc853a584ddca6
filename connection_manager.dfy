/**
 * Wire-format helpers of the connection layer: the rotating de-duplication character, brace
 * matching, the split of a pfod message into its `|`-separated parts, framing of messages out of
 * the serial receive buffer, the timeout and retry configuration, and the HTTP retry loop.
 */
module ConnectionManager {
  import opened Wrappers
  import opened Text
  import opened Seqs

  /** The 62 de-duplication characters `0-9A-Za-z`, in that order. */
  const DedupChars: string :=
    seq(10, i requires 0 <= i < 10 => ('0' as int + i) as char) +
    seq(26, i requires 0 <= i < 26 => ('A' as int + i) as char) +
    seq(26, i requires 0 <= i < 26 => ('a' as int + i) as char)

  lemma {:induction false} DedupCharsLayout()
    ensures |DedupChars| == 62
    ensures DedupChars[0] == '0' && DedupChars[9] == '9'
    ensures DedupChars[10] == 'A' && DedupChars[35] == 'Z'
    ensures DedupChars[36] == 'a' && DedupChars[61] == 'z'
  {
  }

  /** The code of the de-duplication character at `i` grows strictly with `i`. */
  lemma {:induction false} DedupCharsIncreasing(i: nat, j: nat)
    requires i < j < |DedupChars|
    ensures DedupChars[i] < DedupChars[j]
  {
  }

  /**
   * Any 62 consecutive calls of `getCurrentDedupChar` return pairwise distinct characters: the
   * calls `start + i` and `start + j` of a window read distinct positions of the table.
   */
  lemma {:induction false} DedupWindowDistinct(start: nat, i: nat, j: nat)
    requires start < 62 && i < j < 62
    ensures DedupChars[(start + i) % 62] != DedupChars[(start + j) % 62]
  {
    var a, b := (start + i) % 62, (start + j) % 62;
    assert a != b by {
      if start + j < 62 {
      } else if start + i >= 62 {
        assert a == start + i - 62 && b == start + j - 62;
      } else {
        assert a == start + i && b == start + j - 62;
      }
    }
    if a < b { DedupCharsIncreasing(a, b); } else { DedupCharsIncreasing(b, a); }
  }

  /** The module-level `dedupCounter`. */
  class Dedup {
    var counter: int

    ghost predicate Valid()
      reads this
    {
      0 <= counter < |DedupChars|
    }

    constructor ()
      ensures counter == 0 && Valid()
    {
      counter := 0;
    }

    /** `getCurrentDedupChar`: the character at the counter; the counter then advances modulo 62. */
    method Next() returns (c: char)
      requires Valid()
      modifies this
      ensures c == DedupChars[old(counter)]
      ensures counter == (old(counter) + 1) % |DedupChars| && Valid()
    {
      c := DedupChars[counter];
      counter := (counter + 1) % |DedupChars|;
    }
  }

  /** How a character changes the brace depth. */
  function Delta(c: char): int {
    if c == '{' then 1 else if c == '}' then -1 else 0
  }

  /** The brace depth at the end of `s`: opening braces minus closing braces. */
  function Balance(s: string): int
    decreases |s|
  {
    if s == [] then 0 else Balance(s[..|s| - 1]) + Delta(s[|s| - 1])
  }

  /** The brace depth after `text[j]`, counted from `start`. */
  function DepthAt(text: string, start: nat, j: nat): int
    requires start <= j < |text|
  {
    Balance(text[start..j + 1])
  }

  /**
   * `findMatchingClosingBrace`: -1 unless `text[startIdx]` is `{`; otherwise the first index
   * after which the brace depth counted from `startIdx` is back to 0, or -1 when there is none.
   */
  method FindMatchingClosingBrace(text: string, startIdx: int) returns (r: int)
    ensures startIdx < 0 || startIdx >= |text| || text[startIdx] != '{' ==> r == -1
    ensures r != -1 ==> 0 <= startIdx < r < |text| && text[r] == '}' && DepthAt(text, startIdx, r) == 0
    ensures r != -1 ==> forall j :: startIdx <= j < r ==> DepthAt(text, startIdx, j) > 0
    ensures r == -1 && 0 <= startIdx < |text| && text[startIdx] == '{' ==>
      forall j :: startIdx <= j < |text| ==> DepthAt(text, startIdx, j) > 0
  {
    if startIdx < 0 || startIdx >= |text| || text[startIdx] != '{' {
      return -1;
    }
    var depth := 0;
    var i := startIdx;
    while i < |text|
      invariant startIdx <= i <= |text|
      invariant depth == Balance(text[startIdx..i])
      invariant i > startIdx ==> depth > 0
      invariant forall j :: startIdx <= j < i ==> DepthAt(text, startIdx, j) > 0
    {
      assert text[startIdx..i + 1][..i - startIdx] == text[startIdx..i];
      if text[i] == '{' {
        depth := depth + 1;
      } else if text[i] == '}' {
        depth := depth - 1;
        if depth == 0 {
          return i;
        }
      }
      i := i + 1;
    }
    return -1;
  }

  /** The state of the `pfodToJson` scan: the finished elements and the element being built. */
  datatype SplitState = SplitState(parts: seq<string>, current: string)

  /** One character of the `pfodToJson` scan: `|` and `}` start a new element; `}` is one on its own. */
  function SplitStep(st: SplitState, c: char): SplitState {
    if c == '|' || c == '}' then
      var parts := if |st.current| > 0 then st.parts + [st.current] else st.parts;
      if c == '}' then SplitState(parts + ["}"], []) else SplitState(parts, [c])
    else SplitState(st.parts, st.current + [c])
  }

  function SplitRun(st: SplitState, s: string): SplitState
    decreases |s|
  {
    if s == [] then st else SplitStep(SplitRun(st, s[..|s| - 1]), s[|s| - 1])
  }

  function SplitScan(s: string): SplitState {
    SplitRun(SplitState([], []), s)
  }

  /** The `cmd` array `pfodToJson` builds from a pfod message. */
  function PfodSplit(s: string): seq<string> {
    Flushed(SplitScan(s))
  }

  function Concat(parts: seq<string>): string {
    if parts == [] then [] else Concat(parts[..|parts| - 1]) + parts[|parts| - 1]
  }

  /** A well-formed element: non-empty, `}` alone or free of `}`, and `|` at most at its start. */
  predicate GoodPart(p: string) {
    p != [] && (p == "}" || forall i :: 0 <= i < |p| ==> p[i] != '}') &&
    forall i :: 0 < i < |p| ==> p[i] != '|'
  }

  predicate AllGood(parts: seq<string>) {
    forall k :: 0 <= k < |parts| ==> GoodPart(parts[k])
  }

  /** `p` may follow `parts`: it starts with `|` or is `}`, unless it is first or follows a `}`. */
  predicate Links(parts: seq<string>, p: string) {
    parts == [] || parts[|parts| - 1] == "}" || (p != [] && p[0] == '|') || p == "}"
  }

  /** Each element after the first starts with `|` or is `}`, unless it follows a `}`. */
  predicate Chained(parts: seq<string>) {
    forall k :: 0 < k < |parts| ==> Links(parts[..k], parts[k])
  }

  /** What the scan keeps true. The element being built is empty only after a `}` (or at the start). */
  predicate ScanGood(st: SplitState, s: string) {
    Concat(st.parts) + st.current == s &&
    AllGood(st.parts) && Chained(st.parts) &&
    (st.current == [] || GoodPart(st.current)) && st.current != "}" &&
    (st.current == [] ==> st.parts == [] || st.parts[|st.parts| - 1] == "}") &&
    (st.current != [] ==> Links(st.parts, st.current))
  }

  lemma {:induction false} ConcatAppend(parts: seq<string>, p: string)
    ensures Concat(parts + [p]) == Concat(parts) + p
  {
    assert (parts + [p])[..|parts|] == parts;
  }

  lemma {:induction false} ChainedAppend(parts: seq<string>, p: string)
    requires Chained(parts) && Links(parts, p)
    ensures Chained(parts + [p])
  {
    var all := parts + [p];
    forall k | 0 < k < |all| ensures Links(all[..k], all[k]) {
      if k < |parts| {
        assert all[..k] == parts[..k] && all[k] == parts[k];
      } else {
        assert all[..k] == parts;
      }
    }
  }

  lemma {:induction false} AllGoodAppend(parts: seq<string>, p: string)
    requires AllGood(parts) && GoodPart(p)
    ensures AllGood(parts + [p])
  {
  }

  /** The finished elements after the current one is closed by a delimiter. */
  function Flushed(st: SplitState): seq<string> {
    if |st.current| > 0 then st.parts + [st.current] else st.parts
  }

  lemma {:induction false} FlushedGood(st: SplitState, s: string)
    requires ScanGood(st, s)
    ensures Concat(Flushed(st)) == s && AllGood(Flushed(st)) && Chained(Flushed(st))
  {
    if |st.current| > 0 {
      ConcatAppend(st.parts, st.current);
      ChainedAppend(st.parts, st.current);
      AllGoodAppend(st.parts, st.current);
    } else {
      assert Concat(st.parts) + st.current == Concat(st.parts);
      if st.parts != [] {
        var last := st.parts[|st.parts| - 1];
        assert GoodPart(last);
      }
    }
  }

  lemma {:induction false} CloseStepGood(st: SplitState, s: string)
    requires ScanGood(st, s)
    ensures ScanGood(SplitStep(st, '}'), s + "}")
  {
    FlushedGood(st, s);
    assert SplitStep(st, '}') == SplitState(Flushed(st) + ["}"], []);
    ClosedGood(Flushed(st), s);
  }

  /** A `}` appended to well-formed finished elements leaves a state the scan keeps. */
  lemma {:induction false} ClosedGood(parts: seq<string>, s: string)
    requires Concat(parts) == s && AllGood(parts) && Chained(parts)
    ensures ScanGood(SplitState(parts + ["}"], []), s + "}")
  {
    ConcatAppend(parts, "}");
    ChainedAppend(parts, "}");
    AllGoodAppend(parts, "}");
    assert (parts + ["}"])[|parts|] == "}";
  }

  lemma {:induction false} BarStepGood(st: SplitState, s: string)
    requires ScanGood(st, s)
    ensures ScanGood(SplitStep(st, '|'), s + "|")
  {
    var parts := Flushed(st);
    FlushedGood(st, s);
    assert SplitStep(st, '|') == SplitState(parts, "|");
    assert Links(parts, "|");
  }

  lemma {:induction false} PlainStepGood(st: SplitState, s: string, c: char)
    requires ScanGood(st, s) && c != '|' && c != '}'
    ensures ScanGood(SplitStep(st, c), s + [c])
  {
    assert SplitStep(st, c) == SplitState(st.parts, st.current + [c]);
    assert Concat(st.parts) + (st.current + [c]) == s + [c];
    ExtendedGood(st.current, c);
    if st.current != [] {
      assert (st.current + [c])[0] == st.current[0];
    }
  }

  /** A character other than `|` and `}` appended to an element keeps it well formed. */
  lemma {:induction false} ExtendedGood(p: string, c: char)
    requires (p == [] || GoodPart(p)) && p != "}" && c != '|' && c != '}'
    ensures GoodPart(p + [c]) && p + [c] != "}"
  {
    var q := p + [c];
    assert forall i :: 0 <= i < |q| ==> q[i] == (if i < |p| then p[i] else c);
    assert q[|q| - 1] == c;
  }

  lemma {:induction false} SplitStepGood(st: SplitState, s: string, c: char)
    requires ScanGood(st, s)
    ensures ScanGood(SplitStep(st, c), s + [c])
  {
    if c == '}' {
      CloseStepGood(st, s);
    } else if c == '|' {
      BarStepGood(st, s);
    } else {
      PlainStepGood(st, s, c);
    }
  }

  lemma {:induction false} SplitScanGood(s: string)
    ensures ScanGood(SplitScan(s), s)
    decreases |s|
  {
    if s != [] {
      var init := s[..|s| - 1];
      SplitScanGood(init);
      SplitStepGood(SplitScan(init), init, s[|s| - 1]);
      assert init + [s[|s| - 1]] == s;
    }
  }

  lemma {:induction false} SplitRunAppend(st: SplitState, a: string, b: string)
    ensures SplitRun(st, a + b) == SplitRun(SplitRun(st, a), b)
    decreases |b|
  {
    if b == [] {
      assert a + b == a;
    } else {
      assert (a + b)[..|a + b| - 1] == a + b[..|b| - 1];
      assert (a + b)[|a + b| - 1] == b[|b| - 1];
      SplitRunAppend(st, a, b[..|b| - 1]);
    }
  }

  /** Text without `|` or `}` only extends the element being built. */
  lemma {:induction false} SplitRunPlain(st: SplitState, s: string)
    requires forall i :: 0 <= i < |s| ==> s[i] != '|' && s[i] != '}'
    ensures SplitRun(st, s) == SplitState(st.parts, st.current + s)
    decreases |s|
  {
    if s != [] {
      SplitRunPlain(st, s[..|s| - 1]);
      assert st.current + s[..|s| - 1] + [s[|s| - 1]] == st.current + s;
    } else {
      assert st.current + s == st.current;
    }
  }

  /**
   * The split loses nothing (joining the elements gives the message back), every element is
   * well formed (`}` is always an element of its own, `|` only ever starts one), and an element
   * that does not follow a `}` starts with `|` or is `}`.
   */
  lemma {:induction false} PfodSplitProperties(s: string)
    ensures Concat(PfodSplit(s)) == s
    ensures AllGood(PfodSplit(s)) && Chained(PfodSplit(s))
  {
    SplitScanGood(s);
    FlushedGood(SplitScan(s), s);
  }

  /** A one-item menu `head|item}` splits into the head, the item and the closing brace. */
  lemma {:induction false} PfodSplitOneItem(head: string, item: string)
    requires head != [] && forall i :: 0 <= i < |head| ==> head[i] != '|' && head[i] != '}'
    requires forall i :: 0 <= i < |item| ==> item[i] != '|' && item[i] != '}'
    ensures PfodSplit(head + "|" + item + "}") == [head, "|" + item, "}"]
  {
    var st0 := SplitState([], []);
    var a1 := head + "|";
    SplitHeadBar(head);
    var a2 := a1 + item;
    SplitRunAppend(st0, a1, item);
    SplitRunPlain(SplitState([head], "|"), item);
    assert SplitRun(st0, a2) == SplitState([head], "|" + item);
    var a3 := a2 + "}";
    assert a3[..|a3| - 1] == a2 && a3[|a3| - 1] == '}';
    assert SplitRun(st0, a3) == SplitStep(SplitState([head], "|" + item), '}');
  }

  lemma {:induction false} SplitHeadBar(head: string)
    requires head != [] && forall i :: 0 <= i < |head| ==> head[i] != '|' && head[i] != '}'
    ensures SplitRun(SplitState([], []), head + "|") == SplitState([head], "|")
  {
    var st0 := SplitState([], []);
    SplitRunPlain(st0, head);
    assert st0.current + head == head;
    var a1 := head + "|";
    assert a1[..|a1| - 1] == head && a1[|a1| - 1] == '|';
    assert SplitRun(st0, a1) == SplitStep(SplitState([], head), '|');
  }

  /** The documented example `{,~`0~V2|+A~z}`. */
  lemma {:induction false} PfodSplitExample()
    ensures PfodSplit("{,~`0~V2|+A~z}") == ["{,~`0~V2", "|+A~z", "}"]
  {
    assert "{,~`0~V2|+A~z}" == "{,~`0~V2" + "|" + "+A~z" + "}";
    assert "|+A~z" == "|" + "+A~z";
    PfodSplitOneItem("{,~`0~V2", "+A~z");
  }

  /** `pfodToJson`, keeping the `cmd` array and leaving out its JSON text. */
  method PfodToJson(pfodString: string) returns (cmdArray: seq<string>)
    ensures cmdArray == PfodSplit(pfodString)
  {
    cmdArray := [];
    var currentElement: string := [];
    var i := 0;
    while i < |pfodString|
      invariant 0 <= i <= |pfodString|
      invariant SplitState(cmdArray, currentElement) == SplitScan(pfodString[..i])
    {
      assert pfodString[..i + 1][..i] == pfodString[..i];
      var c := pfodString[i];
      if c == '|' || c == '}' {
        if |currentElement| > 0 {
          cmdArray := cmdArray + [currentElement];
        }
        currentElement := [c];
        if c == '}' {
          cmdArray := cmdArray + [currentElement];
          currentElement := [];
        }
      } else {
        currentElement := currentElement + [c];
      }
      i := i + 1;
    }
    assert pfodString[..i] == pfodString;
    if |currentElement| > 0 {
      cmdArray := cmdArray + [currentElement];
    }
  }

  /** What one `processReadBuffer` call does to the buffer. */
  datatype Framing = Framing(
    newBuffer: string,
    captured: Option<string>,  // text passed to the message collector as raw output
    message: Option<string>)   // the complete pfod message taken out of the buffer

  /**
   * `processReadBuffer`: without a `{` all the buffered text is raw output; otherwise the text
   * before the first `{` is raw output and, once a `}` follows, the message runs to the first `}`.
   */
  function Frame(buffer: string): Framing {
    var start := IndexOf(buffer, '{');
    if start.None? then Framing([], if |buffer| > 0 then Some(buffer) else None, None)
    else
      var captured := if start.value > 0 then Some(buffer[..start.value]) else None;
      var rest := buffer[start.value..];
      var end := IndexOf(rest, '}');
      if end.None? then Framing(rest, captured, None)
      else Framing(rest[end.value + 1..], captured, Some(rest[..end.value + 1]))
  }

  /** The three pieces of a framing, in stream order. */
  function Pieces(f: Framing): string {
    f.captured.GetOr([]) + f.message.GetOr([]) + f.newBuffer
  }

  /** Framing loses no text: the raw output, the message and the remaining buffer, in order, are the old buffer. */
  lemma {:induction false} FrameKeepsText(buffer: string)
    ensures Pieces(Frame(buffer)) == buffer
  {
    var start := IndexOf(buffer, '{');
    if start.None? {
      FrameWithoutBrace(buffer);
    } else {
      FrameFromBrace(buffer, start.value);
    }
  }

  lemma {:induction false} FrameWithoutBrace(buffer: string)
    requires IndexOf(buffer, '{').None?
    ensures Pieces(Frame(buffer)) == buffer
  {
    var f := Frame(buffer);
    assert f.newBuffer == [] && f.message == None;
    assert f.captured.GetOr([]) == buffer;
  }

  lemma {:induction false} FrameFromBrace(buffer: string, start: nat)
    requires IndexOf(buffer, '{') == Some(start)
    ensures Pieces(Frame(buffer)) == buffer
  {
    var end := IndexOf(buffer[start..], '}');
    if end.None? {
      FrameUnclosed(buffer, start);
    } else {
      FrameClosed(buffer, start, end.value);
    }
  }

  lemma {:induction false} FrameUnclosed(buffer: string, start: nat)
    requires IndexOf(buffer, '{') == Some(start) && IndexOf(buffer[start..], '}').None?
    ensures Pieces(Frame(buffer)) == buffer
  {
    var f := Frame(buffer);
    assert f == Framing(buffer[start..], if start > 0 then Some(buffer[..start]) else None, None);
    if start == 0 {
      assert buffer[start..] == buffer;
    } else {
      assert buffer[..start] + [] + buffer[start..] == buffer;
    }
  }

  lemma {:induction false} FrameClosed(buffer: string, start: nat, end: nat)
    requires IndexOf(buffer, '{') == Some(start) && IndexOf(buffer[start..], '}') == Some(end)
    ensures Pieces(Frame(buffer)) == buffer
  {
    var f, rest := Frame(buffer), buffer[start..];
    assert f == Framing(rest[end + 1..], if start > 0 then Some(buffer[..start]) else None, Some(rest[..end + 1]));
    ThreePieces(buffer, start, start + end + 1);
    if start == 0 {
      assert buffer[..start] == [];
    }
  }

  /**
   * Raw output holds no `{`; with no `{` the buffer is emptied; without a `}` after the first `{`
   * the buffer keeps waiting from that `{` on.
   */
  lemma {:induction false} FrameBuffering(buffer: string)
    ensures var f := Frame(buffer);
      f.captured.Some? ==> f.captured.value != [] && '{' !in f.captured.value
    ensures '{' !in buffer ==> Frame(buffer).newBuffer == [] && Frame(buffer).message == None
    ensures var f := Frame(buffer);
      '{' in buffer && f.message.None? ==> f.newBuffer != [] && f.newBuffer[0] == '{' && '}' !in f.newBuffer
  {
  }

  /** A framed message opens with `{` and holds exactly one `}`, its last character. */
  lemma {:induction false} FrameMessageShape(buffer: string)
    ensures var f := Frame(buffer);
      f.message.Some? ==>
        (|f.message.value| >= 2 && f.message.value[0] == '{' &&
         f.message.value[|f.message.value| - 1] == '}' && Count(f.message.value, '}') == 1)
  {
    var start := IndexOf(buffer, '{');
    if start.Some? {
      var rest := buffer[start.value..];
      var end := IndexOf(rest, '}');
      if end.Some? {
        var msg := rest[..end.value + 1];
        assert msg == rest[..end.value] + ['}'];
        CountAppend(rest[..end.value], ['}'], '}');
      }
    }
  }

  /** The serial adapter's receive side. */
  class SerialReceiver {
    var readBuffer: string
    /** Text handed to the message collector, in order. */
    var collected: seq<string>
    /** Whether a `send` is waiting for its response (`responseResolve` is set). */
    var awaiting: bool
    /** The `cmd` arrays handed to waiting senders, in order. */
    var resolved: seq<seq<string>>
    /** Whether a message collector is installed. */
    const hasCollector: bool

    constructor (hasCollector: bool)
      ensures readBuffer == [] && collected == [] && !awaiting && resolved == []
      ensures this.hasCollector == hasCollector
    {
      readBuffer := [];
      collected := [];
      awaiting := false;
      resolved := [];
      this.hasCollector := hasCollector;
    }

    /** `processReadBuffer`. */
    method ProcessReadBuffer()
      modifies this
      ensures var f := Frame(old(readBuffer));
        readBuffer == f.newBuffer &&
        collected == old(collected) +
          (if hasCollector then OptionSeq(f.captured) + OptionSeq(f.message) else []) &&
        (f.message.Some? && old(awaiting) ==> resolved == old(resolved) + [PfodSplit(f.message.value)] && !awaiting) &&
        (f.message.None? || !old(awaiting) ==> resolved == old(resolved) && awaiting == old(awaiting))
    {
      var captured, message, rest := FrameBuffer(readBuffer);
      if hasCollector {
        collected := collected + OptionSeq(captured) + OptionSeq(message);
      }
      if message.Some? && awaiting {
        var cmdArray := PfodToJson(message.value);
        resolved := resolved + [cmdArray];
        awaiting := false;
      }
      readBuffer := rest;
    }
  }

  /** The steps of `processReadBuffer` that cut the buffer: raw text before `{`, then a message up to `}`. */
  method FrameBuffer(buffer: string) returns (captured: Option<string>, message: Option<string>, rest: string)
    ensures Framing(rest, captured, message) == Frame(buffer)
  {
    captured, message, rest := None, None, buffer;
    var startBrace := IndexOf(rest, '{');
    if startBrace.None? {
      if |rest| > 0 {
        captured := Some(rest);
      }
      return captured, message, [];
    }
    if startBrace.value > 0 {
      captured := Some(rest[..startBrace.value]);
      rest := rest[startBrace.value..];
    }
    var endBrace := IndexOf(rest, '}');
    if endBrace.None? {
      return;
    }
    message := Some(rest[..endBrace.value + 1]);
    rest := rest[endBrace.value + 1..];
  }

  function OptionSeq<T>(o: Option<T>): seq<T> {
    if o.Some? then [o.value] else []
  }

  /**
   * The constructor's response timeout in milliseconds: the configured seconds (3 when not
   * configured) clamped to [0, 30], with 0 meaning "never", which waits 60 seconds.
   */
  function ResponseTimeoutMs(responseTimeoutSec: Option<int>): (ms: int)
    ensures ms == 60000 || (1000 <= ms <= 30000 && ms % 1000 == 0)
    ensures responseTimeoutSec.None? ==> ms == 3000
    ensures responseTimeoutSec.Some? && responseTimeoutSec.value <= 0 ==> ms == 60000
    ensures responseTimeoutSec.Some? && responseTimeoutSec.value >= 30 ==> ms == 30000
    ensures responseTimeoutSec.Some? && 0 < responseTimeoutSec.value <= 30 ==> ms == responseTimeoutSec.value * 1000
  {
    var seconds := responseTimeoutSec.GetOr(3);
    var validated := if seconds > 30 then 30 else if seconds < 0 then 0 else seconds;
    if validated == 0 then 60000 else validated * 1000
  }

  /** The constructor's protocol: the configured one, `http` when none is configured. */
  function Protocol(configProtocol: string): string {
    if configProtocol == [] then "http" else configProtocol
  }

  /** The constructor's retry count for a protocol. */
  function MaxRetries(protocol: string): (n: nat)
    ensures n <= 2
    ensures protocol == "ble" ==> n == 1
    ensures protocol == "http" || protocol == "serial" ==> n == 2
    ensures protocol !in {"ble", "http", "serial"} ==> n == 0
  {
    if protocol == "ble" then 1 else if protocol == "http" || protocol == "serial" then 2 else 0
  }

  /** A connection configured without a protocol is HTTP, and so retries twice. */
  lemma {:induction false} DefaultProtocolRetries()
    ensures MaxRetries(Protocol([])) == 2
  {
  }

  /** The outcome of the `sendOnce` attempt `i`: Some(response) on success, None when it throws. */
  function Attempt(outcomes: seq<Option<string>>, i: nat): Option<string> {
    if i < |outcomes| then outcomes[i] else None
  }

  /** The first of the attempts `0..limit` that succeeds, if any. */
  function FirstSuccess(outcomes: seq<Option<string>>, limit: nat): (r: Option<nat>)
    ensures r.Some? ==> r.value < limit && Attempt(outcomes, r.value).Some?
    ensures r.Some? ==> forall i :: 0 <= i < r.value ==> Attempt(outcomes, i).None?
    ensures r.None? ==> forall i :: 0 <= i < limit ==> Attempt(outcomes, i).None?
  {
    if limit == 0 then None
    else match FirstSuccess(outcomes, limit - 1)
      case Some(i) => Some(i)
      case None => if Attempt(outcomes, limit - 1).Some? then Some(limit - 1) else None
  }

  /**
   * `HTTPConnection.send`: takes one de-duplication character, then tries `sendOnce` with the
   * same prefixed command up to `maxRetries + 1` times and returns the first response; when every
   * attempt fails it fails. `outcomes` stands for what each attempt of `sendOnce` does.
   */
  method HttpSend(cmd: string, maxRetries: nat, dedup: Dedup, outcomes: seq<Option<string>>)
    returns (response: Option<string>, sent: seq<string>)
    requires dedup.Valid()
    modifies dedup
    ensures dedup.Valid() && dedup.counter == (old(dedup.counter) + 1) % |DedupChars|
    ensures forall k :: 0 <= k < |sent| ==> sent[k] == [DedupChars[old(dedup.counter)]] + cmd
    ensures 1 <= |sent| <= maxRetries + 1
    ensures match FirstSuccess(outcomes, maxRetries + 1)
      case Some(i) => response == Attempt(outcomes, i) && |sent| == i + 1
      case None => response == None && |sent| == maxRetries + 1
  {
    var c := dedup.Next();
    var cmdWithPrefix := [c] + cmd;
    sent := [];
    var attempt := 0;
    while attempt <= maxRetries
      invariant 0 <= attempt <= maxRetries + 1
      invariant |sent| == attempt
      invariant forall k :: 0 <= k < |sent| ==> sent[k] == cmdWithPrefix
      invariant forall i :: 0 <= i < attempt ==> Attempt(outcomes, i).None?
    {
      sent := sent + [cmdWithPrefix];
      var result := Attempt(outcomes, attempt);
      if result.Some? {
        FirstSuccessIs(outcomes, maxRetries + 1, attempt);
        return result, sent;
      }
      if attempt >= maxRetries {
        return None, sent;
      }
      attempt := attempt + 1;
    }
    return None, sent;
  }

  lemma {:induction false} FirstSuccessIs(outcomes: seq<Option<string>>, limit: nat, i: nat)
    requires i < limit && Attempt(outcomes, i).Some?
    requires forall j :: 0 <= j < i ==> Attempt(outcomes, j).None?
    ensures FirstSuccess(outcomes, limit) == Some(i)
  {
    if i < limit - 1 {
      FirstSuccessIs(outcomes, limit - 1, i);
    }
  }
}
