/**
 * The message log behind the raw-message viewer: a bounded, pausable log of the messages sent
 * to and received from the device, its filters, its CSV export, and the viewer's direction
 * filter.
 */
module MessageViewer {
  import opened Wrappers
  import opened Text
  import opened Seqs

  /** One logged message; `size` is the message's length. */
  datatype Entry = Entry(timestamp: string, direction: string, protocol: string, message: string, cmd: Option<string>, size: nat)

  /** The log's capacity when none is given. */
  const DefaultMaxMessages := 500

  /** How many entries a log with limit `max` can hold: a limit below zero holds none. */
  function Capacity(max: int): nat {
    if max < 0 then 0 else max
  }

  /**
   * The log after `addMessage` stored `e`: the entry is pushed and, when the log is then over
   * its limit, the oldest entry is dropped.
   */
  function Logged(msgs: seq<Entry>, e: Entry, max: int): (r: seq<Entry>)
    ensures |r| == if |msgs| + 1 > max then |msgs| else |msgs| + 1
    ensures r == (msgs + [e])[|msgs| + 1 - |r|..]
    ensures r != [] ==> r[|r| - 1] == e
  {
    var pushed := msgs + [e];
    if |pushed| > max then pushed[1..] else pushed
  }

  /** The log after storing each of `es` in turn. */
  function LogAll(msgs: seq<Entry>, es: seq<Entry>, max: int): seq<Entry>
    decreases |es|
  {
    if es == [] then msgs else Logged(LogAll(msgs, es[..|es| - 1], max), es[|es| - 1], max)
  }

  /** `Logged` is a push then a drop down to the capacity. */
  lemma {:induction false} LoggedWithinCapacity(msgs: seq<Entry>, e: Entry, max: int)
    requires |msgs| <= Capacity(max)
    ensures var pushed := msgs + [e];
      Logged(msgs, e, max) == if |pushed| > Capacity(max) then pushed[1..] else pushed
  {
  }

  /**
   * However many messages arrive, a log that starts within its limit holds exactly the most
   * recent `Capacity(max)` of everything stored, in arrival order.
   */
  lemma {:induction false} LogKeepsNewest(msgs: seq<Entry>, es: seq<Entry>, max: int)
    requires |msgs| <= Capacity(max)
    ensures LogAll(msgs, es, max) == Newest(msgs + es, Capacity(max))
    decreases |es|
  {
    if es == [] {
      assert msgs + es == msgs;
    } else {
      var init, e := es[..|es| - 1], es[|es| - 1];
      LogKeepsNewest(msgs, init, max);
      LogStep(LogAll(msgs, init, max), msgs + init, e, max);
      AppendInitLast(msgs, es);
    }
  }

  /** Storing one more entry in a log holding the newest of `s` leaves the newest of `s + [e]`. */
  lemma {:induction false} LogStep(kept: seq<Entry>, s: seq<Entry>, e: Entry, max: int)
    requires kept == Newest(s, Capacity(max))
    ensures Logged(kept, e, max) == Newest(s + [e], Capacity(max))
  {
    LoggedWithinCapacity(kept, e, max);
    NewestAppend(s, e, Capacity(max));
  }

  function HasProtocol(protocol: string, e: Entry): bool {
    e.protocol == protocol
  }

  function HasDirection(direction: string, e: Entry): bool {
    e.direction == direction
  }

  /** The CSV text of one message: `"` doubled and each line feed turned into a space. */
  function Escape(s: string): (r: string)
    ensures '\n' !in r
    ensures |r| == |s| + Count(s, '"')
  {
    if s == [] then []
    else
      (if s[0] == '"' then "\"\"" else if s[0] == '\n' then " " else [s[0]]) + Escape(s[1..])
  }

  /** Reads an escaped message back: each `""` becomes `"`. */
  function Unescape(t: string): string
    decreases |t|
  {
    if t == [] then []
    else if |t| >= 2 && t[0] == '"' && t[1] == '"' then "\"" + Unescape(t[2..])
    else [t[0]] + Unescape(t[1..])
  }

  /** `s` with every line feed replaced by a space. */
  function NewlinesToSpaces(s: string): (r: string)
    ensures |r| == |s| && '\n' !in r
  {
    if s == [] then [] else (if s[0] == '\n' then " " else [s[0]]) + NewlinesToSpaces(s[1..])
  }

  /** The quote doubling is undone exactly: only the line feeds are lost. */
  lemma {:induction false} UnescapeEscape(s: string)
    ensures Unescape(Escape(s)) == NewlinesToSpaces(s)
    decreases |s|
  {
    if s != [] {
      UnescapeEscape(s[1..]);
      var rest := Escape(s[1..]);
      if s[0] == '"' {
        assert Escape(s) == "\"\"" + rest;
        assert Escape(s)[2..] == rest;
      } else {
        var head := if s[0] == '\n' then " " else [s[0]];
        assert Escape(s) == head + rest;
        assert Escape(s)[1..] == rest;
      }
    }
  }

  /** The first line of every export. */
  const HeaderLine := "timestamp,direction,protocol,message,size"

  /** One CSV row: the four text fields quoted, then the size. */
  function Row(e: Entry): string {
    "\"" + e.timestamp + "\",\"" + e.direction + "\",\"" + e.protocol + "\",\"" + Escape(e.message) + "\"," + NatToString(e.size)
  }

  function Rows(msgs: seq<Entry>): (rows: seq<string>)
    ensures |rows| == |msgs|
    ensures forall i :: 0 <= i < |msgs| ==> rows[i] == Row(msgs[i])
  {
    seq(|msgs|, i requires 0 <= i < |msgs| => Row(msgs[i]))
  }

  /** `exportAsCSV`. */
  function CsvText(msgs: seq<Entry>): string {
    if msgs == [] then HeaderLine + "\n" else HeaderLine + "\n" + Join(Rows(msgs), '\n')
  }

  /** An entry whose text fields hold no line feed. */
  predicate OneLine(e: Entry) {
    '\n' !in e.timestamp && '\n' !in e.direction && '\n' !in e.protocol
  }

  lemma {:induction false} RowIsOneLine(e: Entry)
    requires OneLine(e)
    ensures '\n' !in Row(e)
  {
    var digits := NatToString(e.size);
    assert '\n' !in digits by {
      forall i | 0 <= i < |digits| ensures digits[i] != '\n' {
        assert IsDigit(digits[i]);
      }
    }
  }

  /**
   * The export has the header line and then exactly one line per logged message, in log order
   * (an empty log leaves one empty line after the header), as long as the timestamp, direction
   * and protocol hold no line feed; the message's own line feeds never break a line.
   */
  lemma {:induction false} CsvLines(msgs: seq<Entry>)
    requires forall i :: 0 <= i < |msgs| ==> OneLine(msgs[i])
    ensures Split(CsvText(msgs), '\n') == [HeaderLine] + (if msgs == [] then [""] else Rows(msgs))
  {
    if msgs == [] {
      EmptyExport(msgs, []);
    } else {
      RowsExport(msgs);
    }
  }

  lemma {:induction false} EmptyExport(msgs: seq<Entry>, none: string)
    requires msgs == [] && none == []
    ensures Split(CsvText(msgs), '\n') == [HeaderLine, none]
  {
    HeaderThenLines(none);
    assert CsvText(msgs) == HeaderLine + "\n" + none;
    assert IndexOf(none, '\n') == None;
  }

  lemma {:induction false} RowsExport(msgs: seq<Entry>)
    requires msgs != [] && forall i :: 0 <= i < |msgs| ==> OneLine(msgs[i])
    ensures Split(CsvText(msgs), '\n') == [HeaderLine] + Rows(msgs)
  {
    var rows := Rows(msgs);
    forall k | 0 <= k < |rows| ensures '\n' !in rows[k] {
      RowIsOneLine(msgs[k]);
    }
    JoinSplit(rows, '\n');
    HeaderThenLines(Join(rows, '\n'));
  }

  /** The header line, a line feed, then `body`: split on line feeds, the header comes first. */
  lemma {:induction false} HeaderThenLines(body: string)
    ensures Split(HeaderLine + "\n" + body, '\n') == [HeaderLine] + Split(body, '\n')
  {
    assert '\n' !in HeaderLine;
    assert HeaderLine + "\n" + body == HeaderLine + ['\n'] + body;
    SplitAtFirst(HeaderLine, '\n', body);
  }

  /** `shouldDisplayMessage`: the viewer's direction filter, where "all" lets everything through. */
  predicate ShouldDisplay(filterDirection: string, e: Entry) {
    !(filterDirection != "all" && e.direction != filterDirection)
  }

  /**
   * The viewer shows the whole log when its filter is "all", and otherwise exactly what the
   * collector's own direction filter returns.
   */
  lemma {:induction false} DisplayedMatchesDirectionFilter(msgs: seq<Entry>, filterDirection: string)
    ensures filterDirection == "all" ==> Filter(msgs, e => ShouldDisplay(filterDirection, e)) == msgs
    ensures filterDirection != "all" ==>
      Filter(msgs, e => ShouldDisplay(filterDirection, e)) == Filter(msgs, e => HasDirection(filterDirection, e))
  {
    if filterDirection == "all" {
      FilterAll(msgs, e => ShouldDisplay(filterDirection, e));
    } else {
      FilterCongruent(msgs, e => ShouldDisplay(filterDirection, e), e => HasDirection(filterDirection, e));
    }
  }

  /** The `MessageCollector` object; subscribers are not modelled. */
  class MessageCollector {
    var messages: seq<Entry>
    const maxMessages: int
    var isPaused: bool

    ghost predicate Valid()
      reads this
    {
      |messages| <= Capacity(maxMessages)
    }

    constructor (maxMessages: Option<int>)
      ensures this.maxMessages == maxMessages.GetOr(DefaultMaxMessages)
      ensures messages == [] && !isPaused && Valid()
    {
      this.maxMessages := maxMessages.GetOr(DefaultMaxMessages);
      messages := [];
      isPaused := false;
    }

    /**
     * `addMessage`: a paused log ignores the message; otherwise the entry, stamped with `now`,
     * is stored and the log stays within its limit.
     */
    method AddMessage(direction: string, message: string, protocol: string, cmd: Option<string>, now: string)
      requires Valid()
      modifies this`messages
      ensures Valid()
      ensures old(isPaused) ==> messages == old(messages)
      ensures !old(isPaused) ==>
        messages == Logged(old(messages), Entry(now, direction, protocol, message, cmd, |message|), maxMessages)
    {
      if isPaused {
        return;
      }
      var entry := Entry(now, direction, protocol, message, cmd, |message|);
      messages := messages + [entry];
      if |messages| > maxMessages {
        messages := messages[1..];
      }
    }

    /** `getMessages`: a copy of the log. */
    method GetMessages() returns (r: seq<Entry>)
      ensures r == messages
    {
      r := messages;
    }

    /** `getMessagesByProtocol`: the entries of `protocol`, in log order. */
    method GetMessagesByProtocol(protocol: string) returns (r: seq<Entry>)
      ensures r == Filter(messages, e => HasProtocol(protocol, e))
      ensures forall e :: e in r <==> e in messages && e.protocol == protocol
      ensures Subsequence(r, messages)
    {
      r := Filter(messages, e => HasProtocol(protocol, e));
      FilterIsSubsequence(messages, e => HasProtocol(protocol, e));
    }

    /** `getMessagesByDirection`: the entries sent or received, in log order. */
    method GetMessagesByDirection(direction: string) returns (r: seq<Entry>)
      ensures r == Filter(messages, e => HasDirection(direction, e))
      ensures forall e :: e in r <==> e in messages && e.direction == direction
      ensures Subsequence(r, messages)
    {
      r := Filter(messages, e => HasDirection(direction, e));
      FilterIsSubsequence(messages, e => HasDirection(direction, e));
    }

    /** `clear`. */
    method Clear()
      modifies this`messages
      ensures messages == [] && Valid()
    {
      messages := [];
    }

    /** `pause`. */
    method Pause()
      modifies this`isPaused
      ensures isPaused
    {
      isPaused := true;
    }

    /** `resume`. */
    method Resume()
      modifies this`isPaused
      ensures !isPaused
    {
      isPaused := false;
    }

    /** `exportAsCSV`: the header line, then one row per entry joined by line feeds. */
    method ExportAsCsv() returns (csv: string)
      ensures csv == CsvText(messages)
      ensures HeaderLine + "\n" <= csv
    {
      var header := HeaderLine + "\n";
      if |messages| == 0 {
        return header;
      }
      var log := messages;
      var rows := seq(|log|, i requires 0 <= i < |log| => Row(log[i]));
      csv := header + Join(rows, '\n');
    }
  }
}
