/**
 * The device-side menu dispatcher: it reads one parsed pfod command and answers with a full
 * menu, a menu update, a call of the registered close-connection function, or the empty
 * message `{}` that keeps pfodApp connected.
 *
 * The pfodParser library is an oracle: one `ParsedCommand` is what `parse()`, `cmdEquals('A')`,
 * `isRefresh()`, `getPfodAppStream()` and `sendRefreshAndVersion(0)` report for one call, and
 * the parser's output is the character sequence `Output.written` that every `print` appends to.
 */
module MainMenu {
  import opened Wrappers

  /** The identity of a connection stream. */
  type StreamId = nat

  /** The identity of a host close-connection function. */
  type CloserId = nat

  /** What the parser reports for one call of `handle_pfodMainMenu`. */
  datatype ParsedCommand = ParsedCommand(
    code: char,                  // parse(): '\0' when no complete command was read
    equalsA: bool,               // cmdEquals('A')
    isRefresh: bool,             // isRefresh()
    stream: StreamId,            // getPfodAppStream()
    refreshAndVersion: string)   // the text sendRefreshAndVersion(0) prints

  /** The parser's output stream, seen through what has been written to it. */
  class Output {
    var written: string

    constructor ()
      ensures written == []
    {
      written := [];
    }

    method Print(s: string)
      modifies this
      ensures written == old(written) + s
    {
      written := written + s;
    }
  }

  /** The pfod Menu message that shows the main drawing. */
  function FullMenu(refreshAndVersion: string, loadCmd: string): (r: string)
    ensures "{,<bg w>~" <= r
    ensures |r| >= |loadCmd| + 14
    ensures r[|r| - |loadCmd| - 5..] == "|+A~" + loadCmd + "}"
  {
    "{," + "<bg w>~" + refreshAndVersion + "|+A~" + loadCmd + "}"
  }

  /** The pfod Update Menu message that asks pfodApp to reload item A. */
  const MenuUpdate: string := "{;" + "~" + "|+A" + "}"

  /** The menu message sent for a `.` or `A` command. */
  function MenuFor(cmd: ParsedCommand, loadCmd: string): string {
    if cmd.isRefresh then MenuUpdate else FullMenu(cmd.refreshAndVersion, loadCmd)
  }

  /** What one call of `handle_pfodMainMenu` does: the text it writes and the close call it makes. */
  datatype Reply = Reply(text: string, close: Option<(CloserId, StreamId)>)

  /** The reply to `cmd` given the registered closer and the drawing's load command. */
  function Respond(cmd: ParsedCommand, closer: Option<CloserId>, loadCmd: string): Reply {
    if cmd.code == 0 as char then Reply([], None)
    else if cmd.code == '.' || cmd.equalsA then Reply(MenuFor(cmd, loadCmd), None)
    else if cmd.code == '!' then
      Reply([], if closer.Some? then Some((closer.value, cmd.stream)) else None)
    else Reply("{}", None)
  }

  /** The file-static state of the dispatcher. */
  class Dispatcher {
    var initialized: bool
    var closer: Option<CloserId>
    /** Every call made to the registered close-connection function, in order. */
    var closeCalls: seq<(CloserId, StreamId)>
    /** What `print(mainDwg)` writes: the main drawing's unique load command. */
    const loadCmd: string

    constructor (loadCmd: string)
      ensures !initialized && closer == None && closeCalls == [] && this.loadCmd == loadCmd
    {
      initialized := false;
      closer := None;
      closeCalls := [];
      this.loadCmd := loadCmd;
    }

    /** `init_pfodMainMenu`: the first call stores the closer; later calls change nothing. */
    method Init(closeFn: Option<CloserId>)
      modifies this
      ensures initialized
      ensures old(initialized) ==> closer == old(closer)
      ensures !old(initialized) ==> closer == closeFn
      ensures closeCalls == old(closeCalls)
    {
      if initialized {
        return;
      }
      initialized := true;
      closer := closeFn;
    }

    /** `closeConnection`: calls the registered closer, if there is one, with `io`. */
    method CloseConnection(io: StreamId)
      modifies this`closeCalls
      ensures closeCalls == old(closeCalls) + (if closer.Some? then [(closer.value, io)] else [])
    {
      if closer.Some? {
        closeCalls := closeCalls + [(closer.value, io)];
      }
    }

    /** `sendMainMenu`. */
    method SendMainMenu(cmd: ParsedCommand, out: Output)
      modifies out
      ensures out.written == old(out.written) + FullMenu(cmd.refreshAndVersion, loadCmd)
    {
      out.Print("{,");
      out.Print("<bg w>~");
      out.Print(cmd.refreshAndVersion);
      out.Print("|+A~");
      out.Print(loadCmd);
      out.Print("}");
    }

    /** `sendMainMenuUpdate`. */
    method SendMainMenuUpdate(out: Output)
      modifies out
      ensures out.written == old(out.written) + MenuUpdate
    {
      out.Print("{;");
      out.Print("~");
      out.Print("|+A");
      out.Print("}");
    }

    /**
     * `handle_pfodMainMenu`: it runs whether or not `Init` was called (the missing call is
     * only reported on the debug stream), writes the reply and makes the close call.
     */
    method Handle(cmd: ParsedCommand, out: Output)
      modifies this`closeCalls, out
      ensures out.written == old(out.written) + Respond(cmd, closer, loadCmd).text
      ensures closeCalls == old(closeCalls) + OptionToSeq(Respond(cmd, closer, loadCmd).close)
    {
      if cmd.code != 0 as char {
        if cmd.code == '.' {
          if cmd.isRefresh {
            SendMainMenuUpdate(out);
          } else {
            SendMainMenu(cmd, out);
          }
        } else if cmd.equalsA {
          if cmd.isRefresh {
            SendMainMenuUpdate(out);
          } else {
            SendMainMenu(cmd, out);
          }
        } else if cmd.code == '!' {
          CloseConnection(cmd.stream);
        } else {
          out.Print("{}");
        }
      }
    }
  }

  function OptionToSeq<T>(o: Option<T>): seq<T> {
    if o.Some? then [o.value] else []
  }

  /** When `parse()` reports no command, nothing is written and no closer is called. */
  lemma {:induction false} NoCommandNoEffect(cmd: ParsedCommand, closer: Option<CloserId>, loadCmd: string)
    requires cmd.code == 0 as char
    ensures Respond(cmd, closer, loadCmd) == Reply([], None)
  {
  }

  /** `.` and `A` answer with the update exactly when the parser reports a refresh. */
  lemma {:induction false} MenuCommandsChooseUpdateOnRefresh(cmd: ParsedCommand, closer: Option<CloserId>, loadCmd: string)
    requires cmd.code != 0 as char && (cmd.code == '.' || cmd.equalsA)
    ensures Respond(cmd, closer, loadCmd).close == None
    ensures Respond(cmd, closer, loadCmd).text == MenuUpdate <==> cmd.isRefresh
    ensures !cmd.isRefresh ==> Respond(cmd, closer, loadCmd).text == FullMenu(cmd.refreshAndVersion, loadCmd)
  {
    if !cmd.isRefresh {
      var full := FullMenu(cmd.refreshAndVersion, loadCmd);
      assert full[1] == "{,<bg w>~"[1] == ',' != MenuUpdate[1];
    }
  }

  /** `!` writes nothing and calls the registered closer, if any, once with the command's stream. */
  lemma {:induction false} CloseCommandCallsCloserOnce(cmd: ParsedCommand, closer: Option<CloserId>, loadCmd: string)
    requires cmd.code == '!' && !cmd.equalsA
    ensures Respond(cmd, closer, loadCmd).text == []
    ensures closer.None? ==> Respond(cmd, closer, loadCmd).close == None
    ensures closer.Some? ==> Respond(cmd, closer, loadCmd).close == Some((closer.value, cmd.stream))
  {
  }

  /** Every other complete command is acknowledged with the empty pfod message. */
  lemma {:induction false} OtherCommandsAcknowledged(cmd: ParsedCommand, closer: Option<CloserId>, loadCmd: string)
    requires cmd.code !in {0 as char, '.', '!'} && !cmd.equalsA
    ensures Respond(cmd, closer, loadCmd) == Reply("{}", None)
  {
  }

  /**
   * Every complete command gets exactly one answer: a close call with nothing written, or a
   * single message that opens with `{` and closes with `}`, so pfodApp never waits in vain.
   */
  lemma {:induction false} EveryCommandAnswered(cmd: ParsedCommand, closer: Option<CloserId>, loadCmd: string)
    requires cmd.code != 0 as char
    ensures var r := Respond(cmd, closer, loadCmd);
      (r.text == [] && cmd.code == '!' && !cmd.equalsA) ||
      (r.close == None && |r.text| >= 2 && r.text[0] == '{' && r.text[|r.text| - 1] == '}')
  {
  }

  /** The update message is exactly `{;~|+A}`. */
  lemma {:induction false} MenuUpdateText()
    ensures MenuUpdate == "{;~|+A}"
  {
  }

  /**
   * `Init` is once-only: whatever the second call passes, the state after two calls is the
   * state after the first.
   */
  method InitTwice(d: Dispatcher, first: Option<CloserId>, second: Option<CloserId>)
    requires !d.initialized
    modifies d
    ensures d.initialized && d.closer == first && d.closeCalls == old(d.closeCalls)
  {
    d.Init(first);
    d.Init(second);
  }

  /** Handling the same command twice writes the same reply twice: rendering changes no state. */
  method HandleTwice(d: Dispatcher, cmd: ParsedCommand, out: Output)
    requires cmd.code != '!' || cmd.equalsA
    modifies d`closeCalls, out
    ensures out.written == old(out.written) + Respond(cmd, d.closer, d.loadCmd).text + Respond(cmd, d.closer, d.loadCmd).text
    ensures d.closeCalls == old(d.closeCalls)
  {
    d.Handle(cmd, out);
    d.Handle(cmd, out);
  }
}
