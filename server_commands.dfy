/**
 * The server's pure helpers: the template for a new drawing, and the reply to a pfodWeb
 * command request (`handlePfodWebCommand`), which either names the drawing a pfodWeb client
 * starts with, serves a stored drawing, or answers with an empty command.
 */
module ServerCommands {
  import opened Wrappers
  import opened Text
  import opened DrawingItems

  /** `Math.min(Math.max(v, 1), 255)` on integers. */
  function Clamp(v: int): (r: int)
    ensures 1 <= r <= 255
    ensures 1 <= v <= 255 ==> r == v
    ensures v < 1 ==> r == 1
    ensures v > 255 ==> r == 255
  {
    if v < 1 then 1 else if v > 255 then 255 else v
  }

  /**
   * `createNewDrawing(name, x, y, color, refresh, version)`: a missing argument (None) takes
   * its default (50, 50, "white", 0); an empty version is replaced by one made from the clock
   * reading `now`.
   */
  function CreateNewDrawing(name: string, x: Option<int>, y: Option<int>, color: Option<string>,
                            refresh: Option<int>, version: string, now: nat): (d: Drawing)
    ensures d.name == name && d.items == []
    ensures 1 <= d.x <= 255 && 1 <= d.y <= 255
    ensures d.x == Clamp(x.GetOr(50)) && d.y == Clamp(y.GetOr(50))
    ensures d.color == color.GetOr("white")
    ensures d.refresh == refresh.GetOr(0)
    ensures version != "" ==> d.version == version
    ensures version == "" ==> d.version == "V" + NatToString(now)
  {
    Drawing(name, if version != "" then version else "V" + NatToString(now),
            Clamp(x.GetOr(50)), Clamp(y.GetOr(50)), color.GetOr("white"), refresh.GetOr(0), [])
  }

  /** Creating a drawing again from the settings of one already created gives it back. */
  lemma {:induction false} CreateNewDrawingStable(d: Drawing, now: nat)
    requires d == CreateNewDrawing(d.name, Some(d.x), Some(d.y), Some(d.color), Some(d.refresh), d.version, now)
    ensures forall later: nat :: CreateNewDrawing(d.name, Some(d.x), Some(d.y), Some(d.color), Some(d.refresh), d.version, later) == d
  {
    assert d.version != "" by {
      assert |"V" + NatToString(now)| > 0;
    }
  }

  // ---------------------------------------------------------------------------------------
  // Command requests

  /** The text is wrapped in `{` … `}` (`startsWith('{') && endsWith('}')`). */
  predicate Braced(cmd: string) {
    |cmd| > 0 && cmd[0] == '{' && cmd[|cmd| - 1] == '}'
  }

  /** The command with an enclosing `{` … `}` removed. */
  function StripBraces(cmd: string): (r: string)
    ensures Braced(cmd) ==> cmd == "{" + r + "}"
    ensures !Braced(cmd) ==> r == cmd
  {
    if Braced(cmd) then cmd[1..|cmd| - 1] else cmd
  }

  /** A command request's optional `version:` prefix and the command itself. */
  datatype Command = Command(version: Option<string>, name: string)

  /**
   * Strip the braces, then split off a version at the first `:`. Like `split(':', 2)`, the
   * command keeps only the text up to a second `:`, if there is one.
   */
  function ParseCommand(cmdParam: string): (c: Command)
    ensures ':' !in c.name
    ensures c.version.Some? <==> ':' in StripBraces(cmdParam)
    ensures c.version.Some? ==> ':' !in c.version.value
    ensures c.version.None? ==> c.name == StripBraces(cmdParam)
  {
    var s := StripBraces(cmdParam);
    if ':' in s then
      var parts := Split(s, ':');
      Command(Some(parts[0]), parts[1])
    else
      Command(None, s)
  }

  /** A version and a command joined as `{version:command}` are split apart again. */
  lemma {:induction false} ParseVersionedCommand(version: string, name: string)
    requires ':' !in version && ':' !in name
    ensures ParseCommand("{" + version + ":" + name + "}") == Command(Some(version), name)
  {
    var s := "{" + version + ":" + name + "}";
    assert StripBraces(s) == version + [':'] + name;
    SplitAtFirst(version, ':', name);
    assert ':' !in name;
  }

  /** Text after a second `:` is dropped from the command. */
  lemma {:induction false} ParseCommandDropsTail(version: string, name: string, tail: string)
    requires ':' !in version && ':' !in name
    ensures ParseCommand("{" + version + ":" + name + ":" + tail + "}").name == name
  {
    var s := "{" + version + ":" + name + ":" + tail + "}";
    assert StripBraces(s) == version + [':'] + (name + [':'] + tail);
    SplitAtFirst(version, ':', name + [':'] + tail);
    SplitAtFirst(name, ':', tail);
  }

  /** What the command endpoint answers. */
  datatype PfodReply =
    | CmdReply(cmd: seq<string>)     // a pfod command list sent back as JSON
    | NoMainDrawing                  // status 400: no drawing to start with
    | ServeDrawing(name: string)     // handed to the drawing request handler

  const EmptyReply := CmdReply(["{", "}"])

  /** The startup answer naming the drawing the client loads first. */
  function StartupReply(name: string): PfodReply {
    CmdReply(["{,", "|+pfodWeb~" + name, "}"])
  }

  /**
   * The parts of a request's Referer header the startup command looks at: the header text and
   * the values of its `preview` and `drawing` query parameters ("" when absent).
   */
  datatype Referer = Referer(url: string, preview: string, drawing: string)

  /** The preview named by the referer; it counts only when the request has no preview parameter. */
  function RefererPreview(preview: string, referer: Option<Referer>): string {
    if preview == "" && referer.Some? && referer.value.url != "" && Includes(referer.value.url, "preview=")
    then referer.value.preview else ""
  }

  /** The drawing named by a referer that names no preview. */
  function RefererDrawing(preview: string, referer: Option<Referer>): string {
    if preview == "" && referer.Some? && referer.value.url != ""
       && !Includes(referer.value.url, "preview=") && Includes(referer.value.url, "drawing=")
    then referer.value.drawing else ""
  }

  /**
   * The drawing the startup command `{.}` names, and the session's iframe context afterwards.
   * "" as the name means there is none and the request fails.
   */
  function StartupTarget(preview: string, referer: Option<Referer>, iframeContext: string,
                         mainDrawing: string): (r: (string, string))
  {
    var effectivePreview := if preview != "" then preview else RefererPreview(preview, referer);
    var effectiveDrawing := RefererDrawing(preview, referer);
    if effectivePreview != "" then (effectivePreview, effectivePreview)
    else if effectiveDrawing != "" then (effectiveDrawing, effectiveDrawing)
    else if iframeContext != "" then (iframeContext, iframeContext)
    else (mainDrawing, iframeContext)
  }

  /** The first non-empty name of a list of candidates, or "" when all are empty. */
  function FirstNonEmpty(candidates: seq<string>): (r: string)
    ensures r == "" <==> forall k :: 0 <= k < |candidates| ==> candidates[k] == ""
    ensures r != "" ==> r in candidates
  {
    if candidates == [] then ""
    else if candidates[0] != "" then candidates[0]
    else FirstNonEmpty(candidates[1..])
  }

  /**
   * The startup target is the first of: the preview parameter, the referer's preview, the
   * referer's drawing, the session's iframe context and the session's main drawing.
   */
  lemma {:induction false} StartupPrecedence(preview: string, referer: Option<Referer>,
                                             iframeContext: string, mainDrawing: string)
    ensures StartupTarget(preview, referer, iframeContext, mainDrawing).0 ==
      FirstNonEmpty([preview, RefererPreview(preview, referer), RefererDrawing(preview, referer),
                     iframeContext, mainDrawing])
  {
    var p, q, d := preview, RefererPreview(preview, referer), RefererDrawing(preview, referer);
    FirstNonEmptyCons(iframeContext, [mainDrawing]);
    FirstNonEmptyCons(d, [iframeContext, mainDrawing]);
    FirstNonEmptyCons(q, [d, iframeContext, mainDrawing]);
    FirstNonEmptyCons(p, [q, d, iframeContext, mainDrawing]);
  }

  /** Every choice but the main drawing is remembered as the session's new iframe context. */
  lemma {:induction false} StartupRemembered(preview: string, referer: Option<Referer>,
                                             iframeContext: string, mainDrawing: string)
    ensures var context := FirstNonEmpty([preview, RefererPreview(preview, referer),
                                          RefererDrawing(preview, referer), iframeContext]);
      StartupTarget(preview, referer, iframeContext, mainDrawing).1 ==
        if context != "" then context else iframeContext
  {
    var p, q, d := preview, RefererPreview(preview, referer), RefererDrawing(preview, referer);
    FirstNonEmptyCons(iframeContext, []);
    FirstNonEmptyCons(d, [iframeContext]);
    FirstNonEmptyCons(q, [d, iframeContext]);
    FirstNonEmptyCons(p, [q, d, iframeContext]);
  }

  lemma {:induction false} FirstNonEmptyCons(x: string, rest: seq<string>)
    ensures FirstNonEmpty([x] + rest) == if x != "" then x else FirstNonEmpty(rest)
  {
    assert ([x] + rest)[1..] == rest;
  }

  /**
   * The answer to any command other than `{.}`: a command holding `~` is a touch request and
   * gets the empty command, as does one naming no stored or temporary drawing.
   */
  function CommandReply(cmdParam: string, known: set<string>): (r: PfodReply)
    ensures r == EmptyReply || r == ServeDrawing(ParseCommand(cmdParam).name)
    ensures r.ServeDrawing? <==> ParseCommand(cmdParam).name in known && '~' !in ParseCommand(cmdParam).name
  {
    var name := ParseCommand(cmdParam).name;
    if name != "" && '~' in name then EmptyReply
    else if name in known then ServeDrawing(name)
    else EmptyReply
  }

  /** A stored drawing's name, bare or wrapped as `{version:name}`, is served by that name. */
  lemma {:induction false} KnownDrawingServed(version: string, name: string, known: set<string>)
    requires name in known && ':' !in version && ':' !in name && '~' !in name
    ensures CommandReply("{" + version + ":" + name + "}", known) == ServeDrawing(name)
    ensures !Braced(name) ==> CommandReply(name, known) == ServeDrawing(name)
  {
    ParseVersionedCommand(version, name);
  }
}
