/**
 * Response caching: classifying a pfod response by its first element, taking the command key
 * out of the request that was sent, taking the version out of the response, and storing
 * versioned responses under a per-connection key. Browser storage is the map `Cache.storage`.
 */
module Caching {
  import opened Wrappers
  import opened Text
  import opened Js

  /** The parts of a connection manager the identifier is built from ("" = not configured). */
  datatype Connection = Connection(protocol: string, targetIP: string, deviceName: string, deviceId: string)

  /** `getConnectionIdentifier`: the first configured name for the protocol, else a fallback. */
  function ConnectionIdentifier(cm: Option<Connection>): (id: string)
    ensures id != []
    ensures cm.Some? && cm.value.protocol == "http" && cm.value.targetIP != [] ==> id == cm.value.targetIP
    ensures cm.Some? && cm.value.protocol == "http" && cm.value.targetIP == [] ==> id == "unknown_ip"
    ensures cm.Some? && cm.value.protocol == "ble" && cm.value.deviceName != [] ==> id == cm.value.deviceName
    ensures cm.Some? && cm.value.protocol == "ble" && cm.value.deviceName == [] && cm.value.deviceId != [] ==> id == cm.value.deviceId
    ensures cm.Some? && cm.value.protocol == "ble" && cm.value.deviceName == [] && cm.value.deviceId == [] ==> id == "unknown_ble"
    ensures cm.Some? && cm.value.protocol == "serial" ==> id == "Serial"
    ensures cm.None? || cm.value.protocol !in {"http", "ble", "serial"} ==> id == "unknown_connection"
  {
    if cm.None? then "unknown_connection"
    else
      var c := cm.value;
      if c.protocol == "http" then (if c.targetIP != [] then c.targetIP else "unknown_ip")
      else if c.protocol == "ble" then
        (if c.deviceName != [] then c.deviceName else if c.deviceId != [] then c.deviceId else "unknown_ble")
      else if c.protocol == "serial" then "Serial"
      else "unknown_connection"
  }

  datatype ResponseType = MenuStart | MenuUpdate | DwgStart | DwgUpdate

  /** `getResponseType`: the kind of pfod message that `msgType` (the response's `cmd[0]`) opens. */
  function GetResponseType(msgType: JsValue): (r: Option<ResponseType>)
    ensures r.Some? ==> msgType.Str? && |msgType.s| >= 2 && msgType.s[0] == '{'
    ensures r == Some(MenuStart) <==> msgType.Str? && "{," <= msgType.s
    ensures r == Some(MenuUpdate) <==> msgType.Str? && "{;" <= msgType.s
    ensures r == Some(DwgUpdate) <==> msgType == Str("{+")
    ensures r == Some(DwgStart) <==> msgType.Str? && "{+" <= msgType.s && |msgType.s| > 2
  {
    if !msgType.Str? || msgType.s == [] then None
    else
      var s := msgType.s;
      assert "{," <= s ==> s[1] == ',';
      if "{," <= s then Some(MenuStart)
      else if "{;" <= s then Some(MenuUpdate)
      else if s == "{+" then Some(DwgUpdate)
      else if "{+" <= s && |s| > 2 then Some(DwgStart)
      else None
  }

  /** The characters a command key is made of: anything but backtick, `~`, white space and `}`. */
  predicate IsKeyChar(c: char) {
    c != '`' && c != '~' && c != '}' && !IsSpace(c)
  }

  /** The request text after the opening brace and after a `version:` prefix, if there is one. */
  function AfterVersion(cmd: string): (content: string)
    ensures |content| < |cmd| || cmd == []
    ensures |cmd| > 0 && ':' !in cmd[1..] ==> content == cmd[1..]
  {
    var content := if cmd == [] then [] else cmd[1..];
    match IndexOf(content, ':')
    case None => content
    case Some(i) => content[i + 1..]
  }

  /** `getCommandKeyFromRequest`, given the request's `cmd` field. */
  function CommandKey(requestCmd: JsValue): (r: Option<string>)
    ensures r.Some? ==> requestCmd.Str? && r.value != [] && r.value <= AfterVersion(requestCmd.s)
    ensures r.Some? ==> forall i :: 0 <= i < |r.value| ==> IsKeyChar(r.value[i])
    ensures r.Some? ==> |r.value| == |AfterVersion(requestCmd.s)| || !IsKeyChar(AfterVersion(requestCmd.s)[|r.value|])
    ensures r.None? <==> !requestCmd.Str? || AfterVersion(requestCmd.s) == [] || !IsKeyChar(AfterVersion(requestCmd.s)[0])
  {
    if !requestCmd.Str? || requestCmd.s == [] then None
    else
      var key := TakeWhile(AfterVersion(requestCmd.s), IsKeyChar);
      if key == [] then None else Some(key)
  }

  /** The key of a request without a version prefix is read from just after the brace. */
  lemma {:induction false} CommandKeyWithoutVersion(body: string, rest: string)
    requires body != [] && forall i :: 0 <= i < |body| ==> IsKeyChar(body[i])
    requires ':' !in body && ':' !in rest
    requires rest == [] || !IsKeyChar(rest[0])
    ensures CommandKey(Str("{" + body + rest)) == Some(body)
  {
    var cmd := "{" + body + rest;
    assert cmd[1..] == body + rest;
    KeyPrefixIsBody(body, rest);
  }

  /** The key of a versioned request is read from just after the first `:`. */
  lemma {:induction false} CommandKeyWithVersion(version: string, body: string, rest: string)
    requires ':' !in version
    requires body != [] && forall i :: 0 <= i < |body| ==> IsKeyChar(body[i])
    requires rest == [] || !IsKeyChar(rest[0])
    ensures CommandKey(Str("{" + version + ":" + body + rest)) == Some(body)
  {
    var cmd := "{" + version + ":" + body + rest;
    var content := cmd[1..];
    assert content == version + ":" + (body + rest);
    assert content[|version|] == ':';
    assert content[..|version|] == version;
    assert IndexOf(content, ':') == Some(|version|);
    assert content[|version| + 1..] == body + rest;
    KeyPrefixIsBody(body, rest);
  }

  lemma {:induction false} KeyPrefixIsBody(body: string, rest: string)
    requires forall i :: 0 <= i < |body| ==> IsKeyChar(body[i])
    requires rest == [] || !IsKeyChar(rest[0])
    ensures TakeWhile(body + rest, IsKeyChar) == body
  {
    if body != [] {
      assert (body + rest)[1..] == body[1..] + rest;
      KeyPrefixIsBody(body[1..], rest);
    } else {
      assert body + rest == rest;
    }
  }

  /** The documented example `{v1:c1`data}`. */
  lemma {:induction false} VersionedKeyBeforeBacktick()
    ensures CommandKey(Str("{v1:c1`data}")) == Some("c1")
  {
    assert "{v1:c1`data}" == "{" + "v1" + ":" + "c1" + "`data}";
    CommandKeyWithVersion("v1", "c1", "`data}");
  }

  /** The documented example `{v1:c1~data}`. */
  lemma {:induction false} VersionedKeyBeforeTilde()
    ensures CommandKey(Str("{v1:c1~data}")) == Some("c1")
  {
    assert "{v1:c1~data}" == "{" + "v1" + ":" + "c1" + "~data}";
    CommandKeyWithVersion("v1", "c1", "~data}");
  }

  /** The documented example `{v1:.}`. */
  lemma {:induction false} VersionedMainMenuKey()
    ensures CommandKey(Str("{v1:.}")) == Some(".")
  {
    assert "{v1:.}" == "{" + "v1" + ":" + "." + "}";
    CommandKeyWithVersion("v1", ".", "}");
  }

  /** The documented example `{c1`data}`. */
  lemma {:induction false} UnversionedKey()
    ensures CommandKey(Str("{c1`data}")) == Some("c1")
  {
    assert "{c1`data}" == "{" + "c1" + "`data}";
    CommandKeyWithoutVersion("c1", "`data}");
  }

  /** The documented example `{.}`. */
  lemma {:induction false} UnversionedMainMenuKey()
    ensures CommandKey(Str("{.}")) == Some(".")
  {
    assert "{.}" == "{" + "." + "}";
    CommandKeyWithoutVersion(".", "}");
  }

  /** The text of `msgType` after its second `~`, when it has two. */
  function AfterSecondTilde(msgType: string): Option<string> {
    var ps := Positions(msgType, '~');
    if |ps| < 2 then None else Some(msgType[ps[1] + 1..])
  }

  /**
   * The version a response carries: the first white-space-free token of the trimmed text after
   * its second `~`; None when there is no such text.
   */
  function Version(msgType: JsValue): Option<string> {
    if !msgType.Str? then None
    else match AfterSecondTilde(msgType.s)
      case None => None
      case Some(after) =>
        var rest := Trim(after);
        if rest == [] then None else Some(LeadingToken(rest))
  }

  /**
   * There is a version exactly when some non-blank text follows a second `~`; it is then a
   * non-empty token of that trimmed text, which ends at white space or at the end of the text.
   */
  lemma {:induction false} VersionIsFirstToken(msgType: JsValue)
    ensures var version := Version(msgType);
      && (version.None? <==>
        !msgType.Str? || AfterSecondTilde(msgType.s).None? || Trim(AfterSecondTilde(msgType.s).value) == [])
      && (version.Some? ==>
        var rest := Trim(AfterSecondTilde(msgType.s).value);
        && version.value != [] && NoSpace(version.value)
        && version.value <= rest && (|version.value| == |rest| || IsSpace(rest[|version.value|])))
  {
    if msgType.Str? && AfterSecondTilde(msgType.s).Some? {
      var rest := Trim(AfterSecondTilde(msgType.s).value);
      if rest != [] {
        assert !IsSpace(rest[0]);
      }
    }
  }

  /** `extractVersionFromResponse`: collects the `~` positions, then reads the token after the second. */
  method ExtractVersion(msgType: JsValue) returns (version: Option<string>)
    ensures version == Version(msgType)
  {
    if !msgType.Str? || msgType.s == [] {
      assert msgType.Str? ==> AfterSecondTilde(msgType.s).None?;
      return None;
    }
    var s := msgType.s;
    var tildeIndices: seq<nat> := [];
    var i := 0;
    while i < |s|
      invariant 0 <= i <= |s|
      invariant tildeIndices == Positions(s[..i], '~')
    {
      PositionsSnoc(s, '~', i);
      if s[i] == '~' {
        tildeIndices := tildeIndices + [i];
      }
      i := i + 1;
    }
    assert tildeIndices == Positions(s, '~') by {
      assert s[..i] == s;
    }
    if |tildeIndices| < 2 {
      assert AfterSecondTilde(s) == None;
      return None;
    }
    assert AfterSecondTilde(s) == Some(s[tildeIndices[1] + 1..]);
    var afterSecondTilde := Trim(s[tildeIndices[1] + 1..]);
    if |afterSecondTilde| == 0 {
      return None;
    }
    version := Some(LeadingToken(afterSecondTilde));
  }

  /** `getCacheKey`. */
  function CacheKey(connectionId: string, commandKey: string): (key: string)
    ensures "pfodWeb_cache_" <= key
    ensures |key| == 15 + |connectionId| + |commandKey|
    ensures key[|key| - |commandKey| - 1..] == "_" + commandKey
  {
    "pfodWeb_cache_" + connectionId + "_" + commandKey
  }

  /** On one connection, distinct command keys are stored under distinct cache keys. */
  lemma {:induction false} CacheKeyInjective(connectionId: string, k1: string, k2: string)
    requires CacheKey(connectionId, k1) == CacheKey(connectionId, k2)
    ensures k1 == k2
  {
    var a, b := CacheKey(connectionId, k1), CacheKey(connectionId, k2);
    assert k1 == a[15 + |connectionId|..];
    assert k2 == b[15 + |connectionId|..];
  }

  /** A parsed response: its `cmd` array (None when missing or not an array) and `version`. */
  datatype ResponseData = ResponseData(cmd: Option<seq<JsValue>>, version: Option<string>)

  /** Browser storage, with the stored responses kept as values. */
  class Cache {
    var storage: map<string, ResponseData>

    constructor ()
      ensures storage == map[]
    {
      storage := map[];
    }

    /**
     * `cacheResponse`: stores the response, with its version set, under the connection's key for
     * the request's command; stores nothing when the response is not a versioned pfod menu or
     * drawing, or when the request has no command key. Returns the (possibly updated) data.
     */
    method CacheResponse(data: Option<ResponseData>, requestCmd: JsValue, cm: Option<Connection>)
      returns (updated: Option<ResponseData>, stored: bool)
      modifies this
      ensures !stored ==> storage == old(storage) && updated == data
      ensures stored <==>
        data.Some? && data.value.cmd.Some? && |data.value.cmd.value| > 0 &&
        GetResponseType(data.value.cmd.value[0]).Some? &&
        Version(data.value.cmd.value[0]).Some? && CommandKey(requestCmd).Some?
      ensures stored ==>
        updated == Some(data.value.(version := Version(data.value.cmd.value[0]))) &&
        storage == old(storage)[CacheKey(ConnectionIdentifier(cm), CommandKey(requestCmd).value) := updated.value]
    {
      updated, stored := data, false;
      if data.None? || data.value.cmd.None? || |data.value.cmd.value| == 0 {
        return;
      }
      var msgType := data.value.cmd.value[0];
      var responseType := GetResponseType(msgType);
      if responseType.None? {
        return;
      }
      var version := ExtractVersion(msgType);
      if version.None? {
        return;
      }
      var commandKey := CommandKey(requestCmd);
      if commandKey.None? {
        return;
      }
      updated := Some(data.value.(version := version));
      var connectionId := ConnectionIdentifier(cm);
      storage := storage[CacheKey(connectionId, commandKey.value) := updated.value];
      stored := true;
    }
  }
}
