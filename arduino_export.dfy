/**
 * The value conversions of the designer's Arduino sketch exporter: where the sketch files of
 * a connection type go, how a touch offset and a colour number are written as pfodDwgs code,
 * and which statement a hide, unhide, erase or index item becomes.
 */
module ArduinoExport {
  import opened Js
  import opened Text
  import opened Seqs
  import opened DrawingItems

  // ---------------------------------------------------------------------------------------
  // Directory prefix of the exported sketch

  const DwgOnly := "dwg-only"

  /** The transport a connection type builds a sketch for: anything unknown falls back to serial. */
  function Transport(connectionType: string): string {
    if connectionType == "ble" || connectionType == "http" then connectionType else "serial"
  }

  /**
   * `getDirPrefix`: the folder the sketch files are placed in. A drawings-only export has
   * none; every other export goes into `<main drawing>_<transport>/`.
   */
  function GetDirPrefix(connectionType: string, mainDwgName: string): (r: string)
    ensures r == [] <==> connectionType == DwgOnly
    ensures connectionType != DwgOnly ==> r == mainDwgName + "_" + Transport(connectionType) + "/"
  {
    if connectionType == "serial" then mainDwgName + "_serial/"
    else if connectionType == "ble" then mainDwgName + "_ble/"
    else if connectionType == "http" then mainDwgName + "_http/"
    else if connectionType == DwgOnly then ""
    else mainDwgName + "_serial/"
  }

  /** Exports of one drawing for different transports never share a folder. */
  lemma {:induction false} DirPrefixesSeparateTransports(t1: string, t2: string, mainDwgName: string)
    requires t1 != DwgOnly && t2 != DwgOnly
    requires GetDirPrefix(t1, mainDwgName) == GetDirPrefix(t2, mainDwgName)
    ensures Transport(t1) == Transport(t2)
  {
    var p := mainDwgName + "_";
    var r := GetDirPrefix(t1, mainDwgName);
    assert r == p + Transport(t1) + "/";
    assert Transport(t1) == r[|p|..|r| - 1];
    assert r == p + Transport(t2) + "/";
    assert Transport(t2) == r[|p|..|r| - 1];
  }

  // ---------------------------------------------------------------------------------------
  // Touch offsets

  const TouchedCol := "dwgsPtr->TOUCHED_COL"
  const TouchedRow := "dwgsPtr->TOUCHED_ROW"

  /** A `COL`/`ROW` placeholder as the designer stores it, in either letter case. */
  predicate IsColToken(v: JsValue) {
    v == Str("COL") || v == Str("col")
  }

  predicate IsRowToken(v: JsValue) {
    v == Str("ROW") || v == Str("row")
  }

  /**
   * `convertOffset`: a column or row placeholder becomes the touched column or row of the
   * running sketch; any other value is kept, except that a missing or falsy one becomes 0.
   */
  function ConvertOffset(offset: JsValue): (r: JsValue)
    ensures IsColToken(offset) ==> r == Str(TouchedCol)
    ensures IsRowToken(offset) ==> r == Str(TouchedRow)
    ensures !IsColToken(offset) && !IsRowToken(offset) ==> r == offset || (r == Num(0) && !Truthy(offset))
    ensures !IsColToken(r) && !IsRowToken(r)
    ensures Truthy(r) || r == Num(0)
  {
    if IsColToken(offset) then Str(TouchedCol)
    else if IsRowToken(offset) then Str(TouchedRow)
    else if Truthy(offset) then offset
    else Num(0)
  }

  /** A converted offset converts to itself. */
  lemma {:induction false} ConvertOffsetIdempotent(offset: JsValue)
    ensures ConvertOffset(ConvertOffset(offset)) == ConvertOffset(offset)
  {
    var r := ConvertOffset(offset);
    assert Truthy(r) || r == Num(0);
  }

  // ---------------------------------------------------------------------------------------
  // Colours

  const BlackWhite := "dwgsPtr->BLACK_WHITE"

  /** The pfodDwgs names of the sixteen standard colours, in colour-number order. */
  const ColorConstants: seq<string> := [
    "BLACK", "MAROON", "GREEN", "OLIVE", "NAVY", "PURPLE", "TEAL", "SILVER",
    "GREY", "RED", "LIME", "YELLOW", "BLUE", "FUCHSIA", "AQUA", "WHITE"]

  function StandardColorName(i: nat): (r: string)
    requires i < 16
    ensures |r| > 9 && r[0] == 'd'
  {
    "dwgsPtr->" + ColorConstants[i]
  }

  const Black := StandardColorName(0)

  /**
   * `convertColor`: -1 is the colour that contrasts with the background, 0 to 15 are the named
   * standard colours, 16 to 255 are written as their number, and anything else (not a number,
   * or out of range) falls back to black.
   */
  function ConvertColor(color: JsValue): (r: string)
    ensures color == Num(-1) ==> r == BlackWhite
    ensures !color.Num? || color.n < -1 || color.n > 255 ==> r == Black
    ensures color.Num? && 0 <= color.n < 16 ==> r == StandardColorName(color.n)
    ensures color.Num? && 16 <= color.n <= 255 ==> r == NatToString(color.n)
  {
    if color.Num? && color.n == -1 then BlackWhite
    else if !color.Num? || color.n < 0 || color.n > 255 then Black
    else if color.n <= 15 then StandardColorName(color.n)
    else NatToString(color.n)
  }

  /** The standard colour names are all different, and none of them is the contrast colour. */
  lemma StandardColorNamesDistinct(i: nat, j: nat)
    requires i < 16 && j < 16
    ensures StandardColorName(i) != BlackWhite
    ensures StandardColorName(i) == StandardColorName(j) ==> i == j
  {
    var p := "dwgsPtr->";
    assert StandardColorName(i)[|p|..] == ColorConstants[i];
    assert StandardColorName(j)[|p|..] == ColorConstants[j];
    assert BlackWhite[|p|..] == "BLACK_WHITE";
    ColorConstantsDistinct(i, j);
  }

  lemma ColorConstantsDistinct(i: nat, j: nat)
    requires i < 16 && j < 16
    ensures ColorConstants[i] != "BLACK_WHITE"
    ensures ColorConstants[i] == ColorConstants[j] ==> i == j
  {
  }

  /** Every colour number in range gets its own code: the conversion loses nothing there. */
  lemma {:induction false} ConvertColorInjective(a: int, b: int)
    requires -1 <= a <= 255 && -1 <= b <= 255
    requires ConvertColor(Num(a)) == ConvertColor(Num(b))
    ensures a == b
  {
    var r := ConvertColor(Num(a));
    if a >= 16 && b >= 16 {
      NatToStringInjective(a, b);
    } else if a >= 16 {
      NumberNotNamed(a, b);
    } else if b >= 16 {
      NumberNotNamed(b, a);
    } else if a >= 0 && b >= 0 {
      StandardColorNamesDistinct(a, b);
    } else if a >= 0 {
      StandardColorNamesDistinct(a, a);
    } else if b >= 0 {
      StandardColorNamesDistinct(b, b);
    }
  }

  lemma {:induction false} NumberNotNamed(n: int, c: int)
    requires 16 <= n <= 255 && -1 <= c < 16
    ensures ConvertColor(Num(n)) != ConvertColor(Num(c))
  {
    var named := ConvertColor(Num(c));
    assert named[0] == 'd';
    assert IsDigit(ConvertColor(Num(n))[0]);
  }

  // ---------------------------------------------------------------------------------------
  // hide, unhide, erase and index statements

  /** What a visibility or index statement is aimed at. */
  datatype Target = LoadCmd(drawing: string) | Cmd(cmdName: string) | Idx(idxName: string) | NoTarget

  /**
   * The target of a hide, unhide or erase item: a whole inserted drawing if one is named, else
   * the item with the given command name, else the one with the given index name.
   */
  function VisibilityTarget(it: Item): (t: Target)
    ensures t.NoTarget? <==> it.drawingName == [] && it.cmdName == [] && it.idxName == []
    ensures t.LoadCmd? <==> it.drawingName != []
    ensures t.LoadCmd? ==> t.drawing == it.drawingName
    ensures t.Cmd? ==> t.cmdName == it.cmdName != []
    ensures t.Idx? ==> t.idxName == it.idxName != []
  {
    if it.drawingName != [] then LoadCmd(it.drawingName)
    else if it.cmdName != [] then Cmd(it.cmdName)
    else if it.idxName != [] then Idx(it.idxName)
    else NoTarget
  }

  /** The target of an index item: a command name before an index name; no drawings. */
  function IndexTarget(it: Item): (t: Target)
    ensures !t.LoadCmd?
    ensures t.NoTarget? <==> it.cmdName == [] && it.idxName == []
    ensures t.Cmd? ==> t.cmdName == it.cmdName
    ensures t.Idx? ==> t.idxName == it.idxName != [] && it.cmdName == []
  {
    if it.cmdName != [] then Cmd(it.cmdName)
    else if it.idxName != [] then Idx(it.idxName)
    else NoTarget
  }

  /** A named drawing outranks the command and index names, which are then ignored. */
  lemma {:induction false} DrawingTargetIgnoresNames(it: Item, cmdName: string, idxName: string)
    requires it.drawingName != []
    ensures VisibilityTarget(it.(cmdName := cmdName, idxName := idxName)) == VisibilityTarget(it)
  {
  }

  /** A command name outranks an index name in every one of the four statements. */
  lemma {:induction false} CmdTargetIgnoresIdxName(it: Item, idxName: string)
    requires it.cmdName != []
    ensures VisibilityTarget(it.(idxName := idxName)) == VisibilityTarget(it)
    ensures IndexTarget(it.(idxName := idxName)) == IndexTarget(it) == Cmd(it.cmdName)
  {
  }

  /** The statement that sends `kind` at a target that exists. */
  function TargetCall(kind: string, t: Target): string
    requires !t.NoTarget?
  {
    match t
    case LoadCmd(d) => "dwgsPtr->" + kind + "().loadCmd(dwg_" + d + ").send();"
    case Cmd(c) => "dwgsPtr->" + kind + "().cmd(" + c + ").send();"
    case Idx(x) => "dwgsPtr->" + kind + "().idx(" + x + ").send();"
  }

  /** The comment left in the sketch when an item of `kind` has no target. */
  function MissingTargetComment(kind: string): string {
    if kind == Index then "// index: no idx specified"
    else "// " + kind + ": no cmd or idx specified"
  }

  /** The target a statement item of `kind` is aimed at. */
  function StatementTarget(kind: string, it: Item): Target {
    if kind == Index then IndexTarget(it) else VisibilityTarget(it)
  }

  predicate IsStatementKind(kind: string) {
    IsVisibilityCommand(kind) || kind == Index
  }

  /**
   * The code line for a hide, unhide, erase or index item, as the exporter writes it: the
   * erase item's missing-target comment is labelled `hide`.
   */
  function StatementCodeAsWritten(kind: string, it: Item): (r: string)
    requires IsStatementKind(kind)
    ensures !StatementTarget(kind, it).NoTarget? ==> r == TargetCall(kind, StatementTarget(kind, it))
  {
    var t := StatementTarget(kind, it);
    if !t.NoTarget? then TargetCall(kind, t)
    else if kind == Erase then MissingTargetComment(Hide)
    else MissingTargetComment(kind)
  }

  /** An erase item with nothing to erase is reported in the sketch as a hide item. */
  lemma EraseCommentMislabelled()
    ensures StatementCodeAsWritten(Erase, NewItem(Erase)) == MissingTargetComment(Hide)
    ensures StatementCodeAsWritten(Erase, NewItem(Erase)) != StatementCode(Erase, NewItem(Erase))
  {
    var it := NewItem(Erase);
    assert StatementTarget(Erase, it).NoTarget?;
    assert StatementCodeAsWritten(Erase, it) == MissingTargetComment(Hide);
    assert StatementCode(Erase, it) == MissingTargetComment(Erase);
    assert MissingTargetComment(Erase)[3] == 'e' && MissingTargetComment(Hide)[3] == 'h';
  }

  /**
   * The code line for a hide, unhide, erase or index item, with the missing-target comment
   * labelled by the item's own type.
   */
  function StatementCode(kind: string, it: Item): (r: string)
    requires IsStatementKind(kind)
    ensures StatementTarget(kind, it).NoTarget? ==> r == MissingTargetComment(kind)
    ensures !StatementTarget(kind, it).NoTarget? ==> r == TargetCall(kind, StatementTarget(kind, it))
  {
    var t := StatementTarget(kind, it);
    if t.NoTarget? then MissingTargetComment(kind) else TargetCall(kind, t)
  }

  /** The as-written line differs from the corrected one only for an erase item without a target. */
  lemma {:induction false} StatementCodeAsWrittenAgrees(kind: string, it: Item)
    requires IsStatementKind(kind)
    requires kind != Erase || !StatementTarget(kind, it).NoTarget?
    ensures StatementCodeAsWritten(kind, it) == StatementCode(kind, it)
  {
  }

  /** Every code line names the type of the item it came from, right after its `//` or `->`. */
  lemma {:induction false} StatementCodeNamesKind(kind: string, it: Item)
    requires IsStatementKind(kind)
    ensures var r := StatementCode(kind, it);
      (StatementTarget(kind, it).NoTarget? ==> r[..3 + |kind|] == "// " + kind)
      && (!StatementTarget(kind, it).NoTarget? ==> r[..9 + |kind|] == "dwgsPtr->" + kind)
  {
    var t := StatementTarget(kind, it);
    if t.NoTarget? {
      MissingTargetNamesKind(kind);
    } else {
      TargetCallNamesKind(kind, t);
    }
  }

  lemma {:induction false} MissingTargetNamesKind(kind: string)
    ensures |MissingTargetComment(kind)| >= 3 + |kind| && MissingTargetComment(kind)[..3 + |kind|] == "// " + kind
  {
    var head := "// " + kind;
    var rest := if kind == Index then ": no idx specified" else ": no cmd or idx specified";
    assert MissingTargetComment(kind) == head + rest;
    PrefixOfConcat(head, rest);
  }

  lemma {:induction false} TargetCallNamesKind(kind: string, t: Target)
    requires !t.NoTarget?
    ensures |TargetCall(kind, t)| >= 9 + |kind| && TargetCall(kind, t)[..9 + |kind|] == "dwgsPtr->" + kind
  {
    var head := "dwgsPtr->" + kind;
    var r := TargetCall(kind, t);
    var rest := match t
      case LoadCmd(d) => "().loadCmd(dwg_" + d + ").send();"
      case Cmd(c) => "().cmd(" + c + ").send();"
      case Idx(x) => "().idx(" + x + ").send();";
    assert r == head + rest;
    PrefixOfConcat(head, rest);
  }

  /** Different targets give different statements: the line says exactly what it acts on. */
  lemma {:induction false} TargetCallInjective(kind: string, t1: Target, t2: Target)
    requires !t1.NoTarget? && !t2.NoTarget?
    requires TargetCall(kind, t1) == TargetCall(kind, t2)
    ensures t1 == t2
  {
    var head := "dwgsPtr->" + kind + "().";
    var r := TargetCall(kind, t1);
    var h := |head|;
    TargetCallShape(kind, t1);
    TargetCallShape(kind, t2);
    var n1, n2 := TargetName(t1), TargetName(t2);
    var o1, o2 := Opening(t1), Opening(t2);
    assert r == head + o1 + n1 + ").send();";
    assert r == head + o2 + n2 + ").send();";
    assert r[h] == o1[0] && r[h] == o2[0];
    assert o1 == o2;
    assert n1 == r[h + |o1|..|r| - 9];
    assert n2 == r[h + |o2|..|r| - 9];
  }

  /** The text between a target statement's `().` and its name. */
  function Opening(t: Target): (r: string)
    requires !t.NoTarget?
    ensures |r| >= 4
  {
    match t
    case LoadCmd(_) => "loadCmd(dwg_"
    case Cmd(_) => "cmd("
    case Idx(_) => "idx("
  }

  function TargetName(t: Target): string
    requires !t.NoTarget?
  {
    match t
    case LoadCmd(d) => d
    case Cmd(c) => c
    case Idx(x) => x
  }

  lemma {:induction false} TargetCallShape(kind: string, t: Target)
    requires !t.NoTarget?
    ensures TargetCall(kind, t) == "dwgsPtr->" + kind + "()." + Opening(t) + TargetName(t) + ").send();"
  {
  }
}
