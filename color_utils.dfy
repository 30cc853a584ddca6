/**
 * The xterm 256-colour table that pfod colour numbers index, and the colour picker's grid of
 * those numbers.
 */
module ColorUtils {

  /** Colours 0-15: the standard and bright colours. */
  const StandardColors: seq<string> := [
    "#000000", "#800000", "#008000", "#808000", "#000080", "#800080", "#008080", "#c0c0c0",
    "#808080", "#ff0000", "#00ff00", "#ffff00", "#0000ff", "#ff00ff", "#00ffff", "#ffffff"
  ]

  /** Colours 16-51, the cube entries with red level 0, as the table lists them. */
  const CubeRed0: seq<string> := [
    "#000000", "#00005f", "#000087", "#0000af", "#0000d7", "#0000ff",
    "#005f00", "#005f5f", "#005f87", "#005faf", "#005fd7", "#005fff",
    "#008700", "#00875f", "#008787", "#0087af", "#0087d7", "#0087ff",
    "#00af00", "#00af5f", "#00af87", "#00afaf", "#00afd7", "#00afff",
    "#00d700", "#00d75f", "#00d787", "#00d7af", "#00d7d7", "#00d7ff",
    "#00ff00", "#00ff5f", "#00ff87", "#00ffaf", "#00ffd7", "#00ffff"
  ]

  /** Colours 52-87, the cube entries with red level 1, as the table lists them. */
  const CubeRed1: seq<string> := [
    "#5f0000", "#5f005f", "#5f0087", "#5f00af", "#5f00d7", "#5f00ff",
    "#5f5f00", "#5f5f5f", "#5f5f87", "#5f5faf", "#5f5fd7", "#5f5fff",
    "#5f8700", "#5f875f", "#5f8787", "#5f87af", "#5f87d7", "#5f87ff",
    "#5faf00", "#5faf5f", "#5faf87", "#5fafaf", "#5fafd7", "#5fafff",
    "#5fd700", "#5fd75f", "#5fd787", "#5fd7af", "#5fd7d7", "#5fd7ff",
    "#5fff00", "#5fff5f", "#5fff87", "#5fffaf", "#5fffd7", "#5fffff"
  ]

  /** Colours 88-123, the cube entries with red level 2, as the table lists them. */
  const CubeRed2: seq<string> := [
    "#870000", "#87005f", "#870087", "#8700af", "#8700d7", "#8700ff",
    "#875f00", "#875f5f", "#875f87", "#875faf", "#875fd7", "#875fff",
    "#878700", "#87875f", "#878787", "#8787af", "#8787d7", "#8787ff",
    "#87af00", "#87af5f", "#87af87", "#87afaf", "#87afd7", "#87afff",
    "#87d700", "#87d75f", "#87d787", "#87d7af", "#87d7d7", "#87d7ff",
    "#87ff00", "#87ff5f", "#87ff87", "#87ffaf", "#87ffd7", "#87ffff"
  ]

  /** Colours 124-159, the cube entries with red level 3, as the table lists them. */
  const CubeRed3: seq<string> := [
    "#af0000", "#af005f", "#af0087", "#af00af", "#af00d7", "#af00ff",
    "#af5f00", "#af5f5f", "#af5f87", "#af5faf", "#af5fd7", "#af5fff",
    "#af8700", "#af875f", "#af8787", "#af87af", "#af87d7", "#af87ff",
    "#afaf00", "#afaf5f", "#afaf87", "#afafaf", "#afafd7", "#afafff",
    "#afd700", "#afd75f", "#afd787", "#afd7af", "#afd7d7", "#afd7ff",
    "#afff00", "#afff5f", "#afff87", "#afffaf", "#afffd7", "#afffff"
  ]

  /** Colours 160-195, the cube entries with red level 4, as the table lists them. */
  const CubeRed4: seq<string> := [
    "#d70000", "#d7005f", "#d70087", "#d700af", "#d700d7", "#d700ff",
    "#d75f00", "#d75f5f", "#d75f87", "#d75faf", "#d75fd7", "#d75fff",
    "#d78700", "#d7875f", "#d78787", "#d787af", "#d787d7", "#d787ff",
    "#d7af00", "#d7af5f", "#d7af87", "#d7afaf", "#d7afd7", "#d7afff",
    "#d7d700", "#d7d75f", "#d7d787", "#d7d7af", "#d7d7d7", "#d7d7ff",
    "#d7ff00", "#d7ff5f", "#d7ff87", "#d7ffaf", "#d7ffd7", "#d7ffff"
  ]

  /** Colours 196-231, the cube entries with red level 5, as the table lists them. */
  const CubeRed5: seq<string> := [
    "#ff0000", "#ff005f", "#ff0087", "#ff00af", "#ff00d7", "#ff00ff",
    "#ff5f00", "#ff5f5f", "#ff5f87", "#ff5faf", "#ff5fd7", "#ff5fff",
    "#ff8700", "#ff875f", "#ff8787", "#ff87af", "#ff87d7", "#ff87ff",
    "#ffaf00", "#ffaf5f", "#ffaf87", "#ffafaf", "#ffafd7", "#ffafff",
    "#ffd700", "#ffd75f", "#ffd787", "#ffd7af", "#ffd7d7", "#ffd7ff",
    "#ffff00", "#ffff5f", "#ffff87", "#ffffaf", "#ffffd7", "#ffffff"
  ]

  /** Colours 232-255, the grey ramp, as the table lists them. */
  const GreyListed: seq<string> := [
    "#080808", "#121212", "#1c1c1c", "#262626", "#303030", "#3a3a3a",
    "#444444", "#4e4e4e", "#585858", "#626262", "#6c6c6c", "#767676",
    "#808080", "#8a8a8a", "#949494", "#9e9e9e", "#a8a8a8", "#b2b2b2",
    "#bcbcbc", "#c6c6c6", "#d0d0d0", "#dadada", "#e4e4e4", "#eeeeee"
  ]

  /** Colours 16-231 by their rule: the 6 x 6 x 6 colour cube, red level slowest, blue fastest. */
  const CubeColors: seq<string> := CubeRule()

  function CubeRule(): seq<string> {
    seq(216, i requires 0 <= i < 216 => CubeColor(i / 36, i / 6 % 6, i % 6))
  }

  /** Colours 232-255 by their rule: 24 greys rising from 0x08 in steps of 10. */
  const GreyColors: seq<string> := GreyRule()

  function GreyRule(): seq<string> {
    seq(24, k requires 0 <= k < 24 => GreyColor(k))
  }

  /** `XTERM_COLORS`, by the rules its listed entries follow. */
  const XtermColors: seq<string> := StandardColors + CubeColors + GreyColors

  /** A lower-case hexadecimal digit. */
  predicate IsHexDigit(c: char) {
    '0' <= c <= '9' || 'a' <= c <= 'f'
  }

  /** The lower-case hexadecimal digit of `d`. */
  function HexDigit(d: nat): (c: char)
    requires d < 16
  {
    if d < 10 then ('0' as int + d) as char else ('a' as int + d - 10) as char
  }

  /** The two lower-case hexadecimal digits of a byte. */
  function HexByte(v: nat): string
    requires v < 256
  {
    [HexDigit(v / 16), HexDigit(v % 16)]
  }

  /** The CSS colour `#rrggbb` of three channel values. */
  function RgbHex(r: nat, g: nat, b: nat): string
    requires r < 256 && g < 256 && b < 256
  {
    "#" + HexByte(r) + HexByte(g) + HexByte(b)
  }

  /** A CSS colour written `#` and six lower-case hexadecimal digits. */
  predicate IsHexColor(s: string) {
    |s| == 7 && s[0] == '#' && forall i :: 1 <= i < 7 ==> IsHexDigit(s[i])
  }

  /** The six channel levels of the colour cube. */
  const CubeLevels: seq<nat> := [0x00, 0x5f, 0x87, 0xaf, 0xd7, 0xff]

  /** Cube colour (r, g, b): each coordinate picks a level. */
  function CubeColor(r: nat, g: nat, b: nat): string
    requires r < 6 && g < 6 && b < 6
  {
    RgbHex(CubeLevels[r], CubeLevels[g], CubeLevels[b])
  }

  /** Grey k: every channel is 8 + 10k. */
  function GreyColor(k: nat): string
    requires k < 24
  {
    RgbHex(8 + 10 * k, 8 + 10 * k, 8 + 10 * k)
  }

  /** The table has 256 entries: 16 standard, 216 cube and 24 grey colours. */
  lemma {:induction false} TableSize()
    ensures |StandardColors| == 16 && |CubeColors| == 216 && |GreyColors| == 24
    ensures |XtermColors| == 256
  {
  }

  /** The two hexadecimal digits of each cube level. */
  const LevelHex: seq<string> := ["00", "5f", "87", "af", "d7", "ff"]

  lemma {:induction false} LevelHexAt(i: nat)
    requires i < 6
    ensures HexByte(CubeLevels[i]) == LevelHex[i]
  {
    if i == 0 { assert HexByte(0) == "00"; }
    else if i == 1 { assert HexByte(0x5f) == "5f"; }
    else if i == 2 { assert HexByte(0x87) == "87"; }
    else if i == 3 { assert HexByte(0xaf) == "af"; }
    else if i == 4 { assert HexByte(0xd7) == "d7"; }
    else { assert HexByte(0xff) == "ff"; }
  }

  /** A cube colour spelled with the level digits. */
  lemma {:induction false} CubeColorSpelled(r: nat, g: nat, b: nat)
    requires r < 6 && g < 6 && b < 6
    ensures CubeColor(r, g, b) == "#" + LevelHex[r] + LevelHex[g] + LevelHex[b]
  {
    LevelHexAt(r); LevelHexAt(g); LevelHexAt(b);
  }

  lemma {:induction false} CubeRed0Green0()
    ensures forall b :: 0 <= b < 6 ==> CubeRed0[0 + b] == CubeColor(0, 0, b)
  {
    forall b | 0 <= b < 6 ensures CubeRed0[0 + b] == CubeColor(0, 0, b) {
      CubeColorSpelled(0, 0, b);
    }
  }

  lemma {:induction false} CubeRed0Green1()
    ensures forall b :: 0 <= b < 6 ==> CubeRed0[6 + b] == CubeColor(0, 1, b)
  {
    forall b | 0 <= b < 6 ensures CubeRed0[6 + b] == CubeColor(0, 1, b) {
      CubeColorSpelled(0, 1, b);
    }
  }

  lemma {:induction false} CubeRed0Green2()
    ensures forall b :: 0 <= b < 6 ==> CubeRed0[12 + b] == CubeColor(0, 2, b)
  {
    forall b | 0 <= b < 6 ensures CubeRed0[12 + b] == CubeColor(0, 2, b) {
      CubeColorSpelled(0, 2, b);
    }
  }

  lemma {:induction false} CubeRed0Green3()
    ensures forall b :: 0 <= b < 6 ==> CubeRed0[18 + b] == CubeColor(0, 3, b)
  {
    forall b | 0 <= b < 6 ensures CubeRed0[18 + b] == CubeColor(0, 3, b) {
      CubeColorSpelled(0, 3, b);
    }
  }

  lemma {:induction false} CubeRed0Green4()
    ensures forall b :: 0 <= b < 6 ==> CubeRed0[24 + b] == CubeColor(0, 4, b)
  {
    forall b | 0 <= b < 6 ensures CubeRed0[24 + b] == CubeColor(0, 4, b) {
      CubeColorSpelled(0, 4, b);
    }
  }

  lemma {:induction false} CubeRed0Green5()
    ensures forall b :: 0 <= b < 6 ==> CubeRed0[30 + b] == CubeColor(0, 5, b)
  {
    forall b | 0 <= b < 6 ensures CubeRed0[30 + b] == CubeColor(0, 5, b) {
      CubeColorSpelled(0, 5, b);
    }
  }

  /** The listed colours 16-51 follow the cube rule for red level 0. */
  lemma {:induction false} CubeRed0At(g: nat, b: nat)
    requires g < 6 && b < 6
    ensures CubeRed0[6 * g + b] == CubeColor(0, g, b)
  {
    if g == 0 { CubeRed0Green0(); } else if g == 1 { CubeRed0Green1(); } else if g == 2 { CubeRed0Green2(); } else if g == 3 { CubeRed0Green3(); } else if g == 4 { CubeRed0Green4(); } else { CubeRed0Green5(); }
  }

  lemma {:induction false} CubeRed1Green0()
    ensures forall b :: 0 <= b < 6 ==> CubeRed1[0 + b] == CubeColor(1, 0, b)
  {
    forall b | 0 <= b < 6 ensures CubeRed1[0 + b] == CubeColor(1, 0, b) {
      CubeColorSpelled(1, 0, b);
    }
  }

  lemma {:induction false} CubeRed1Green1()
    ensures forall b :: 0 <= b < 6 ==> CubeRed1[6 + b] == CubeColor(1, 1, b)
  {
    forall b | 0 <= b < 6 ensures CubeRed1[6 + b] == CubeColor(1, 1, b) {
      CubeColorSpelled(1, 1, b);
    }
  }

  lemma {:induction false} CubeRed1Green2()
    ensures forall b :: 0 <= b < 6 ==> CubeRed1[12 + b] == CubeColor(1, 2, b)
  {
    forall b | 0 <= b < 6 ensures CubeRed1[12 + b] == CubeColor(1, 2, b) {
      CubeColorSpelled(1, 2, b);
    }
  }

  lemma {:induction false} CubeRed1Green3()
    ensures forall b :: 0 <= b < 6 ==> CubeRed1[18 + b] == CubeColor(1, 3, b)
  {
    forall b | 0 <= b < 6 ensures CubeRed1[18 + b] == CubeColor(1, 3, b) {
      CubeColorSpelled(1, 3, b);
    }
  }

  lemma {:induction false} CubeRed1Green4()
    ensures forall b :: 0 <= b < 6 ==> CubeRed1[24 + b] == CubeColor(1, 4, b)
  {
    forall b | 0 <= b < 6 ensures CubeRed1[24 + b] == CubeColor(1, 4, b) {
      CubeColorSpelled(1, 4, b);
    }
  }

  lemma {:induction false} CubeRed1Green5()
    ensures forall b :: 0 <= b < 6 ==> CubeRed1[30 + b] == CubeColor(1, 5, b)
  {
    forall b | 0 <= b < 6 ensures CubeRed1[30 + b] == CubeColor(1, 5, b) {
      CubeColorSpelled(1, 5, b);
    }
  }

  /** The listed colours 52-87 follow the cube rule for red level 1. */
  lemma {:induction false} CubeRed1At(g: nat, b: nat)
    requires g < 6 && b < 6
    ensures CubeRed1[6 * g + b] == CubeColor(1, g, b)
  {
    if g == 0 { CubeRed1Green0(); } else if g == 1 { CubeRed1Green1(); } else if g == 2 { CubeRed1Green2(); } else if g == 3 { CubeRed1Green3(); } else if g == 4 { CubeRed1Green4(); } else { CubeRed1Green5(); }
  }

  lemma {:induction false} CubeRed2Green0()
    ensures forall b :: 0 <= b < 6 ==> CubeRed2[0 + b] == CubeColor(2, 0, b)
  {
    forall b | 0 <= b < 6 ensures CubeRed2[0 + b] == CubeColor(2, 0, b) {
      CubeColorSpelled(2, 0, b);
    }
  }

  lemma {:induction false} CubeRed2Green1()
    ensures forall b :: 0 <= b < 6 ==> CubeRed2[6 + b] == CubeColor(2, 1, b)
  {
    forall b | 0 <= b < 6 ensures CubeRed2[6 + b] == CubeColor(2, 1, b) {
      CubeColorSpelled(2, 1, b);
    }
  }

  lemma {:induction false} CubeRed2Green2()
    ensures forall b :: 0 <= b < 6 ==> CubeRed2[12 + b] == CubeColor(2, 2, b)
  {
    forall b | 0 <= b < 6 ensures CubeRed2[12 + b] == CubeColor(2, 2, b) {
      CubeColorSpelled(2, 2, b);
    }
  }

  lemma {:induction false} CubeRed2Green3()
    ensures forall b :: 0 <= b < 6 ==> CubeRed2[18 + b] == CubeColor(2, 3, b)
  {
    forall b | 0 <= b < 6 ensures CubeRed2[18 + b] == CubeColor(2, 3, b) {
      CubeColorSpelled(2, 3, b);
    }
  }

  lemma {:induction false} CubeRed2Green4()
    ensures forall b :: 0 <= b < 6 ==> CubeRed2[24 + b] == CubeColor(2, 4, b)
  {
    forall b | 0 <= b < 6 ensures CubeRed2[24 + b] == CubeColor(2, 4, b) {
      CubeColorSpelled(2, 4, b);
    }
  }

  lemma {:induction false} CubeRed2Green5()
    ensures forall b :: 0 <= b < 6 ==> CubeRed2[30 + b] == CubeColor(2, 5, b)
  {
    forall b | 0 <= b < 6 ensures CubeRed2[30 + b] == CubeColor(2, 5, b) {
      CubeColorSpelled(2, 5, b);
    }
  }

  /** The listed colours 88-123 follow the cube rule for red level 2. */
  lemma {:induction false} CubeRed2At(g: nat, b: nat)
    requires g < 6 && b < 6
    ensures CubeRed2[6 * g + b] == CubeColor(2, g, b)
  {
    if g == 0 { CubeRed2Green0(); } else if g == 1 { CubeRed2Green1(); } else if g == 2 { CubeRed2Green2(); } else if g == 3 { CubeRed2Green3(); } else if g == 4 { CubeRed2Green4(); } else { CubeRed2Green5(); }
  }

  lemma {:induction false} CubeRed3Green0()
    ensures forall b :: 0 <= b < 6 ==> CubeRed3[0 + b] == CubeColor(3, 0, b)
  {
    forall b | 0 <= b < 6 ensures CubeRed3[0 + b] == CubeColor(3, 0, b) {
      CubeColorSpelled(3, 0, b);
    }
  }

  lemma {:induction false} CubeRed3Green1()
    ensures forall b :: 0 <= b < 6 ==> CubeRed3[6 + b] == CubeColor(3, 1, b)
  {
    forall b | 0 <= b < 6 ensures CubeRed3[6 + b] == CubeColor(3, 1, b) {
      CubeColorSpelled(3, 1, b);
    }
  }

  lemma {:induction false} CubeRed3Green2()
    ensures forall b :: 0 <= b < 6 ==> CubeRed3[12 + b] == CubeColor(3, 2, b)
  {
    forall b | 0 <= b < 6 ensures CubeRed3[12 + b] == CubeColor(3, 2, b) {
      CubeColorSpelled(3, 2, b);
    }
  }

  lemma {:induction false} CubeRed3Green3()
    ensures forall b :: 0 <= b < 6 ==> CubeRed3[18 + b] == CubeColor(3, 3, b)
  {
    forall b | 0 <= b < 6 ensures CubeRed3[18 + b] == CubeColor(3, 3, b) {
      CubeColorSpelled(3, 3, b);
    }
  }

  lemma {:induction false} CubeRed3Green4()
    ensures forall b :: 0 <= b < 6 ==> CubeRed3[24 + b] == CubeColor(3, 4, b)
  {
    forall b | 0 <= b < 6 ensures CubeRed3[24 + b] == CubeColor(3, 4, b) {
      CubeColorSpelled(3, 4, b);
    }
  }

  lemma {:induction false} CubeRed3Green5()
    ensures forall b :: 0 <= b < 6 ==> CubeRed3[30 + b] == CubeColor(3, 5, b)
  {
    forall b | 0 <= b < 6 ensures CubeRed3[30 + b] == CubeColor(3, 5, b) {
      CubeColorSpelled(3, 5, b);
    }
  }

  /** The listed colours 124-159 follow the cube rule for red level 3. */
  lemma {:induction false} CubeRed3At(g: nat, b: nat)
    requires g < 6 && b < 6
    ensures CubeRed3[6 * g + b] == CubeColor(3, g, b)
  {
    if g == 0 { CubeRed3Green0(); } else if g == 1 { CubeRed3Green1(); } else if g == 2 { CubeRed3Green2(); } else if g == 3 { CubeRed3Green3(); } else if g == 4 { CubeRed3Green4(); } else { CubeRed3Green5(); }
  }

  lemma {:induction false} CubeRed4Green0()
    ensures forall b :: 0 <= b < 6 ==> CubeRed4[0 + b] == CubeColor(4, 0, b)
  {
    forall b | 0 <= b < 6 ensures CubeRed4[0 + b] == CubeColor(4, 0, b) {
      CubeColorSpelled(4, 0, b);
    }
  }

  lemma {:induction false} CubeRed4Green1()
    ensures forall b :: 0 <= b < 6 ==> CubeRed4[6 + b] == CubeColor(4, 1, b)
  {
    forall b | 0 <= b < 6 ensures CubeRed4[6 + b] == CubeColor(4, 1, b) {
      CubeColorSpelled(4, 1, b);
    }
  }

  lemma {:induction false} CubeRed4Green2()
    ensures forall b :: 0 <= b < 6 ==> CubeRed4[12 + b] == CubeColor(4, 2, b)
  {
    forall b | 0 <= b < 6 ensures CubeRed4[12 + b] == CubeColor(4, 2, b) {
      CubeColorSpelled(4, 2, b);
    }
  }

  lemma {:induction false} CubeRed4Green3()
    ensures forall b :: 0 <= b < 6 ==> CubeRed4[18 + b] == CubeColor(4, 3, b)
  {
    forall b | 0 <= b < 6 ensures CubeRed4[18 + b] == CubeColor(4, 3, b) {
      CubeColorSpelled(4, 3, b);
    }
  }

  lemma {:induction false} CubeRed4Green4()
    ensures forall b :: 0 <= b < 6 ==> CubeRed4[24 + b] == CubeColor(4, 4, b)
  {
    forall b | 0 <= b < 6 ensures CubeRed4[24 + b] == CubeColor(4, 4, b) {
      CubeColorSpelled(4, 4, b);
    }
  }

  lemma {:induction false} CubeRed4Green5()
    ensures forall b :: 0 <= b < 6 ==> CubeRed4[30 + b] == CubeColor(4, 5, b)
  {
    forall b | 0 <= b < 6 ensures CubeRed4[30 + b] == CubeColor(4, 5, b) {
      CubeColorSpelled(4, 5, b);
    }
  }

  /** The listed colours 160-195 follow the cube rule for red level 4. */
  lemma {:induction false} CubeRed4At(g: nat, b: nat)
    requires g < 6 && b < 6
    ensures CubeRed4[6 * g + b] == CubeColor(4, g, b)
  {
    if g == 0 { CubeRed4Green0(); } else if g == 1 { CubeRed4Green1(); } else if g == 2 { CubeRed4Green2(); } else if g == 3 { CubeRed4Green3(); } else if g == 4 { CubeRed4Green4(); } else { CubeRed4Green5(); }
  }

  lemma {:induction false} CubeRed5Green0()
    ensures forall b :: 0 <= b < 6 ==> CubeRed5[0 + b] == CubeColor(5, 0, b)
  {
    forall b | 0 <= b < 6 ensures CubeRed5[0 + b] == CubeColor(5, 0, b) {
      CubeColorSpelled(5, 0, b);
    }
  }

  lemma {:induction false} CubeRed5Green1()
    ensures forall b :: 0 <= b < 6 ==> CubeRed5[6 + b] == CubeColor(5, 1, b)
  {
    forall b | 0 <= b < 6 ensures CubeRed5[6 + b] == CubeColor(5, 1, b) {
      CubeColorSpelled(5, 1, b);
    }
  }

  lemma {:induction false} CubeRed5Green2()
    ensures forall b :: 0 <= b < 6 ==> CubeRed5[12 + b] == CubeColor(5, 2, b)
  {
    forall b | 0 <= b < 6 ensures CubeRed5[12 + b] == CubeColor(5, 2, b) {
      CubeColorSpelled(5, 2, b);
    }
  }

  lemma {:induction false} CubeRed5Green3()
    ensures forall b :: 0 <= b < 6 ==> CubeRed5[18 + b] == CubeColor(5, 3, b)
  {
    forall b | 0 <= b < 6 ensures CubeRed5[18 + b] == CubeColor(5, 3, b) {
      CubeColorSpelled(5, 3, b);
    }
  }

  lemma {:induction false} CubeRed5Green4()
    ensures forall b :: 0 <= b < 6 ==> CubeRed5[24 + b] == CubeColor(5, 4, b)
  {
    forall b | 0 <= b < 6 ensures CubeRed5[24 + b] == CubeColor(5, 4, b) {
      CubeColorSpelled(5, 4, b);
    }
  }

  lemma {:induction false} CubeRed5Green5()
    ensures forall b :: 0 <= b < 6 ==> CubeRed5[30 + b] == CubeColor(5, 5, b)
  {
    forall b | 0 <= b < 6 ensures CubeRed5[30 + b] == CubeColor(5, 5, b) {
      CubeColorSpelled(5, 5, b);
    }
  }

  /** The listed colours 196-231 follow the cube rule for red level 5. */
  lemma {:induction false} CubeRed5At(g: nat, b: nat)
    requires g < 6 && b < 6
    ensures CubeRed5[6 * g + b] == CubeColor(5, g, b)
  {
    if g == 0 { CubeRed5Green0(); } else if g == 1 { CubeRed5Green1(); } else if g == 2 { CubeRed5Green2(); } else if g == 3 { CubeRed5Green3(); } else if g == 4 { CubeRed5Green4(); } else { CubeRed5Green5(); }
  }

  lemma {:induction false} GreyQuarter0()
    ensures forall k :: 0 <= k < 6 ==> GreyListed[k] == GreyColor(k)
  {
    assert GreyListed[0] == GreyColor(0);
    assert GreyListed[1] == GreyColor(1);
    assert GreyListed[2] == GreyColor(2);
    assert GreyListed[3] == GreyColor(3);
    assert GreyListed[4] == GreyColor(4);
    assert GreyListed[5] == GreyColor(5);
  }

  lemma {:induction false} GreyQuarter1()
    ensures forall k :: 6 <= k < 12 ==> GreyListed[k] == GreyColor(k)
  {
    assert GreyListed[6] == GreyColor(6);
    assert GreyListed[7] == GreyColor(7);
    assert GreyListed[8] == GreyColor(8);
    assert GreyListed[9] == GreyColor(9);
    assert GreyListed[10] == GreyColor(10);
    assert GreyListed[11] == GreyColor(11);
  }

  lemma {:induction false} GreyQuarter2()
    ensures forall k :: 12 <= k < 18 ==> GreyListed[k] == GreyColor(k)
  {
    assert GreyListed[12] == GreyColor(12);
    assert GreyListed[13] == GreyColor(13);
    assert GreyListed[14] == GreyColor(14);
    assert GreyListed[15] == GreyColor(15);
    assert GreyListed[16] == GreyColor(16);
    assert GreyListed[17] == GreyColor(17);
  }

  lemma {:induction false} GreyQuarter3()
    ensures forall k :: 18 <= k < 24 ==> GreyListed[k] == GreyColor(k)
  {
    assert GreyListed[18] == GreyColor(18);
    assert GreyListed[19] == GreyColor(19);
    assert GreyListed[20] == GreyColor(20);
    assert GreyListed[21] == GreyColor(21);
    assert GreyListed[22] == GreyColor(22);
    assert GreyListed[23] == GreyColor(23);
  }

  /** Cube rule entry 36r + 6g + b has levels r, g and b. */
  lemma {:induction false} CubeRuleAt(r: nat, g: nat, b: nat)
    requires r < 6 && g < 6 && b < 6
    ensures 36 * r + 6 * g + b < |CubeColors| && CubeColors[36 * r + 6 * g + b] == CubeColor(r, g, b)
  {
    CubeIndex(r, g, b);
  }

  /** The cube index 36r + 6g + b splits back into r, g and b. */
  lemma {:induction false} CubeIndex(r: nat, g: nat, b: nat)
    requires r < 6 && g < 6 && b < 6
    ensures (36 * r + 6 * g + b) / 36 == r && (36 * r + 6 * g + b) / 6 % 6 == g && (36 * r + 6 * g + b) % 6 == b
  {
    var q := 6 * r + g;
    assert 36 * r + 6 * g + b == 6 * q + b;
    assert (6 * q + b) / 6 == q && (6 * q + b) % 6 == b;
    assert q % 6 == g;
    assert 36 * r + 6 * g + b == 36 * r + (6 * g + b) && 6 * g + b < 36;
  }

  lemma {:induction false} ListedCubeRed0At(i: nat)
    requires i < 36
    ensures CubeRed0[i] == CubeColors[0 + i]
  {
    var g, b := i / 6, i % 6;
    assert i == 6 * g + b && 0 + i == 36 * 0 + 6 * g + b;
    CubeRed0At(g, b);
    CubeRuleAt(0, g, b);
  }

  /** The listed colours 16-51 are the cube's red-level-0 slice. */
  lemma {:induction false} ListedCubeRed0()
    ensures CubeRed0 == CubeColors[0..36]
  {
    forall i | 0 <= i < 36 ensures CubeRed0[i] == CubeColors[0..36][i] {
      ListedCubeRed0At(i);
    }
  }

  lemma {:induction false} ListedCubeRed1At(i: nat)
    requires i < 36
    ensures CubeRed1[i] == CubeColors[36 + i]
  {
    var g, b := i / 6, i % 6;
    assert i == 6 * g + b && 36 + i == 36 * 1 + 6 * g + b;
    CubeRed1At(g, b);
    CubeRuleAt(1, g, b);
  }

  /** The listed colours 52-87 are the cube's red-level-1 slice. */
  lemma {:induction false} ListedCubeRed1()
    ensures CubeRed1 == CubeColors[36..72]
  {
    forall i | 0 <= i < 36 ensures CubeRed1[i] == CubeColors[36..72][i] {
      ListedCubeRed1At(i);
    }
  }

  lemma {:induction false} ListedCubeRed2At(i: nat)
    requires i < 36
    ensures CubeRed2[i] == CubeColors[72 + i]
  {
    var g, b := i / 6, i % 6;
    assert i == 6 * g + b && 72 + i == 36 * 2 + 6 * g + b;
    CubeRed2At(g, b);
    CubeRuleAt(2, g, b);
  }

  /** The listed colours 88-123 are the cube's red-level-2 slice. */
  lemma {:induction false} ListedCubeRed2()
    ensures CubeRed2 == CubeColors[72..108]
  {
    forall i | 0 <= i < 36 ensures CubeRed2[i] == CubeColors[72..108][i] {
      ListedCubeRed2At(i);
    }
  }

  lemma {:induction false} ListedCubeRed3At(i: nat)
    requires i < 36
    ensures CubeRed3[i] == CubeColors[108 + i]
  {
    var g, b := i / 6, i % 6;
    assert i == 6 * g + b && 108 + i == 36 * 3 + 6 * g + b;
    CubeRed3At(g, b);
    CubeRuleAt(3, g, b);
  }

  /** The listed colours 124-159 are the cube's red-level-3 slice. */
  lemma {:induction false} ListedCubeRed3()
    ensures CubeRed3 == CubeColors[108..144]
  {
    forall i | 0 <= i < 36 ensures CubeRed3[i] == CubeColors[108..144][i] {
      ListedCubeRed3At(i);
    }
  }

  lemma {:induction false} ListedCubeRed4At(i: nat)
    requires i < 36
    ensures CubeRed4[i] == CubeColors[144 + i]
  {
    var g, b := i / 6, i % 6;
    assert i == 6 * g + b && 144 + i == 36 * 4 + 6 * g + b;
    CubeRed4At(g, b);
    CubeRuleAt(4, g, b);
  }

  /** The listed colours 160-195 are the cube's red-level-4 slice. */
  lemma {:induction false} ListedCubeRed4()
    ensures CubeRed4 == CubeColors[144..180]
  {
    forall i | 0 <= i < 36 ensures CubeRed4[i] == CubeColors[144..180][i] {
      ListedCubeRed4At(i);
    }
  }

  lemma {:induction false} ListedCubeRed5At(i: nat)
    requires i < 36
    ensures CubeRed5[i] == CubeColors[180 + i]
  {
    var g, b := i / 6, i % 6;
    assert i == 6 * g + b && 180 + i == 36 * 5 + 6 * g + b;
    CubeRed5At(g, b);
    CubeRuleAt(5, g, b);
  }

  /** The listed colours 196-231 are the cube's red-level-5 slice. */
  lemma {:induction false} ListedCubeRed5()
    ensures CubeRed5 == CubeColors[180..216]
  {
    forall i | 0 <= i < 36 ensures CubeRed5[i] == CubeColors[180..216][i] {
      ListedCubeRed5At(i);
    }
  }

  /** The listed greys are the grey ramp. */
  lemma {:induction false} ListedGreys()
    ensures GreyListed == GreyColors
  {
    GreyQuarter0();
    GreyQuarter1();
    GreyQuarter2();
    GreyQuarter3();
  }

  /** Table entry 16 + 36r + 6g + b is the cube colour with levels r, g and b. */
  lemma {:induction false} CubeEntries(r: nat, g: nat, b: nat)
    requires r < 6 && g < 6 && b < 6
    ensures XtermColors[16 + 36 * r + 6 * g + b] == CubeColor(r, g, b)
  {
    CubeRuleAt(r, g, b);
    XtermCube(36 * r + 6 * g + b);
  }

  lemma {:induction false} XtermCube(i: nat)
    requires i < 216
    ensures XtermColors[16 + i] == CubeColors[i]
  {
    TableSize();
  }

  /** Table entry 232 + k is the grey whose channels are all 8 + 10k. */
  lemma {:induction false} GreyEntries(k: nat)
    requires k < 24
    ensures XtermColors[232 + k] == GreyColor(k)
  {
    assert XtermColors[232 + k] == GreyColors[k];
  }

  /** `getColorHex`: the table entry of a colour number, black for a number outside 0-255. */
  function GetColorHex(colorNumber: int): (hex: string)
    ensures colorNumber < 0 || colorNumber > 255 ==> hex == "#000000"
    ensures 0 <= colorNumber <= 255 ==> hex == XtermColors[colorNumber]
  {
    if colorNumber < 0 || colorNumber > 255 then "#000000" else XtermColors[colorNumber]
  }

  lemma {:induction false} RgbHexIsHexColor(r: nat, g: nat, b: nat)
    requires r < 256 && g < 256 && b < 256
    ensures IsHexColor(RgbHex(r, g, b))
  {
    var s := RgbHex(r, g, b);
    assert s == ['#', HexDigit(r / 16), HexDigit(r % 16), HexDigit(g / 16), HexDigit(g % 16), HexDigit(b / 16), HexDigit(b % 16)];
  }

  lemma {:induction false} StandardColorsAreHex()
    ensures forall i :: 0 <= i < 16 ==> IsHexColor(StandardColors[i])
  {
    forall i | 0 <= i < 16 ensures IsHexColor(StandardColors[i]) {
      if i == 0 {} else if i == 1 {} else if i == 2 {} else if i == 3 {} else if i == 4 {} else if i == 5 {} else if i == 6 {} else if i == 7 {} else if i == 8 {} else if i == 9 {} else if i == 10 {} else if i == 11 {} else if i == 12 {} else if i == 13 {} else if i == 14 {} else {}
    }
  }

  /** Every colour number, valid or not, gives a CSS colour `#rrggbb`. */
  lemma {:induction false} ColorHexIsHexColor(colorNumber: int)
    ensures IsHexColor(GetColorHex(colorNumber))
  {
    TableSize();
    if colorNumber < 0 || colorNumber > 255 {
      assert "#000000" == RgbHex(0, 0, 0);
      RgbHexIsHexColor(0, 0, 0);
    } else if colorNumber < 16 {
      StandardColorsAreHex();
    } else if colorNumber < 232 {
      CubeEntryIsHex(colorNumber - 16);
    } else {
      GreyEntryIsHex(colorNumber - 232);
    }
  }

  lemma {:induction false} CubeEntryIsHex(i: nat)
    requires i < 216
    ensures IsHexColor(XtermColors[16 + i])
  {
    XtermCube(i);
    var r, g, b := i / 36, i / 6 % 6, i % 6;
    assert CubeColors[i] == CubeColor(r, g, b);
    RgbHexIsHexColor(CubeLevels[r], CubeLevels[g], CubeLevels[b]);
  }

  lemma {:induction false} GreyEntryIsHex(k: nat)
    requires k < 24
    ensures IsHexColor(XtermColors[232 + k])
  {
    GreyEntries(k);
    RgbHexIsHexColor(8 + 10 * k, 8 + 10 * k, 8 + 10 * k);
  }

  /** The grid cells listed so far are colours 0, 1, ... in order, each with its table colour. */
  predicate GridInOrder(cells: seq<(int, string)>) {
    forall j :: 0 <= j < |cells| ==> cells[j] == (j, GetColorHex(j))
  }

  /** Appending the next colour number with its colour keeps the cells in order. */
  lemma {:induction false} GridAppend(cells: seq<(int, string)>, n: int)
    requires GridInOrder(cells) && |cells| == n
    ensures GridInOrder(cells + [(n, GetColorHex(n))])
  {
    var next := cells + [(n, GetColorHex(n))];
    forall j | 0 <= j < |next| ensures next[j] == (j, GetColorHex(j)) {
      if j < n {
        assert next[j] == cells[j];
      }
    }
  }

  /**
   * The colour numbers and colours of the picker's cells, as `generateColorGrid` lays them out:
   * the standard section, the cube section by red, green and blue level, then the grey section.
   * Together they list every colour number 0-255 exactly once, in increasing order.
   */
  method ColorGridCells() returns (cells: seq<(int, string)>)
    ensures |cells| == 256 && GridInOrder(cells)
    ensures forall n :: 0 <= n < 256 ==> cells[n].0 == n
  {
    cells := [];
    var i := 0;
    while i <= 15
      invariant 0 <= i <= 16 && |cells| == i && GridInOrder(cells)
    {
      GridAppend(cells, i);
      cells := cells + [(i, GetColorHex(i))];
      i := i + 1;
    }
    var r := 0;
    while r < 6
      invariant 0 <= r <= 6 && |cells| == 16 + 36 * r && GridInOrder(cells)
    {
      var g := 0;
      while g < 6
        invariant 0 <= g <= 6 && |cells| == 16 + 36 * r + 6 * g && GridInOrder(cells)
      {
        var b := 0;
        while b < 6
          invariant 0 <= b <= 6 && |cells| == 16 + 36 * r + 6 * g + b && GridInOrder(cells)
        {
          var colorNum := 16 + (r * 36) + (g * 6) + b;
          GridAppend(cells, colorNum);
          cells := cells + [(colorNum, GetColorHex(colorNum))];
          b := b + 1;
        }
        assert 16 + 36 * r + 6 * g + 6 == 16 + 36 * r + 6 * (g + 1);
        g := g + 1;
      }
      assert 16 + 36 * r + 6 * 6 == 16 + 36 * (r + 1);
      r := r + 1;
    }
    i := 232;
    while i <= 255
      invariant 232 <= i <= 256 && |cells| == i && GridInOrder(cells)
    {
      GridAppend(cells, i);
      cells := cells + [(i, GetColorHex(i))];
      i := i + 1;
    }
  }
}
