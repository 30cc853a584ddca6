/**
 * The CSV collector: a per-character state machine over the raw device stream that skips pfod
 * messages `{...}` and files each complete plain-text line, trimmed, in a bucket keyed by its
 * number of comma-separated fields.
 */
module CsvCollector {
  import opened Text

  /** The collector's fields as a value: `csvByFieldCount`, `currentLine`, `inCSVMode`, `braceDepth`. */
  datatype CsvState = CsvState(buckets: map<int, seq<string>>, currentLine: string, inCsvMode: bool, braceDepth: int)

  const Initial := CsvState(map[], [], false, 0)

  predicate IsTerminator(c: char) {
    c == '\r' || c == '\n'
  }

  /** A character that never reaches a stored line: a brace or a line terminator. */
  predicate IsFrame(c: char) {
    c == '{' || c == '}' || IsTerminator(c)
  }

  predicate FrameFree(s: string) {
    forall i :: 0 <= i < |s| ==> !IsFrame(s[i])
  }

  /** The number of fields of a line: `line.split(',').length`. */
  function FieldCount(line: string): (n: int)
    ensures n == Count(line, ',') + 1
  {
    |Split(line, ',')|
  }

  /** `addCSVLine`: appends `line` to the bucket for its field count, creating the bucket if needed. */
  function AddLine(buckets: map<int, seq<string>>, line: string): map<int, seq<string>> {
    var k := FieldCount(line);
    buckets[k := (if k in buckets then buckets[k] else []) + [line]]
  }

  /** `processChar`. */
  function Step(st: CsvState, c: char): CsvState {
    if c == '{' then st.(braceDepth := st.braceDepth + 1, inCsvMode := false)
    else if c == '}' then
      var d := if st.braceDepth - 1 < 0 then 0 else st.braceDepth - 1;
      st.(braceDepth := d, inCsvMode := if d == 0 then true else st.inCsvMode)
    else if st.braceDepth > 0 then st
    else if IsTerminator(c) then
      var line := Trim(st.currentLine);
      st.(buckets := if st.inCsvMode && |line| > 0 then AddLine(st.buckets, line) else st.buckets,
          currentLine := [], inCsvMode := true)
    else if st.inCsvMode then st.(currentLine := st.currentLine + [c])
    else st
  }

  /** `processCharacters`: `Step` applied to each character in order. */
  function Run(st: CsvState, s: string): CsvState
    decreases |s|
  {
    if s == [] then st else Step(Run(st, s[..|s| - 1]), s[|s| - 1])
  }

  /** A stored line: non-empty, trimmed, with no brace or line terminator in it. */
  predicate GoodLine(line: string) {
    line != [] && IsTrimmed(line) && FrameFree(line)
  }

  /**
   * What the collector keeps true: the depth never goes negative, the line being built holds no
   * brace or terminator, and every stored line is good and sits in the bucket for its field count.
   */
  predicate Good(st: CsvState) {
    st.braceDepth >= 0 && FrameFree(st.currentLine) && GoodBuckets(st.buckets)
  }

  /** Every stored line is good and sits in the bucket for its field count. */
  predicate GoodBuckets(buckets: map<int, seq<string>>) {
    forall k, i :: k in buckets && 0 <= i < |buckets[k]| ==>
      GoodLine(buckets[k][i]) && FieldCount(buckets[k][i]) == k
  }

  /** Every bucket of `a` is a prefix of the same bucket of `b`: lines are only ever appended. */
  predicate Extends(a: map<int, seq<string>>, b: map<int, seq<string>>) {
    forall k :: k in a ==> k in b && a[k] <= b[k]
  }

  lemma {:induction false} TrimKeepsFrameFree(s: string)
    requires FrameFree(s)
    ensures FrameFree(Trim(s))
  {
    SliceFrameFree(s, LeadingSpace(s), LeadingSpace(s) + |Trim(s)|);
  }

  lemma {:induction false} SliceFrameFree(s: string, a: nat, b: nat)
    requires FrameFree(s) && a <= b <= |s|
    ensures FrameFree(s[a..b])
  {
    assert forall i :: 0 <= i < b - a ==> s[a..b][i] == s[a + i];
  }

  lemma {:induction false} StepKeepsGood(st: CsvState, c: char)
    requires Good(st)
    ensures Good(Step(st, c))
  {
    if c == '{' || c == '}' || st.braceDepth > 0 {
    } else if IsTerminator(c) {
      TerminatorKeepsGood(st, c);
    } else if st.inCsvMode {
      PushKeepsFrameFree(st.currentLine, c);
    }
  }

  lemma {:induction false} TerminatorKeepsGood(st: CsvState, c: char)
    requires Good(st) && IsTerminator(c) && st.braceDepth == 0
    ensures Good(Step(st, c))
  {
    var line := Trim(st.currentLine);
    TerminatorStep(st, c);
    if st.inCsvMode && |line| > 0 {
      TrimKeepsFrameFree(st.currentLine);
      AddLineKeepsGood(st.buckets, line);
    }
    assert FrameFree(Step(st, c).currentLine);
  }

  /** `Step` at a terminator outside braces, written out. */
  lemma {:induction false} TerminatorStep(st: CsvState, c: char)
    requires IsTerminator(c) && st.braceDepth == 0
    ensures var line := Trim(st.currentLine);
      Step(st, c) == CsvState(if st.inCsvMode && |line| > 0 then AddLine(st.buckets, line) else st.buckets, [], true, 0)
  {
    assert c != '{' && c != '}';
  }

  lemma {:induction false} PushKeepsFrameFree(line: string, c: char)
    requires FrameFree(line) && !IsFrame(c)
    ensures FrameFree(line + [c])
  {
    assert forall i :: 0 <= i < |line| + 1 ==> (line + [c])[i] == (if i < |line| then line[i] else c);
  }

  /** Filing a good line keeps every bucket good. */
  lemma {:induction false} AddLineKeepsGood(buckets: map<int, seq<string>>, line: string)
    requires GoodBuckets(buckets) && GoodLine(line)
    ensures GoodBuckets(AddLine(buckets, line))
  {
    var k := FieldCount(line);
    var old_ := if k in buckets then buckets[k] else [];
    var b := AddLine(buckets, line);
    forall j, i | j in b && 0 <= i < |b[j]| ensures GoodLine(b[j][i]) && FieldCount(b[j][i]) == j {
      if j == k && i == |old_| {
        assert b[j][i] == line;
      } else if j == k {
        assert b[j][i] == old_[i];
      }
    }
  }

  lemma {:induction false} StepExtends(st: CsvState, c: char)
    ensures Extends(st.buckets, Step(st, c).buckets)
  {
    if IsTerminator(c) && st.braceDepth == 0 && st.inCsvMode && |Trim(st.currentLine)| > 0 {
      AddLineExtends(st.buckets, Trim(st.currentLine));
    }
  }

  /** Filing a line only appends to one bucket. */
  lemma {:induction false} AddLineExtends(buckets: map<int, seq<string>>, line: string)
    ensures Extends(buckets, AddLine(buckets, line))
  {
  }

  /** Inside a pfod message, every character but a brace leaves the collector as it was. */
  lemma {:induction false} StepInsideBraces(st: CsvState, c: char)
    requires st.braceDepth > 0 && c != '{' && c != '}'
    ensures Step(st, c) == st
  {
  }

  /**
   * At a line terminator outside braces the trimmed line is filed exactly when CSV mode is on
   * and it is not blank; the line buffer is then emptied and CSV mode switched on.
   */
  lemma {:induction false} StepAtTerminator(st: CsvState, c: char)
    requires IsTerminator(c) && st.braceDepth == 0
    ensures var next := Step(st, c);
      next.currentLine == [] && next.inCsvMode && next.braceDepth == 0 &&
      (next.buckets != st.buckets <==> st.inCsvMode && Trim(st.currentLine) != [])
  {
    TerminatorStep(st, c);
    var line := Trim(st.currentLine);
    if st.inCsvMode && line != [] {
      AddLineGrows(st.buckets, line);
    }
  }

  /** Filing a line lengthens its bucket, so the buckets change. */
  lemma {:induction false} AddLineGrows(buckets: map<int, seq<string>>, line: string)
    ensures AddLine(buckets, line) != buckets
  {
    var k := FieldCount(line);
    var old_ := if k in buckets then buckets[k] else [];
    assert |AddLine(buckets, line)[k]| == |old_| + 1;
  }

  lemma {:induction false} RunKeepsGood(st: CsvState, s: string)
    requires Good(st)
    ensures Good(Run(st, s))
    decreases |s|
  {
    if s != [] {
      RunKeepsGood(st, s[..|s| - 1]);
      StepKeepsGood(Run(st, s[..|s| - 1]), s[|s| - 1]);
    }
  }

  /** Over any input, the buckets only grow at their ends: stored lines keep their places. */
  lemma {:induction false} RunExtends(st: CsvState, s: string)
    ensures Extends(st.buckets, Run(st, s).buckets)
    decreases |s|
  {
    if s != [] {
      var mid := Run(st, s[..|s| - 1]);
      RunExtends(st, s[..|s| - 1]);
      StepExtends(mid, s[|s| - 1]);
    }
  }

  /** Feeding the stream in two chunks gives the state of feeding it at once. */
  lemma {:induction false} RunAppend(st: CsvState, s: string, t: string)
    ensures Run(st, s + t) == Run(Run(st, s), t)
    decreases |t|
  {
    if t == [] {
      assert s + t == s;
    } else {
      assert (s + t)[..|s + t| - 1] == s + t[..|t| - 1];
      assert (s + t)[|s + t| - 1] == t[|t| - 1];
      RunAppend(st, s, t[..|t| - 1]);
    }
  }

  /**
   * Text the collector sees before the first closing brace or line terminator is never stored:
   * CSV mode starts off and only `}` or a terminator switches it on.
   */
  lemma {:induction false} LeadingTextDropped(s: string)
    requires forall i :: 0 <= i < |s| ==> s[i] != '}' && !IsTerminator(s[i])
    ensures Run(Initial, s).buckets == map[] && Run(Initial, s).currentLine == []
    ensures !Run(Initial, s).inCsvMode
    decreases |s|
  {
    if s != [] {
      LeadingTextDropped(s[..|s| - 1]);
    }
  }

  /** The collector object: fields updated in place by each character. */
  class Collector {
    var csvByFieldCount: map<int, seq<string>>
    var currentLine: string
    var inCsvMode: bool
    var braceDepth: int

    ghost function State(): CsvState
      reads this
    {
      CsvState(csvByFieldCount, currentLine, inCsvMode, braceDepth)
    }

    ghost predicate Valid()
      reads this
    {
      Good(State())
    }

    constructor ()
      ensures State() == Initial && Valid()
    {
      csvByFieldCount := map[];
      currentLine := [];
      inCsvMode := false;
      braceDepth := 0;
    }

    /** `addCSVLine`. */
    method AddCsvLine(line: string)
      modifies this`csvByFieldCount
      ensures csvByFieldCount == AddLine(old(csvByFieldCount), line)
    {
      var fieldCount := |Split(line, ',')|;
      if fieldCount !in csvByFieldCount {
        csvByFieldCount := csvByFieldCount[fieldCount := []];
      }
      csvByFieldCount := csvByFieldCount[fieldCount := csvByFieldCount[fieldCount] + [line]];
    }

    /** `processChar`. */
    method ProcessChar(c: char)
      requires Valid()
      modifies this
      ensures State() == Step(old(State()), c) && Valid()
    {
      StepKeepsGood(State(), c);
      if c == '{' {
        braceDepth := braceDepth + 1;
        inCsvMode := false;
        return;
      }
      if c == '}' {
        braceDepth := braceDepth - 1;
        if braceDepth < 0 {
          braceDepth := 0;
        }
        if braceDepth == 0 {
          inCsvMode := true;
        }
        return;
      }
      if braceDepth > 0 {
        return;
      }
      if c == '\r' || c == '\n' {
        if inCsvMode && |Trim(currentLine)| > 0 {
          AddCsvLine(Trim(currentLine));
        }
        currentLine := [];
        inCsvMode := true;
        return;
      }
      if inCsvMode {
        currentLine := currentLine + [c];
      }
    }

    /** `processCharacters`. */
    method ProcessCharacters(text: string)
      requires Valid()
      modifies this
      ensures State() == Run(old(State()), text) && Valid()
    {
      var i := 0;
      while i < |text|
        invariant 0 <= i <= |text| && Valid()
        invariant State() == Run(old(State()), text[..i])
      {
        assert text[..i + 1][..i] == text[..i];
        ProcessChar(text[i]);
        i := i + 1;
      }
      assert text[..i] == text;
    }

    /** `getCSVLines`: the lines stored for `fieldCount`, each good and with that many fields. */
    method GetCsvLines(fieldCount: int) returns (lines: seq<string>)
      requires Valid()
      ensures fieldCount !in csvByFieldCount ==> lines == []
      ensures fieldCount in csvByFieldCount ==> lines == csvByFieldCount[fieldCount]
      ensures forall i :: 0 <= i < |lines| ==> GoodLine(lines[i]) && Count(lines[i], ',') == fieldCount - 1
    {
      lines := if fieldCount in csvByFieldCount then csvByFieldCount[fieldCount] else [];
    }

    /** `clear`. */
    method Clear()
      modifies this
      ensures State() == Initial && Valid()
    {
      csvByFieldCount := map[];
      currentLine := [];
      inCsvMode := false;
      braceDepth := 0;
    }
  }
}
