/**
 * The raw-data collector: a per-character state machine that keeps every character the device
 * sends outside pfod messages `{...}`, putting a line break where a message was cut out, and
 * remembers how much of the kept text has already been displayed.
 */
module RawDataCollector {
  import opened Text

  /** The collector's fields as a value: `rawData`, `braceDepth`, `wasInBraces`, `lastReturnedLength`. */
  datatype RawState = RawState(rawData: string, braceDepth: int, wasInBraces: bool, lastReturnedLength: int)

  const Initial := RawState([], 0, false, 0)

  /** A newline is injected before `c` when a message just closed and `c` does not start a line break. */
  predicate InjectsNewline(st: RawState, c: char) {
    st.wasInBraces && c != '\n' && c != '\r'
  }

  /** `processChar`. */
  function Step(st: RawState, c: char): RawState {
    if c == '{' then st.(braceDepth := st.braceDepth + 1, wasInBraces := false)
    else if c == '}' then
      var d := if st.braceDepth - 1 < 0 then 0 else st.braceDepth - 1;
      st.(braceDepth := d, wasInBraces := if d == 0 then true else st.wasInBraces)
    else if st.braceDepth == 0 then
      st.(rawData := st.rawData + (if InjectsNewline(st, c) then "\n" else "") + [c], wasInBraces := false)
    else st
  }

  /** `processCharacters`. */
  function Run(st: RawState, s: string): RawState
    decreases |s|
  {
    if s == [] then st else Step(Run(st, s[..|s| - 1]), s[|s| - 1])
  }

  predicate Good(st: RawState) {
    st.braceDepth >= 0 && st.lastReturnedLength >= 0
  }

  /**
   * One step: braces and every character read inside a message leave `rawData` as it was; any
   * other character is appended, after a newline exactly when one is injected.
   */
  lemma {:induction false} StepEffect(st: RawState, c: char)
    requires Good(st)
    ensures Good(Step(st, c))
    ensures st.rawData <= Step(st, c).rawData
    ensures c == '{' || c == '}' || st.braceDepth > 0 ==> Step(st, c).rawData == st.rawData
    ensures c != '{' && c != '}' && st.braceDepth == 0 ==>
      Step(st, c).rawData == st.rawData + (if InjectsNewline(st, c) then "\n" else "") + [c]
    ensures Step(st, c).lastReturnedLength == st.lastReturnedLength
  {
  }

  /** Over any input the kept text only grows: what was collected stays a prefix. */
  lemma {:induction false} RunExtends(st: RawState, s: string)
    requires Good(st)
    ensures Good(Run(st, s)) && st.rawData <= Run(st, s).rawData
    decreases |s|
  {
    if s != [] {
      RunExtends(st, s[..|s| - 1]);
      StepEffect(Run(st, s[..|s| - 1]), s[|s| - 1]);
    }
  }

  /** Text without braces, arriving outside a message with no line break pending, is kept verbatim. */
  lemma {:induction false} RunPlainText(st: RawState, s: string)
    requires st.braceDepth == 0 && !st.wasInBraces
    requires forall i :: 0 <= i < |s| ==> s[i] != '{' && s[i] != '}'
    ensures Run(st, s).rawData == st.rawData + s
    ensures Run(st, s).braceDepth == 0 && !Run(st, s).wasInBraces
    decreases |s|
  {
    if s != [] {
      RunPlainText(st, s[..|s| - 1]);
      assert st.rawData + s[..|s| - 1] + [s[|s| - 1]] == st.rawData + s;
    }
  }

  /** A whole message between two pieces of text is replaced by exactly one line break. */
  lemma {:induction false} MessageBecomesNewline(st: RawState, body: string, c: char)
    requires st.braceDepth == 0
    requires forall i :: 0 <= i < |body| ==> body[i] != '{' && body[i] != '}'
    requires c != '{' && c != '}' && c != '\n' && c != '\r'
    ensures Run(st, "{" + body + "}" + [c]).rawData == st.rawData + "\n" + [c]
  {
    InsideMessage(Step(st, '{'), body);
    RunAppendChar(st, "{", body);
    var s1 := "{" + body;
    var closed := Step(Run(st, s1), '}');
    assert (s1 + "}")[..|s1 + "}"| - 1] == s1;
    assert Run(st, s1 + "}") == closed;
    assert ("{" + body + "}" + [c])[..|"{" + body + "}" + [c]| - 1] == s1 + "}";
  }

  lemma {:induction false} InsideMessage(st: RawState, body: string)
    requires st.braceDepth == 1
    requires forall i :: 0 <= i < |body| ==> body[i] != '{' && body[i] != '}'
    ensures Run(st, body) == st
    decreases |body|
  {
    if body != [] {
      InsideMessage(st, body[..|body| - 1]);
    }
  }

  lemma {:induction false} RunAppendChar(st: RawState, first: string, body: string)
    requires first == "{"
    ensures Run(st, first + body) == Run(Step(st, '{'), body)
    decreases |body|
  {
    if body == [] {
      assert first + body == first;
      assert first[..0] == [];
    } else {
      assert (first + body)[..|first + body| - 1] == first + body[..|body| - 1];
      assert (first + body)[|first + body| - 1] == body[|body| - 1];
      RunAppendChar(st, first, body[..|body| - 1]);
    }
  }

  /** `rawData.substring(start)`: JavaScript clamps a start past the end to the end. */
  function From(s: string, start: int): (r: string)
    requires start >= 0
    ensures start >= |s| ==> r == []
    ensures start < |s| ==> r == s[start..]
  {
    if start >= |s| then [] else s[start..]
  }

  /** The collector object. */
  class Collector {
    var rawData: string
    var braceDepth: int
    var wasInBraces: bool
    var lastReturnedLength: int

    ghost function State(): RawState
      reads this
    {
      RawState(rawData, braceDepth, wasInBraces, lastReturnedLength)
    }

    ghost predicate Valid()
      reads this
    {
      Good(State())
    }

    constructor ()
      ensures State() == Initial && Valid()
    {
      rawData := [];
      braceDepth := 0;
      wasInBraces := false;
      lastReturnedLength := 0;
    }

    /** `processChar`. */
    method ProcessChar(c: char)
      requires Valid()
      modifies this
      ensures State() == Step(old(State()), c) && Valid()
    {
      if c == '{' {
        braceDepth := braceDepth + 1;
        wasInBraces := false;
        return;
      }
      if c == '}' {
        braceDepth := braceDepth - 1;
        if braceDepth < 0 {
          braceDepth := 0;
        }
        if braceDepth == 0 {
          wasInBraces := true;
        }
        return;
      }
      if braceDepth == 0 {
        if wasInBraces && c != '\n' && c != '\r' {
          rawData := rawData + "\n";
        }
        wasInBraces := false;
        rawData := rawData + [c];
      }
    }

    /** `processCharacters`. */
    method ProcessCharacters(text: string)
      requires Valid()
      modifies this
      ensures State() == Run(old(State()), text) && Valid()
    {
      var i := 0;
      while i < |text|
        invariant 0 <= i <= |text| && Valid()
        invariant State() == Run(old(State()), text[..i])
      {
        assert text[..i + 1][..i] == text[..i];
        ProcessChar(text[i]);
        i := i + 1;
      }
      assert text[..i] == text;
    }

    /** `getNewData`: the kept text from the last displayed position on. */
    method GetNewData() returns (newData: string)
      requires Valid()
      ensures newData == From(rawData, lastReturnedLength)
      ensures |newData| <= |rawData| && newData == rawData[|rawData| - |newData|..]
      ensures lastReturnedLength >= |rawData| <==> newData == []
    {
      newData := if lastReturnedLength >= |rawData| then [] else rawData[lastReturnedLength..];
    }

    /** `markDisplayedUpTo`: after it, `GetNewData` returns nothing until more text arrives. */
    method MarkDisplayedUpTo()
      requires Valid()
      modifies this`lastReturnedLength
      ensures lastReturnedLength == |rawData| && Valid()
      ensures From(rawData, lastReturnedLength) == []
    {
      lastReturnedLength := |rawData|;
    }

    /**
     * `extractAndClearRawData`: returns the kept text and empties it; the display position is
     * left as it was.
     */
    method ExtractAndClearRawData() returns (data: string)
      requires Valid()
      modifies this`rawData
      ensures data == old(rawData) && rawData == [] && Valid()
    {
      data := rawData;
      rawData := [];
    }

    /** `clear`: resets the text, the depth and the display position, but not `wasInBraces`. */
    method Clear()
      modifies this
      ensures rawData == [] && braceDepth == 0 && lastReturnedLength == 0 && Valid()
      ensures wasInBraces == old(wasInBraces)
    {
      rawData := [];
      braceDepth := 0;
      lastReturnedLength := 0;
    }

    /** `getStats`: the kept length and the number of line feeds in the kept text. */
    function GetStats(): (stats: (nat, nat))
      reads this
      ensures stats.0 == |rawData|
      ensures stats.1 == |Positions(rawData, '\n')|
    {
      PositionsCount(rawData, '\n');
      (|rawData|, Count(rawData, '\n'))
    }
  }

  /** The number of positions of `c` in `s` is the number of occurrences of `c`. */
  lemma {:induction false} PositionsCount(s: string, c: char)
    ensures |Positions(s, c)| == Count(s, c)
    decreases |s|
  {
    if s != [] {
      var init := s[..|s| - 1];
      PositionsCount(init, c);
      assert s == init + [s[|s| - 1]];
      CountAppend(init, [s[|s| - 1]], c);
    }
  }
}
