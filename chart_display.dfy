/**
 * The chart header: a pfod message such as `{=Test Data|count|l1|l2}`, split on `|`, names the
 * chart and its fields; the chart then shows at most the newest `limit` CSV lines.
 */
module ChartDisplay {
  import opened Wrappers
  import opened Text
  import opened Seqs

  /** The number of CSV lines a chart shows unless told otherwise. */
  const DefaultLimit := 500

  datatype ChartInfo = ChartInfo(title: string, labels: seq<string>, limit: int)

  /** An element that names a field: it starts with `|`. */
  predicate IsLabelElement(elem: string) {
    "|" <= elem
  }

  /** The field name of a label element: the text after the `|`, trimmed. */
  function LabelText(elem: string): string
    requires IsLabelElement(elem)
  {
    Trim(elem[1..])
  }

  function StripBar(elem: string): string {
    if IsLabelElement(elem) then LabelText(elem) else elem
  }

  predicate NonEmpty(s: string) {
    |s| > 0
  }

  /**
   * The field labels of the elements after the first: the `|`-prefixed ones in order, without
   * the `|`, trimmed, blank ones dropped.
   */
  function Labels(elems: seq<string>): seq<string> {
    Filter(Map(Filter(elems, IsLabelElement), StripBar), NonEmpty)
  }

  /** Every label is a non-blank, trimmed piece of a `|`-prefixed element. */
  lemma {:induction false} LabelsAreFieldNames(elems: seq<string>)
    ensures forall l :: l in Labels(elems) ==>
      l != [] && IsTrimmed(l) && exists e :: e in elems && IsLabelElement(e) && l == LabelText(e)
  {
    var marked := Filter(elems, IsLabelElement);
    var stripped := Map(marked, StripBar);
    forall l | l in Labels(elems)
      ensures l != [] && IsTrimmed(l) && exists e :: e in elems && IsLabelElement(e) && l == LabelText(e)
    {
      assert l in stripped && NonEmpty(l);
      var i :| 0 <= i < |stripped| && stripped[i] == l;
      LabelFromMarked(elems, marked, i, l);
    }
  }

  lemma {:induction false} LabelFromMarked(elems: seq<string>, marked: seq<string>, i: nat, l: string)
    requires marked == Filter(elems, IsLabelElement) && i < |marked| && l == StripBar(marked[i])
    ensures marked[i] in elems && IsLabelElement(marked[i]) && l == LabelText(marked[i]) && IsTrimmed(l)
  {
    assert marked[i] in marked;
  }

  /** Labels keep their order: the labels of two runs of elements are the labels of each in turn. */
  lemma {:induction false} LabelsAppend(a: seq<string>, b: seq<string>)
    ensures Labels(a + b) == Labels(a) + Labels(b)
  {
    FilterAppend(a, b, IsLabelElement);
    MapAppend(Filter(a, IsLabelElement), Filter(b, IsLabelElement), StripBar);
    FilterAppend(Map(Filter(a, IsLabelElement), StripBar), Map(Filter(b, IsLabelElement), StripBar), NonEmpty);
  }

  /** One element on its own yields its field name exactly when it is a non-blank label. */
  lemma {:induction false} LabelsSingle(elem: string)
    ensures Labels([elem]) == if IsLabelElement(elem) && LabelText(elem) != [] then [LabelText(elem)] else []
  {
    FilterSingle(elem, IsLabelElement);
    if IsLabelElement(elem) {
      MapSingle(elem, StripBar);
      FilterSingle(LabelText(elem), NonEmpty);
    } else {
      assert Map<string, string>([], StripBar) == [];
    }
  }

  /**
   * `parseChartLabels`; `None` for the input stands for a value that is not an array. The
   * result is absent for a non-array or empty array, a first element with no `=`, a lone first
   * element, or no field labels.
   */
  function ParseChartLabels(cmdArray: Option<seq<string>>): (r: Option<ChartInfo>)
    ensures r.None? <==>
      cmdArray.None? || |cmdArray.value| == 0 || IndexOf(cmdArray.value[0], '=').None? ||
      |cmdArray.value| == 1 || Labels(cmdArray.value[1..]) == []
    ensures r.Some? ==>
      var first := cmdArray.value[0];
      var eq := IndexOf(first, '=').value;
      '=' !in first[..eq] && r.value.title == Trim(first[eq + 1..]) &&
      r.value.labels == Labels(cmdArray.value[1..]) && |r.value.labels| > 0 &&
      r.value.limit == DefaultLimit
  {
    if cmdArray.None? || |cmdArray.value| == 0 then None
    else
      var first := cmdArray.value[0];
      match IndexOf(first, '=')
      case None => None
      case Some(eqIdx) =>
        var title := Trim(first[eqIdx + 1..]);
        if |cmdArray.value| == 1 then None
        else
          var labels := Labels(cmdArray.value[1..]);
          if |labels| == 0 then None
          else Some(ChartInfo(title, labels, DefaultLimit))
  }

  /** A label element whose text after the `|` is already trimmed and non-blank gives that text. */
  lemma {:induction false} LabelOfPlainName(name: string)
    requires name != [] && IsTrimmed(name)
    ensures Labels(["|" + name]) == [name]
  {
    LabelsSingle("|" + name);
    assert ("|" + name)[1..] == name;
    TrimOfTrimmed(name);
  }

  /** Plain field names after their `|` come out as those names, in order. */
  lemma {:induction false} LabelsOfTwo(a: string, b: string)
    requires a != [] && IsTrimmed(a) && b != [] && IsTrimmed(b)
    ensures Labels(["|" + a] + ["|" + b]) == [a] + [b]
  {
    LabelOfPlainName(a);
    LabelOfPlainName(b);
    LabelsAppend(["|" + a], ["|" + b]);
  }

  lemma {:induction false} LabelsOfThree(a: string, b: string, c: string)
    requires a != [] && IsTrimmed(a) && b != [] && IsTrimmed(b) && c != [] && IsTrimmed(c)
    ensures Labels(["|" + a] + ["|" + b] + ["|" + c]) == [a] + [b] + [c]
  {
    LabelsOfTwo(a, b);
    LabelOfPlainName(c);
    LabelsAppend(["|" + a] + ["|" + b], ["|" + c]);
  }

  lemma {:induction false} ThreeAsConcat<T>(x: T, y: T, z: T)
    ensures [x, y, z] == [x] + [y] + [z]
  {
  }

  lemma {:induction false} DocumentedLabels()
    ensures Labels(["|count", "|l1", "|l2"]) == ["count", "l1", "l2"]
  {
    DocumentedNames();
    LabelsOfThree("count", "l1", "l2");
    ThreeAsConcat("|count", "|l1", "|l2");
    ThreeAsConcat("count", "l1", "l2");
  }

  lemma {:induction false} DocumentedNames()
    ensures IsTrimmed("count") && IsTrimmed("l1") && IsTrimmed("l2")
    ensures "|count" == "|" + "count" && "|l1" == "|" + "l1" && "|l2" == "|" + "l2"
  {
  }

  /** A header `{=title` followed by elements with field labels names the chart `title` with those labels. */
  lemma {:induction false} ParseOfHeader(msg: seq<string>, title: string)
    requires |msg| > 1 && msg[0] == "{=" + title && IsTrimmed(title) && Labels(msg[1..]) != []
    ensures ParseChartLabels(Some(msg)) == Some(ChartInfo(title, Labels(msg[1..]), DefaultLimit))
  {
    HeaderTitle(title);
    TrimOfTrimmed(title);
    ParseWithEq(msg, 1);
  }

  lemma {:induction false} ParseWithEq(msg: seq<string>, eq: nat)
    requires |msg| > 1 && IndexOf(msg[0], '=') == Some(eq) && Labels(msg[1..]) != []
    ensures ParseChartLabels(Some(msg)) == Some(ChartInfo(Trim(msg[0][eq + 1..]), Labels(msg[1..]), DefaultLimit))
  {
    var title, labels := Trim(msg[0][eq + 1..]), Labels(msg[1..]);
    assert |labels| != 0;
    assert ParseChartLabels(Some(msg)) == Some(ChartInfo(title, labels, DefaultLimit));
  }

  /** The `=` of a `{=` header is its second character, and the title follows it. */
  lemma {:induction false} HeaderTitle(title: string)
    ensures IndexOf("{=" + title, '=') == Some(1) && ("{=" + title)[1 + 1..] == title
  {
    var first := "{=" + title;
    assert first[0] == '{' && first[1] == '=';
    assert first[..1] == "{";
  }

  /** The documented header `{=Test Data|count|l1|l2}` names the chart "Test Data" with three fields. */
  lemma {:induction false} DocumentedHeader()
    ensures ParseChartLabels(Some(["{=Test Data", "|count", "|l1", "|l2"])) ==
      Some(ChartInfo("Test Data", ["count", "l1", "l2"], DefaultLimit))
  {
    var msg := ["{=Test Data", "|count", "|l1", "|l2"];
    DocumentedLabels();
    DocumentedTitle();
    assert msg[1..] == ["|count", "|l1", "|l2"];
    ParseOfHeader(msg, "Test Data");
  }

  lemma {:induction false} DocumentedTitle()
    ensures IsTrimmed("Test Data") && "{=Test Data" == "{=" + "Test Data"
  {
  }

  /**
   * `getLimitedLines`: the newest `limit` lines, all of them when there are no more than that,
   * none for a limit of zero or less.
   */
  function GetLimitedLines(csvLines: seq<string>, limit: int): (r: seq<string>)
    ensures r == Newest(csvLines, if limit < 0 then 0 else limit)
    ensures |csvLines| <= limit ==> r == csvLines
  {
    if |csvLines| <= limit then csvLines
    else if limit <= 0 then []
    else csvLines[|csvLines| - limit..]
  }

  /** Lines only ever added: limiting a longer history keeps the same newest tail. */
  lemma {:induction false} LimitedLinesOfAppended(lines: seq<string>, more: seq<string>, limit: int)
    requires |more| >= limit
    ensures GetLimitedLines(lines + more, limit) == GetLimitedLines(more, limit)
  {
    if limit > 0 {
      assert (lines + more)[|lines + more| - limit..] == more[|more| - limit..];
    }
  }
}
