/**
 * The two data series the front end keeps beside the variable files: the
 * concentration series (in File A after a six-line header) and the time
 * stamps (in File B after a first line giving how many further lines to
 * skip). Exports write the items joined by line breaks; imports skip the
 * header, split the rest into lines and convert each to a float.
 *
 * `toFloat` stands for `float(x)` followed by the `str()` the tables show:
 * `None` where Python raises ValueError.
 */
module Series {
  import opened Wrappers
  import opened Text

  /** `"\n".join(map(str, items))`: the text `_export_*_data` writes, with no line break after the last item. */
  function ExportText(items: seq<string>): string {
    Join("\n", items)
  }

  /** `[float(i) for i in lines]`: every line converted, or `None` once one of them raises. */
  function Floats(lines: seq<string>, toFloat: string -> Option<string>): (r: Option<seq<string>>)
    ensures r.Some? <==> forall i :: 0 <= i < |lines| ==> toFloat(lines[i]).Some?
    ensures r.Some? ==> |r.value| == |lines| && forall i :: 0 <= i < |lines| ==> r.value[i] == toFloat(lines[i]).value
  {
    if lines == [] then Some([])
    else
      var head := toFloat(lines[0]);
      var tail := Floats(lines[1..], toFloat);
      if head.Some? && tail.Some? then Some([head.value] + tail.value)
      else
        assert head.None? ==> !toFloat(lines[0]).Some?;
        None
  }

  /** What `_import_concentration_data` returns for File A's text (`None` for a file that cannot be opened). */
  function ConcentrationOf(content: Option<string>, toFloat: string -> Option<string>): Option<seq<string>> {
    if content.None? then None else Floats(SplitLines(DropLines(content.value, 6)), toFloat)
  }

  /**
   * What `_import_timestamps_data` returns for File B's text: the first line
   * is an integer (otherwise ValueError), that many further lines are
   * skipped (none when it is negative), and the rest are the time stamps.
   */
  function TimestampsOf(content: Option<string>, toFloat: string -> Option<string>): Option<seq<string>> {
    if content.None? then None
    else
      var first := ReadLine(content.value);
      var skip := SkipCount(first.0);
      if skip.None? then None
      else Floats(SplitLines(DropLines(first.1, skip.value)), toFloat)
  }

  /** The number of lines `range(int(line))` skips: none for a negative number, `None` where `int` raises. */
  function SkipCount(line: string): (r: Option<nat>)
    ensures r.Some? <==> ParseInt(line).Some?
    ensures r.Some? ==> r.value == if ParseInt(line).value < 0 then 0 else ParseInt(line).value
  {
    var n := ParseInt(line);
    if n.None? then None else if n.value < 0 then Some(0) else Some(n.value)
  }

  /** Six `readline()` calls, then `read().splitlines()`, each line converted. */
  method ImportConcentration(content: Option<string>, toFloat: string -> Option<string>) returns (r: Option<seq<string>>)
    ensures r == ConcentrationOf(content, toFloat)
  {
    if content.None? {
      return None;
    }
    var rest := content.value;
    for i := 0 to 6
      invariant rest == DropLines(content.value, i)
    {
      rest := ReadLine(rest).1;
    }
    r := Floats(SplitLines(rest), toFloat);
  }

  /** `int(readline())`, that many `readline()` calls, then `read().splitlines()`, each line converted. */
  method ImportTimestamps(content: Option<string>, toFloat: string -> Option<string>) returns (r: Option<seq<string>>)
    ensures r == TimestampsOf(content, toFloat)
  {
    if content.None? {
      return None;
    }
    var first := ReadLine(content.value);
    var skip := SkipCount(first.0);
    if skip.None? {
      return None;
    }
    var rest := first.1;
    for i := 0 to skip.value
      invariant rest == DropLines(first.1, i)
    {
      rest := ReadLine(rest).1;
    }
    r := Floats(SplitLines(rest), toFloat);
  }

  // ---------------------------------------------------------------- round trips

  /** Lines the import reads back as they were exported: each one line, none empty. */
  predicate Importable(values: seq<string>) {
    forall i :: 0 <= i < |values| ==> IsLine(values[i]) && values[i] != []
  }

  /** Skipping the header of an exported text leaves the lines after it. */
  lemma DropHeader(header: seq<string>, values: seq<string>)
    requires forall i :: 0 <= i < |header| ==> '\n' !in header[i] && '\r' !in header[i]
    requires Importable(values)
    ensures SplitLines(DropLines(ExportText(header + values), |header|)) == values
  {
    if header == [] {
      assert header + values == values;
      SplitLinesJoin(values);
    } else if values == [] {
      DropWholeHeader(header);
      assert header + values == header;
    } else {
      var s := ExportText(header + values);
      JoinNewlineAppend(header, values);
      assert s == Terminated(header) + Join("\n", values);
      DropTerminated(header, Join("\n", values), |header|);
      assert header[|header|..] == [];
      assert DropLines(s, |header|) == Join("\n", values);
      SplitLinesJoin(values);
    }
  }

  /** Skipping every line of an exported header leaves nothing. */
  lemma DropWholeHeader(header: seq<string>)
    requires header != [] && forall i :: 0 <= i < |header| ==> '\n' !in header[i]
    ensures DropLines(ExportText(header), |header|) == []
  {
    var h := |header|;
    var init, last := header[..h - 1], header[h - 1];
    var s := ExportText(header);
    assert header == init + [last];
    JoinNewlineSplit(init, last);
    assert s == Terminated(init) + last;
    forall i | 0 <= i < |init| ensures '\n' !in init[i] {
      assert init[i] == header[i];
    }
    DropTerminated(init, last, h - 1);
    assert init[h - 1..] == [];
    assert DropLines(s, h - 1) == last;
    ReadLineLast(last);
  }

  /** Converting values that are already in the form `str(float(x))` gives them back. */
  lemma FloatsCanonical(values: seq<string>, toFloat: string -> Option<string>)
    requires forall i :: 0 <= i < |values| ==> toFloat(values[i]) == Some(values[i])
    ensures Floats(values, toFloat) == Some(values)
  {
    var r := Floats(values, toFloat);
    assert r.Some?;
    assert r.value == values;
  }

  /**
   * Exporting a six-item header and the values, then importing, gives the
   * values back, when they are single non-empty lines already in float form.
   */
  lemma ConcentrationRoundTrip(header: seq<string>, values: seq<string>, toFloat: string -> Option<string>)
    requires |header| == 6 && forall i :: 0 <= i < 6 ==> '\n' !in header[i] && '\r' !in header[i]
    requires Importable(values)
    requires forall i :: 0 <= i < |values| ==> toFloat(values[i]) == Some(values[i])
    ensures ConcentrationOf(Some(ExportText(header + values)), toFloat) == Some(values)
  {
    DropHeader(header, values);
    FloatsCanonical(values, toFloat);
  }

  /**
   * Exporting a first line `n`, `n` further header items and the values,
   * then importing, gives the values back (the export after an edit of the
   * time stamps uses `n = 1`).
   */
  lemma TimestampsRoundTrip(n: nat, header: seq<string>, values: seq<string>, toFloat: string -> Option<string>)
    requires |header| == n && forall i :: 0 <= i < n ==> '\n' !in header[i] && '\r' !in header[i]
    requires Importable(values)
    requires forall i :: 0 <= i < |values| ==> toFloat(values[i]) == Some(values[i])
    ensures TimestampsOf(Some(ExportText([NatToString(n)] + header + values)), toFloat) == Some(values)
  {
    var items := [NatToString(n)] + header + values;
    var rest := header + values;
    assert items == [NatToString(n)] + rest;
    NatToStringIsWord(n);
    LineHasNoNewline(NatToString(n));
    if rest == [] {
      assert ExportText(items) == NatToString(n);
      ReadLineLast(NatToString(n));
      ParseNat(n, []);
      assert NatToString(n) + [] == NatToString(n);
      assert values == [];
    } else {
      assert ExportText(items) == NatToString(n) + "\n" + ExportText(rest);
      ReadLineOf(NatToString(n), ExportText(rest));
      ParseNat(n, "\n");
      DropHeader(header, values);
    }
    FloatsCanonical(values, toFloat);
  }

  // ---------------------------------------------------------------- import_data

  /** `list(filter(lambda x: len(x) > 0, xs))`. */
  function NonEmpty(xs: seq<string>): (r: seq<string>)
    ensures forall i :: 0 <= i < |r| ==> r[i] != [] && r[i] in xs
    ensures forall x :: x in xs && x != [] ==> x in r
  {
    if xs == [] then []
    else (if xs[0] == [] then [] else [xs[0]]) + NonEmpty(xs[1..])
  }

  /**
   * The filter works line by line: filtering two runs of lines one after the
   * other gives the two filtered runs in the same order, so row `i` of the
   * table is the `i`-th non-empty pasted line and repeated lines are kept.
   */
  lemma {:induction false} NonEmptyAppend(a: seq<string>, b: seq<string>)
    ensures NonEmpty(a + b) == NonEmpty(a) + NonEmpty(b)
  {
    if a == [] {
      assert a + b == b;
    } else {
      assert (a + b)[0] == a[0];
      assert (a + b)[1..] == a[1..] + b;
      NonEmptyAppend(a[1..], b);
    }
  }

  /** Lines none of which is empty pass the filter unchanged. */
  lemma {:induction false} NonEmptyKeeps(xs: seq<string>)
    requires forall i :: 0 <= i < |xs| ==> xs[i] != []
    ensures NonEmpty(xs) == xs
  {
    if xs != [] {
      NonEmptyKeeps(xs[1..]);
      assert xs == [xs[0]] + xs[1..];
    }
  }

  /** A table row: its number (counting from 1) and its value. */
  datatype Row = Row(index: nat, value: string)

  /** `[[idx + 1, val] for idx, val in enumerate(values)]`. */
  function Numbered(values: seq<string>): (rows: seq<Row>)
    ensures |rows| == |values|
    ensures forall i :: 0 <= i < |rows| ==> rows[i] == Row(i + 1, values[i])
  {
    seq(|values|, i requires 0 <= i < |values| => Row(i + 1, values[i]))
  }

  function RowValues(rows: seq<Row>): (values: seq<string>)
    ensures |values| == |rows| && forall i :: 0 <= i < |rows| ==> values[i] == rows[i].value
  {
    seq(|rows|, i requires 0 <= i < |rows| => rows[i].value)
  }

  /** Numbering a series and reading the values back off the table gives the series. */
  lemma NumberedValues(values: seq<string>)
    ensures RowValues(Numbered(values)) == values
  {
  }

  /** The lines of pasted text, split at every '\n', with the empty ones dropped. */
  function PastedLines(text: string): seq<string> {
    NonEmpty(SplitOn(text, '\n'))
  }

  /** Pasted lines are never empty and carry no '\n', so the export can hold them. */
  lemma PastedLinesShape(text: string)
    ensures forall i :: 0 <= i < |PastedLines(text)| ==> PastedLines(text)[i] != [] && '\n' !in PastedLines(text)[i]
  {
    var pieces := SplitOn(text, '\n');
    forall i | 0 <= i < |PastedLines(text)| ensures '\n' !in PastedLines(text)[i] {
      var x := PastedLines(text)[i];
      assert x in pieces;
      var j :| 0 <= j < |pieces| && pieces[j] == x;
    }
  }
}
