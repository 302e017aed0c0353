/**
 * The PEST run record `test.rec`: its lines, stripped of their '\n', are
 * grouped into sections that open at each line holding `----->` (the opening
 * line belongs to its own section), and the results are shown only when
 * both the K-L information statistics and the parameter sections are there.
 */
module PestRecord {
  import opened Wrappers
  import opened Text
  import opened Sections

  const Arrow: string := "----->"
  const Statistics: string := "K-L information statistics ----->"
  const Parameters: string := "Parameters ----->"

  /** The first loop: every line, in place, without its '\n'. */
  method StripBreaks(lines: seq<string>) returns (r: seq<string>)
    ensures |r| == |lines|
    ensures forall i :: 0 <= i < |r| ==> '\n' !in r[i] && r[i] == Remove(lines[i], '\n')
  {
    r := lines;
    for i := 0 to |r|
      invariant |r| == |lines|
      invariant forall j :: 0 <= j < i ==> r[j] == Remove(lines[j], '\n')
      invariant forall j :: i <= j < |r| ==> r[j] == lines[j]
    {
      r := r[i := Remove(r[i], '\n')];
    }
  }

  /**
   * One pass of the grouping loop: a line holding the arrow opens the
   * section it names; then, whenever a section is open, the line is added to
   * it. Unlike the control file, the opening line is kept.
   */
  function RecordStep(g: Grouping, line: string): Grouping {
    var curr := if Contains(line, Arrow) then Some(Remove(line, '\n')) else g.curr;
    if curr.Some? && curr.value != [] then Grouping(curr, Append(g.store, curr.value, Remove(line, '\n')))
    else Grouping(curr, g.store)
  }

  function GroupRecord(lines: seq<string>): (g: Grouping)
    ensures Unique(g.store)
  {
    if lines == [] then Grouping(None, [])
    else RecordStep(GroupRecord(lines[..|lines| - 1]), lines[|lines| - 1])
  }

  lemma GroupRecordSnoc(front: seq<string>, line: string)
    ensures GroupRecord(front + [line]) == RecordStep(GroupRecord(front), line)
  {
    assert (front + [line])[..|front|] == front;
  }

  method ReadRecord(lines: seq<string>) returns (store: Store)
    ensures store == GroupRecord(lines).store
  {
    var curr: Option<string> := None;
    store := [];
    for i := 0 to |lines|
      invariant Grouping(curr, store) == GroupRecord(lines[..i])
    {
      assert lines[..i + 1] == lines[..i] + [lines[i]];
      GroupRecordSnoc(lines[..i], lines[i]);
      var line := lines[i];
      if Contains(line, Arrow) {
        curr := Some(Remove(line, '\n'));
      }
      if curr.Some? && curr.value != [] {
        store := Append(store, curr.value, Remove(line, '\n'));
      }
    }
    assert lines[..|lines|] == lines;
  }

  /** Whether the results are shown: both sections read have lines. */
  predicate ShowsResults(store: Store) {
    Get(store, Statistics) != [] && Get(store, Parameters) != []
  }

  /** The two texts shown, or `None` for the error popup. */
  function Results(store: Store): (r: Option<(string, string)>)
    ensures r.Some? <==> ShowsResults(store)
  {
    if ShowsResults(store) then Some((Join("\n", Get(store, Statistics)), Join("\n", Get(store, Parameters))))
    else None
  }

  /**
   * For a line `k` holding the arrow, in a record whose lines have no '\n':
   * `k`'s section has lines exactly when `k` is one of the lines, and then
   * the section starts with `k` itself.
   */
  lemma {:induction false} SectionPresent(lines: seq<string>, k: string)
    requires forall i :: 0 <= i < |lines| ==> '\n' !in lines[i]
    requires Contains(k, Arrow)
    ensures Get(GroupRecord(lines).store, k) != [] <==> k in lines
    ensures Get(GroupRecord(lines).store, k) != [] ==> Get(GroupRecord(lines).store, k)[0] == k
    ensures GroupRecord(lines).curr == Some(k) ==> Get(GroupRecord(lines).store, k) != []
  {
    if lines != [] {
      var init, line := lines[..|lines| - 1], lines[|lines| - 1];
      assert lines == init + [line];
      GroupRecordSnoc(init, line);
      SectionPresent(init, k);
      var g := GroupRecord(init);
      RemoveBreak(line);
      var curr := if Contains(line, Arrow) then Some(line) else g.curr;
      assert k != [];
      assert k in lines <==> k in init || k == line;
      if curr.Some? && curr.value != [] {
        GetAppend(g.store, curr.value, line, k);
      }
    }
  }

  /** The results are shown exactly when both marker lines occur in the record. */
  lemma ResultsShown(lines: seq<string>)
    requires forall i :: 0 <= i < |lines| ==> '\n' !in lines[i]
    ensures ShowsResults(GroupRecord(lines).store) <==> Statistics in lines && Parameters in lines
    ensures ShowsResults(GroupRecord(lines).store) ==>
      Get(GroupRecord(lines).store, Statistics)[0] == Statistics && Get(GroupRecord(lines).store, Parameters)[0] == Parameters
  {
    MarkersHoldArrow();
    SectionPresent(lines, Statistics);
    SectionPresent(lines, Parameters);
  }

  lemma MarkersHoldArrow()
    ensures Contains(Statistics, Arrow) && Contains(Parameters, Arrow)
  {
    assert Statistics == "K-L information statistics " + Arrow;
    ContainsSuffix("K-L information statistics ", Arrow);
    assert Parameters == "Parameters " + Arrow;
    ContainsSuffix("Parameters ", Arrow);
  }

  /** The record's lines after the first loop: each line `readlines()` gives, without its '\n'. */
  function Stripped(rec: string): (lines: seq<string>)
    ensures |lines| == |ReadLines(rec)|
  {
    var raw := ReadLines(rec);
    seq(|raw|, i requires 0 <= i < |raw| => Remove(raw[i], '\n'))
  }

  /** What the record `rec` shows: the two sections' texts, or `None` for the error popup. */
  function RecordResults(rec: string): Option<(string, string)> {
    Results(GroupRecord(Stripped(rec)).store)
  }

  /**
   * Reading `test.rec` and deciding what to show: the results are shown
   * exactly when both marker lines occur in the record, and each text shown
   * starts with its marker line.
   */
  method ReadResults(rec: string) returns (r: Option<(string, string)>)
    ensures r == RecordResults(rec)
    ensures r.Some? <==> Statistics in Stripped(rec) && Parameters in Stripped(rec)
    ensures r.Some? ==>
      Get(GroupRecord(Stripped(rec)).store, Statistics)[0] == Statistics &&
      Get(GroupRecord(Stripped(rec)).store, Parameters)[0] == Parameters
  {
    var lines := StripBreaks(ReadLines(rec));
    assert lines == Stripped(rec);
    var store := ReadRecord(lines);
    ResultsShown(lines);
    r := Results(store);
  }
}
