/**
 * What the variable files hold once written, and the two round trips between
 * the dictionary and the files: writing what was just loaded gives back the
 * file, and loading what was just written gives back the values.
 */
module CodecLaws {
  import opened Wrappers
  import opened Text
  import opened Variables
  import opened FileWrites
  import opened VariableCodec

  // ---------------------------------------------------------------- file texts

  /** File A's text: one value per line, then a tail of further lines. */
  function AText(values: seq<string>, tail: string): string {
    Terminated(values) + tail
  }

  /** File C's text: each row's fields joined by single spaces, one row per line. */
  function CText(rows: seq<seq<string>>): string {
    Terminated(RowLines(rows))
  }

  function RowLines(rows: seq<seq<string>>): (r: seq<string>)
    ensures |r| == |rows| && forall i :: 0 <= i < |rows| ==> r[i] == Join(" ", rows[i])
  {
    seq(|rows|, i requires 0 <= i < |rows| => Join(" ", rows[i]))
  }

  /**
   * A value File A stores and reads back unchanged: one line with no
   * surrounding whitespace. A `'\r'` is excluded as well as a `'\n'`, since a
   * text-mode read turns it into a line end.
   */
  predicate LineStorable(v: string) {
    '\n' !in v && '\r' !in v && IsStripped(v)
  }

  /** Fields File C stores and reads back unchanged: every row has its own number of fields, each a single token. */
  predicate RowsStorable(rows: seq<seq<string>>) {
    |rows| == |FileCKeys|
    && (forall r :: 0 <= r < |rows| ==> |rows[r]| == |FileCKeys[r]|)
    && forall r, j :: 0 <= r < |rows| && 0 <= j < |rows[r]| ==> IsWord(rows[r][j])
  }

  /** Every field of File C's rows before `n` has a value to write. */
  predicate WritableRows(vars: Vars, conv: string -> Option<string>, n: nat)
    requires n <= |FileCKeys|
  {
    forall r :: 0 <= r < n ==> AllSome(RowValues(vars, conv, r))
  }

  /** Every File C field has a value to write. */
  predicate WritableC(vars: Vars, conv: string -> Option<string>) {
    WritableRows(vars, conv, |FileCKeys|)
  }

  /** The fields of File C's rows before `n`, when they all exist. */
  function WrittenRows(vars: Vars, conv: string -> Option<string>, n: nat): (rows: seq<seq<string>>)
    requires n <= |FileCKeys| && WritableRows(vars, conv, n)
    ensures |rows| == n && forall r :: 0 <= r < n ==> rows[r] == Values(RowValues(vars, conv, r))
  {
    if n == 0 then [] else WrittenRows(vars, conv, n - 1) + [Values(RowValues(vars, conv, n - 1))]
  }

  /** The fields File C is written with. */
  function CFields(vars: Vars, conv: string -> Option<string>): seq<seq<string>>
    requires WritableC(vars, conv)
  {
    WrittenRows(vars, conv, |FileCKeys|)
  }

  // ---------------------------------------------------------------- places

  lemma PlaceOfA(i: nat)
    requires i < |FileAKeys|
    ensures PlaceOf(FileAKeys[i]) == LineOfA(i)
  {
    PlaceOfKeyAt(LineOfA(i));
  }

  lemma PlaceOfC(r: nat, j: nat)
    requires r < |FileCKeys| && j < |FileCKeys[r]|
    ensures PlaceOf(FileCKeys[r][j]) == FieldOfC(r, j)
  {
    PlaceOfKeyAt(FieldOfC(r, j));
  }

  // ---------------------------------------------------------------- text lemmas

  lemma {:induction false} JoinWordsIsLine(words: seq<string>)
    requires forall i :: 0 <= i < |words| ==> IsWord(words[i])
    ensures '\n' !in Join(" ", words)
  {
    if |words| > 1 {
      JoinWordsIsLine(words[1..]);
    }
  }

  /** Line `r` of File C's text, split into tokens, is row `r`. */
  lemma RowTokensOfCText(rows: seq<seq<string>>, r: nat)
    requires RowsStorable(rows) && r < |rows|
    ensures RowTokens(CText(rows), r) == rows[r]
  {
    var lines := RowLines(rows);
    forall q | 0 <= q < |lines| ensures '\n' !in lines[q] {
      JoinWordsIsLine(rows[q]);
    }
    assert CText(rows) == Terminated(lines) + [];
    NthTerminated(lines, [], r);
    SplitJoin(" ", rows[r], "\n");
  }

  // ---------------------------------------------------------------- File A

  /**
   * `_write_updated_values` on File A: every write is made exactly when the
   * five values and the integer count exist, and the file then holds them
   * one per line, followed by the old file from its seventh line on.
   */
  lemma FileAWritten(previous: string, vars: Vars, conv: string -> Option<string>)
    ensures Emit(FileAPieces(previous, vars, conv)).1 <==> AllSome(FileAValues(vars, conv))
    ensures AllSome(FileAValues(vars, conv)) ==>
      Emit(FileAPieces(previous, vars, conv)).0 == AText(Values(FileAValues(vars, conv)), DropLines(previous, 6))
  {
    var vals := FileAValues(vars, conv);
    var tail := Concat(From(ReadLines(previous), 6));
    EmitAppend(LineWrites(vals), [Some(tail)]);
    EmitLines(vals);
    EmitSnoc([], Some(tail));
    assert [] + [Some(tail)] == [Some(tail)];
    ReadLinesFrom(previous, 6);
  }

  /** A value that does not exist stops the writes: File A keeps only the lines before it, and the old tail is lost. */
  lemma FileAStops(previous: string, vars: Vars, conv: string -> Option<string>, n: nat)
    requires n < 6 && AllSome(FileAValues(vars, conv)[..n]) && FileAValues(vars, conv)[n].None?
    ensures Emit(FileAPieces(previous, vars, conv)) == (Terminated(Values(FileAValues(vars, conv)[..n])), false)
  {
    EmitLinesStop(FileAValues(vars, conv), n, [Some(Concat(From(ReadLines(previous), 6)))]);
  }

  /** Loading a File A whose first six lines hold storable values gives each of its variables its line. */
  lemma LoadAText(values: seq<string>, tail: string, fileC: Option<string>, vars: Vars, i: nat)
    requires |values| == |FileAKeys| && i < |values|
    requires forall q :: 0 <= q < |values| ==> LineStorable(values[q])
    ensures Loaded(Some(AText(values, tail)), fileC, vars, FileAKeys[i]) == Some(values[i])
  {
    PlaceOfA(i);
    NthTerminated(values, tail, i);
    StripPadded(values[i], "\n");
  }

  lemma DropPastEnd(values: seq<string>, i: nat)
    requires forall q :: 0 <= q < |values| ==> '\n' !in values[q]
    requires |values| <= i
    ensures DropLines(Terminated(values), i) == []
  {
    var s := Terminated(values);
    DropTerminated(values, [], |values|);
    assert s + [] == s && values[|values|..] == [];
    DropLinesAdd(s, |values|, i - |values|);
    DropLinesEmpty(i - |values|);
  }

  /** A File A with fewer than six lines gives the variables past its end the empty string. */
  lemma LoadShortA(values: seq<string>, fileC: Option<string>, vars: Vars, i: nat)
    requires forall q :: 0 <= q < |values| ==> '\n' !in values[q]
    requires |values| <= i < |FileAKeys|
    ensures Loaded(Some(Terminated(values)), fileC, vars, FileAKeys[i]) == Some("")
  {
    PlaceOfA(i);
    DropPastEnd(values, i);
  }

  /**
   * Loading File A and writing it back gives the same file, when its first
   * six lines hold storable values and the count is already an integer.
   */
  lemma FileARoundTrip(values: seq<string>, tail: string, fileC: Option<string>, vars: Vars, vars': Vars, conv: string -> Option<string>)
    requires |values| == |FileAKeys|
    requires forall q :: 0 <= q < |values| ==> LineStorable(values[q])
    requires conv(values[5]) == Some(values[5])
    requires forall k :: Lookup(vars', k) == Loaded(Some(AText(values, tail)), fileC, vars, k)
    ensures Emit(FileAPieces(AText(values, tail), vars', conv)) == (AText(values, tail), true)
  {
    forall i | 0 <= i < |FileAKeys| ensures Lookup(vars', FileAKeys[i]) == Some(values[i]) {
      LoadAText(values, tail, fileC, vars, i);
    }
    RewriteA(values, tail, vars', conv);
  }

  /** Writing back values that File A already holds gives the same file. */
  lemma RewriteA(values: seq<string>, tail: string, vars': Vars, conv: string -> Option<string>)
    requires |values| == |FileAKeys|
    requires forall q :: 0 <= q < |values| ==> LineStorable(values[q])
    requires conv(values[5]) == Some(values[5])
    requires forall i :: 0 <= i < |FileAKeys| ==> Lookup(vars', FileAKeys[i]) == Some(values[i])
    ensures Emit(FileAPieces(AText(values, tail), vars', conv)) == (AText(values, tail), true)
  {
    LoadedAValues(values, vars', conv);
    FileAWritten(AText(values, tail), vars', conv);
    forall q | 0 <= q < |values| ensures '\n' !in values[q] {
    }
    DropTerminated(values, tail, 6);
    assert values[6..] == [];
    assert Terminated(values[6..]) == [];
    assert DropLines(AText(values, tail), 6) == tail;
  }

  lemma LoadedAValues(values: seq<string>, vars': Vars, conv: string -> Option<string>)
    requires |values| == |FileAKeys|
    requires conv(values[5]) == Some(values[5])
    requires forall i :: 0 <= i < |FileAKeys| ==> Lookup(vars', FileAKeys[i]) == Some(values[i])
    ensures AllSome(FileAValues(vars', conv)) && Values(FileAValues(vars', conv)) == values
  {
    var vals := FileAValues(vars', conv);
    assert Lookup(vars', FileAKeys[0]) == Some(values[0]);
    assert Lookup(vars', FileAKeys[1]) == Some(values[1]);
    assert Lookup(vars', FileAKeys[2]) == Some(values[2]);
    assert Lookup(vars', FileAKeys[3]) == Some(values[3]);
    assert Lookup(vars', FileAKeys[4]) == Some(values[4]);
    assert Lookup(vars', FileAKeys[5]) == Some(values[5]);
    assert vals == [Some(values[0]), Some(values[1]), Some(values[2]), Some(values[3]), Some(values[4]), Some(values[5])];
    assert Values(vals) == values;
  }

  /** Writing File A and loading it back gives its six variables the values written. */
  lemma FileAWriteLoad(previous: string, vars: Vars, conv: string -> Option<string>, fileC: Option<string>, vars0: Vars, i: nat)
    requires AllSome(FileAValues(vars, conv))
    requires forall q :: 0 <= q < 6 ==> LineStorable(FileAValues(vars, conv)[q].value)
    requires i < |FileAKeys|
    ensures Emit(FileAPieces(previous, vars, conv)).1
    ensures Loaded(Some(Emit(FileAPieces(previous, vars, conv)).0), fileC, vars0, FileAKeys[i]) == FileAValues(vars, conv)[i]
  {
    var vals := Values(FileAValues(vars, conv));
    FileAWritten(previous, vars, conv);
    LoadAText(vals, DropLines(previous, 6), fileC, vars0, i);
  }

  // ---------------------------------------------------------------- File C

  /** The writes of the rows before `n` are made exactly when their fields exist, and leave one line per row. */
  lemma {:induction false} RowsWritten(vars: Vars, conv: string -> Option<string>, n: nat)
    requires n <= |FileCKeys|
    ensures Emit(RowsPieces(vars, conv, n)).1 <==> WritableRows(vars, conv, n)
    ensures WritableRows(vars, conv, n) ==>
      Emit(RowsPieces(vars, conv, n)).0 == CText(WrittenRows(vars, conv, n))
  {
    if n > 0 {
      RowsWritten(vars, conv, n - 1);
      RowsPiecesNext(vars, conv, n - 1);
      var row := RowValues(vars, conv, n - 1);
      assert WritableRows(vars, conv, n) <==> WritableRows(vars, conv, n - 1) && AllSome(row);
      if WritableRows(vars, conv, n) {
        RowWritten(RowsPieces(vars, conv, n - 1), row, WrittenRows(vars, conv, n - 1));
        assert WrittenRows(vars, conv, n) == WrittenRows(vars, conv, n - 1) + [Values(row)];
      } else {
        EmitAppend(RowsPieces(vars, conv, n - 1), FieldWrites(row));
        EmitFields(row);
      }
    }
  }

  /** Writing one more row after rows written in full adds that row's line. */
  lemma RowWritten(before: seq<Option<string>>, row: seq<Option<string>>, rows: seq<seq<string>>)
    requires row != [] && AllSome(row)
    requires Emit(before).1 && Emit(before).0 == CText(rows)
    ensures Emit(before + FieldWrites(row)).1
    ensures Emit(before + FieldWrites(row)).0 == CText(rows + [Values(row)])
  {
    EmitAppend(before, FieldWrites(row));
    EmitFields(row);
    CTextSnoc(rows, Values(row));
  }

  lemma CTextSnoc(rows: seq<seq<string>>, row: seq<string>)
    ensures CText(rows + [row]) == CText(rows) + Join(" ", row) + "\n"
  {
    assert RowLines(rows + [row]) == RowLines(rows) + [Join(" ", row)];
    TerminatedAppend(RowLines(rows), [Join(" ", row)]);
  }

  /**
   * `_write_updated_values` on File C: every write is made exactly when every
   * field exists, and the file then holds exactly its five rows.
   */
  lemma FileCWritten(vars: Vars, conv: string -> Option<string>)
    ensures Emit(RowsPieces(vars, conv, |FileCKeys|)).1 <==> WritableC(vars, conv)
    ensures WritableC(vars, conv) ==> Emit(RowsPieces(vars, conv, |FileCKeys|)).0 == CText(CFields(vars, conv))
  {
    RowsWritten(vars, conv, |FileCKeys|);
  }

  /** Loading a File C that holds storable rows reaches its end, and each field's variable takes its token. */
  lemma LoadCText(rows: seq<seq<string>>, vars: Vars)
    requires RowsStorable(rows)
    ensures RowsReached(CText(rows), |FileCKeys|)
    ensures forall r, j :: 0 <= r < |rows| && 0 <= j < |rows[r]| ==> LoadedC(CText(rows), vars, FileCKeys[r][j]) == Some(rows[r][j])
  {
    forall r | 0 <= r < |rows| ensures RowTokens(CText(rows), r) == rows[r] {
      RowTokensOfCText(rows, r);
    }
    forall r, j | 0 <= r < |rows| && 0 <= j < |rows[r]|
      ensures LoadedC(CText(rows), vars, FileCKeys[r][j]) == Some(rows[r][j])
    {
      PlaceOfC(r, j);
    }
  }

  /** Writing File C and loading it back gives every File C variable the text it was written with. */
  lemma FileCWriteLoad(vars: Vars, conv: string -> Option<string>, vars0: Vars)
    requires WritableC(vars, conv) && RowsStorable(CFields(vars, conv))
    ensures Emit(RowsPieces(vars, conv, |FileCKeys|)).1
    ensures RowsReached(Emit(RowsPieces(vars, conv, |FileCKeys|)).0, |FileCKeys|)
    ensures forall r, j :: 0 <= r < |FileCKeys| && 0 <= j < |FileCKeys[r]| ==>
      LoadedC(Emit(RowsPieces(vars, conv, |FileCKeys|)).0, vars0, FileCKeys[r][j]) == RowValues(vars, conv, r)[j]
  {
    FileCWritten(vars, conv);
    LoadCText(CFields(vars, conv), vars0);
  }

  /**
   * Loading File C and writing it back gives the same file, when it holds
   * storable rows and the first row's fields are already integers.
   */
  lemma FileCRoundTrip(rows: seq<seq<string>>, vars: Vars, vars': Vars, conv: string -> Option<string>)
    requires RowsStorable(rows)
    requires forall j :: 0 <= j < |rows[0]| ==> conv(rows[0][j]) == Some(rows[0][j])
    requires forall k :: Lookup(vars', k) == LoadedC(CText(rows), vars, k)
    ensures Emit(RowsPieces(vars', conv, |FileCKeys|)) == (CText(rows), true)
  {
    LoadCText(rows, vars);
    forall r | 0 <= r < |FileCKeys| ensures AllSome(RowValues(vars', conv, r)) && Values(RowValues(vars', conv, r)) == rows[r] {
      forall j | 0 <= j < |FileCKeys[r]| ensures RowValues(vars', conv, r)[j] == Some(rows[r][j]) {
      }
    }
    assert CFields(vars', conv) == rows;
    FileCWritten(vars', conv);
  }
}
