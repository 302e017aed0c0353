/**
 * The variable-file codec: how the variable dictionary is filled from File A
 * (one value per line, then a tail the codec never touches) and File C (five
 * rows of whitespace-separated fields), and how it is written back to them.
 *
 * Values are text tokens. `conv` stands for `str(int(float(x)))`, which the
 * model does not compute: `None` where Python raises.
 */
module VariableCodec {
  import opened Wrappers
  import opened Text
  import opened Variables
  import opened FileWrites
  import opened Collections

  /** The variable dictionary; `None` is Python's `None` (a variable with no value yet). */
  type Vars = map<Key, Option<string>>

  /** A variable's value; `None` also for a variable the dictionary lacks. */
  function Lookup(vars: Vars, k: Key): Option<string> {
    if k in vars then vars[k] else None
  }

  // ---------------------------------------------------------------- loading

  /** `readline().strip()` for the `i`-th line of File A: `""` past the end of the file. */
  function LineValue(content: string, i: nat): string {
    Strip(NthLine(content, i))
  }

  /** `readline().split()` for the `r`-th line of File C. */
  function RowTokens(content: string, r: nat): seq<string> {
    Split(NthLine(content, r))
  }

  /** Every row of File C before row `r` has a token for each of its fields. */
  predicate RowsReached(content: string, r: nat)
    requires r <= |FileCKeys|
  {
    forall q :: 0 <= q < r ==> |RowTokens(content, q)| >= |FileCKeys[q]|
  }

  /**
   * What loading File C leaves in variable `k`: a File C variable takes the
   * token at its row and column when every earlier row had all of its tokens
   * and its own row reaches its column. The first missing token raises
   * IndexError and ends the load, after the fields before it were assigned.
   * Surplus tokens are ignored, and File A's variables are not touched.
   */
  function LoadedC(c: string, vars: Vars, k: Key): Option<string> {
    match PlaceOf(k)
    case LineOfA(_) => Lookup(vars, k)
    case FieldOfC(r, j) =>
      if r < |FileCKeys| && RowsReached(c, r) && j < |RowTokens(c, r)| then Some(RowTokens(c, r)[j])
      else Lookup(vars, k)
  }

  /**
   * What `_inplace_update_variable_dictionary` leaves in variable `k`, given
   * the texts of File A and File C (`None` for a file that cannot be opened):
   * nothing changes without File A; File A's six variables take their lines;
   * then File C is loaded when it can be opened.
   */
  function Loaded(fileA: Option<string>, fileC: Option<string>, vars: Vars, k: Key): Option<string> {
    if fileA.None? then Lookup(vars, k)
    else
      match PlaceOf(k)
      case LineOfA(i) => Some(LineValue(fileA.value, i))
      case FieldOfC(_, _) => if fileC.Some? then LoadedC(fileC.value, vars, k) else Lookup(vars, k)
  }

  /** The load runs to its end: both files open and every File C row has all its tokens. */
  predicate LoadCompletes(fileA: Option<string>, fileC: Option<string>) {
    fileA.Some? && fileC.Some? && RowsReached(fileC.value, |FileCKeys|)
  }

  /** The six values File A's first lines give, in line order. */
  function ALines(a: string): (vals: seq<string>)
    ensures |vals| == |FileAKeys| && forall l :: 0 <= l < |FileAKeys| ==> vals[l] == LineValue(a, l)
  {
    seq(|FileAKeys|, l requires 0 <= l < |FileAKeys| => LineValue(a, l))
  }

  /** The dictionary once the first `i` of the line values `vals` are assigned to their variables. */
  predicate AFilled(vals: seq<string>, vars: Vars, r: Vars, i: nat) {
    forall k :: Lookup(r, k) == AEntry(vals, vars, k, i)
  }

  /** Variable `k` once the first `i` line values are assigned. */
  function AEntry(vals: seq<string>, vars: Vars, k: Key, i: nat): Option<string> {
    match PlaceOf(k)
    case LineOfA(l) => if l < i && l < |vals| then Some(vals[l]) else Lookup(vars, k)
    case FieldOfC(_, _) => Lookup(vars, k)
  }

  /** The tokens of File C's five rows. */
  function CRows(c: string): (rows: seq<seq<string>>)
    ensures |rows| == |FileCKeys| && forall q :: 0 <= q < |FileCKeys| ==> rows[q] == RowTokens(c, q)
  {
    seq(|FileCKeys|, q requires 0 <= q < |FileCKeys| => RowTokens(c, q))
  }

  /** The dictionary once the row tokens `rows` before `(row, col)` in reading order are assigned. */
  predicate CFilled(rows: seq<seq<string>>, vars: Vars, r: Vars, row: nat, col: nat) {
    forall k :: Lookup(r, k) == CEntry(rows, vars, k, row, col)
  }

  /** Variable `k` once the File C fields before `(row, col)` are assigned. */
  function CEntry(rows: seq<seq<string>>, vars: Vars, k: Key, row: nat, col: nat): Option<string> {
    match PlaceOf(k)
    case LineOfA(_) => Lookup(vars, k)
    case FieldOfC(q, j) =>
      if (q < row || (q == row && j < col)) && q < |rows| && j < |rows[q]| then Some(rows[q][j])
      else Lookup(vars, k)
  }

  /** Six `readline().strip()` calls on File A, each assigned to its variable. */
  method LoadFileA(a: string, vars: Vars) returns (r: Vars)
    ensures AFilled(ALines(a), vars, r, |FileAKeys|)
    ensures vars.Keys <= r.Keys
  {
    r := vars;
    var rest := a;
    for i := 0 to |FileAKeys|
      invariant rest == DropLines(a, i)
      invariant vars.Keys <= r.Keys
      invariant AFilled(ALines(a), vars, r, i)
    {
      var line := ReadLine(rest).0;
      LineStep(a, vars, r, i, rest);
      rest := ReadLine(rest).1;
      r := r[FileAKeys[i] := Some(Strip(line))];
    }
  }

  /** One `readline().strip()` of File A, `rest` being what is left to read. */
  lemma LineStep(a: string, vars: Vars, r: Vars, i: nat, rest: string)
    requires i < |FileAKeys| && rest == DropLines(a, i) && AFilled(ALines(a), vars, r, i)
    ensures ReadLine(rest).1 == DropLines(a, i + 1)
    ensures AFilled(ALines(a), vars, r[FileAKeys[i] := Some(Strip(ReadLine(rest).0))], i + 1)
  {
    LineAt(a, i, rest);
    AFilledStep(ALines(a), vars, r, i);
  }

  lemma LineAt(a: string, i: nat, rest: string)
    requires i < |FileAKeys| && rest == DropLines(a, i)
    ensures Strip(ReadLine(rest).0) == ALines(a)[i]
    ensures ReadLine(rest).1 == DropLines(a, i + 1)
  {
    assert Strip(ReadLine(rest).0) == LineValue(a, i);
  }

  lemma AFilledStep(vals: seq<string>, vars: Vars, r: Vars, i: nat)
    requires i < |FileAKeys| == |vals| && AFilled(vals, vars, r, i)
    ensures AFilled(vals, vars, r[FileAKeys[i] := Some(vals[i])], i + 1)
  {
    var key := FileAKeys[i];
    var r' := r[key := Some(vals[i])];
    PlaceOfKeyAt(LineOfA(i));
    forall k ensures Lookup(r', k) == AEntry(vals, vars, k, i + 1) {
      if k != key {
        KeyAtPlaceOf(k);
        assert PlaceOf(k) != LineOfA(i);
        assert Lookup(r', k) == Lookup(r, k) == AEntry(vals, vars, k, i);
      }
    }
  }

  lemma CFilledStep(rows: seq<seq<string>>, vars: Vars, r: Vars, row: nat, col: nat)
    requires row < |FileCKeys| == |rows| && col < |FileCKeys[row]| && col < |rows[row]|
    requires CFilled(rows, vars, r, row, col)
    ensures CFilled(rows, vars, r[FileCKeys[row][col] := Some(rows[row][col])], row, col + 1)
  {
    var key := FileCKeys[row][col];
    var r' := r[key := Some(rows[row][col])];
    PlaceOfKeyAt(FieldOfC(row, col));
    forall k ensures Lookup(r', k) == CEntry(rows, vars, k, row, col + 1) {
      if k != key {
        KeyAtPlaceOf(k);
        assert PlaceOf(k) != FieldOfC(row, col);
        assert Lookup(r', k) == Lookup(r, k) == CEntry(rows, vars, k, row, col);
      }
    }
  }

  lemma CFilledNextRow(rows: seq<seq<string>>, vars: Vars, r: Vars, row: nat)
    requires row < |FileCKeys| && CFilled(rows, vars, r, row, |FileCKeys[row]|)
    ensures CFilled(rows, vars, r, row + 1, 0)
  {
    forall k ensures Lookup(r, k) == CEntry(rows, vars, k, row + 1, 0) {
      KeyAtPlaceOf(k);
      assert Lookup(r, k) == CEntry(rows, vars, k, row, |FileCKeys[row]|);
    }
  }

  /** Before the first row is read, every variable has its old value. */
  lemma NothingFilled(rows: seq<seq<string>>, vars: Vars)
    ensures CFilled(rows, vars, vars, 0, 0)
  {
    forall k ensures Lookup(vars, k) == CEntry(rows, vars, k, 0, 0) {
      match PlaceOf(k)
      case LineOfA(_) =>
      case FieldOfC(q, j) =>
    }
  }

  /** Where the load of File C stops, the dictionary is as `LoadedC` says. */
  lemma CFilledLoaded(c: string, vars: Vars, r: Vars, row: nat, col: nat)
    requires row <= |FileCKeys| && RowsReached(c, row) && CFilled(CRows(c), vars, r, row, col)
    requires row == |FileCKeys| || col == |RowTokens(c, row)| < |FileCKeys[row]|
    ensures forall k :: Lookup(r, k) == LoadedC(c, vars, k)
  {
    forall k ensures Lookup(r, k) == LoadedC(c, vars, k) {
      KeyAtPlaceOf(k);
      match PlaceOf(k)
      case LineOfA(_) =>
      case FieldOfC(q, j) =>
        if q > row {
          assert !RowsReached(c, q);
        }
    }
  }

  /**
   * Five `readline().split()` rows of File C, assigned field by field; the
   * first missing token raises IndexError (`complete` false) and ends the
   * load with the fields before it assigned.
   */
  method LoadFileC(c: string, vars: Vars) returns (r: Vars, complete: bool)
    ensures forall k :: Lookup(r, k) == LoadedC(c, vars, k)
    ensures vars.Keys <= r.Keys
    ensures complete <==> RowsReached(c, |FileCKeys|)
  {
    r := vars;
    var rest := c;
    var row := 0;
    NothingFilled(CRows(c), vars);
    while row < |FileCKeys|
      invariant row <= |FileCKeys|
      invariant rest == DropLines(c, row)
      invariant RowsReached(c, row)
      invariant vars.Keys <= r.Keys
      invariant CFilled(CRows(c), vars, r, row, 0)
    {
      var ok;
      r, rest, ok := LoadRow(c, vars, r, row, rest);
      if !ok {
        return r, false;
      }
      row := row + 1;
    }
    CFilledLoaded(c, vars, r, row, 0);
    complete := true;
  }

  /**
   * One `readline().split()` of File C, `rest` being what is left to read,
   * and its tokens assigned field by field until one is missing.
   */
  method LoadRow(c: string, vars: Vars, r: Vars, row: nat, rest: string) returns (r': Vars, rest': string, ok: bool)
    requires row < |FileCKeys| && rest == DropLines(c, row)
    requires RowsReached(c, row) && CFilled(CRows(c), vars, r, row, 0)
    ensures rest' == DropLines(c, row + 1)
    ensures r.Keys <= r'.Keys
    ensures ok ==> RowsReached(c, row + 1) && CFilled(CRows(c), vars, r', row + 1, 0)
    ensures !ok ==> !RowsReached(c, |FileCKeys|)
    ensures !ok ==> forall k :: Lookup(r', k) == LoadedC(c, vars, k)
  {
    var tokens := Split(ReadLine(rest).0);
    rest' := ReadLine(rest).1;
    RowStart(c, row, rest);
    r' := r;
    var col := 0;
    ghost var rows := CRows(c);
    while col < |FileCKeys[row]|
      invariant col <= |FileCKeys[row]| && col <= |tokens|
      invariant r.Keys <= r'.Keys
      invariant CFilled(rows, vars, r', row, col)
    {
      if col >= |tokens| {
        RowShort(c, vars, r', row, col);
        return r', rest', false;
      }
      CFilledStep(rows, vars, r', row, col);
      r' := r'[FileCKeys[row][col] := Some(tokens[col])];
      col := col + 1;
    }
    CFilledNextRow(rows, vars, r', row);
    ok := true;
  }

  /** The row `readline().split()` gives, `rest` being what is left to read. */
  lemma RowStart(c: string, row: nat, rest: string)
    requires row < |FileCKeys| && rest == DropLines(c, row)
    ensures Split(ReadLine(rest).0) == CRows(c)[row] && ReadLine(rest).1 == DropLines(c, row + 1)
  {
  }

  /** A row short of tokens raises: the load ends with the fields before the missing one assigned. */
  lemma RowShort(c: string, vars: Vars, r: Vars, row: nat, col: nat)
    requires row < |FileCKeys| && RowsReached(c, row) && CFilled(CRows(c), vars, r, row, col)
    requires col == |CRows(c)[row]| < |FileCKeys[row]|
    ensures !RowsReached(c, |FileCKeys|)
    ensures forall k :: Lookup(r, k) == LoadedC(c, vars, k)
  {
    CFilledLoaded(c, vars, r, row, col);
  }

  /**
   * `_inplace_update_variable_dictionary`: File A's six lines, then File
   * C's five rows. `raised` reports the exception the wrapper swallows: a
   * file that cannot be opened, or a File C row short of tokens.
   */
  method UpdateVariableDictionary(fileA: Option<string>, fileC: Option<string>, vars: Vars)
    returns (r: Vars, raised: bool)
    ensures forall k :: Lookup(r, k) == Loaded(fileA, fileC, vars, k)
    ensures vars.Keys <= r.Keys
    ensures raised <==> !LoadCompletes(fileA, fileC)
  {
    if fileA.None? {
      return vars, true;
    }
    r := LoadFileA(fileA.value, vars);
    LoadedAfterA(fileA.value, fileC, vars, r);
    if fileC.None? {
      return r, true;
    }
    var complete;
    r, complete := LoadFileC(fileC.value, r);
    raised := !complete;
  }

  /** Once File A's six lines are in, File C (if it opens) is loaded on top of them. */
  lemma LoadedAfterA(a: string, c: Option<string>, vars: Vars, r: Vars)
    requires AFilled(ALines(a), vars, r, |FileAKeys|)
    ensures forall k :: (if c.Some? then LoadedC(c.value, r, k) else Lookup(r, k)) == Loaded(Some(a), c, vars, k)
  {
    forall k ensures (if c.Some? then LoadedC(c.value, r, k) else Lookup(r, k)) == Loaded(Some(a), c, vars, k) {
      KeyAtPlaceOf(k);
      assert Lookup(r, k) == AEntry(ALines(a), vars, k, |FileAKeys|);
    }
  }

  // ---------------------------------------------------------------- writing

  /** The values `_write_updated_values` puts on File A's first six lines: five values, then the count as an integer. */
  function FileAValues(vars: Vars, conv: string -> Option<string>): seq<Option<string>> {
    [
      Lookup(vars, MesoVelocity),
      Lookup(vars, MacroVelocity),
      Lookup(vars, TransferMicro),
      Lookup(vars, TransferMacro),
      Lookup(vars, Dispersivity),
      Bind(Lookup(vars, ObservationCount), conv)
    ]
  }

  /** What `_write_updated_values` writes to File A: one line per value, then the old lines from the seventh on. */
  function FileAPieces(previous: string, vars: Vars, conv: string -> Option<string>): seq<Option<string>> {
    LineWrites(FileAValues(vars, conv)) + [Some(Concat(From(ReadLines(previous), 6)))]
  }

  /** The text of field `j` of File C row `r`: the integer rendering on the first row, the value itself elsewhere. */
  function FieldText(vars: Vars, conv: string -> Option<string>, r: nat, j: nat): Option<string>
    requires r < |FileCKeys| && j < |FileCKeys[r]|
  {
    var x := Lookup(vars, FileCKeys[r][j]);
    if r == 0 then Bind(x, conv) else x
  }

  /** The fields of File C row `r`. */
  function RowValues(vars: Vars, conv: string -> Option<string>, r: nat): seq<Option<string>>
    requires r < |FileCKeys|
  {
    seq(|FileCKeys[r]|, j requires 0 <= j < |FileCKeys[r]| => FieldText(vars, conv, r, j))
  }

  /** The writes of File C row `r`. */
  function RowPieces(vars: Vars, conv: string -> Option<string>, r: nat): seq<Option<string>>
    requires r < |FileCKeys|
  {
    FieldWrites(RowValues(vars, conv, r))
  }

  /** The writes of File C's rows before `r`. */
  function RowsPieces(vars: Vars, conv: string -> Option<string>, r: nat): seq<Option<string>>
    requires r <= |FileCKeys|
  {
    if r == 0 then [] else RowsPieces(vars, conv, r - 1) + RowPieces(vars, conv, r - 1)
  }

  /**
   * `_write_updated_values` on File A: `previous` is the file's text read first
   * with `readlines()`. Returns the text left on file and whether every
   * write was made.
   */
  method WriteFileA(previous: string, vars: Vars, conv: string -> Option<string>) returns (text: string, complete: bool)
    ensures (text, complete) == Emit(FileAPieces(previous, vars, conv))
  {
    var pieces := FileAPieces(previous, vars, conv);
    text := [];
    for i := 0 to 5
      invariant (text, true) == Emit(pieces[..i])
    {
      assert pieces[..i + 1] == pieces[..i] + [pieces[i]];
      var x := Lookup(vars, FileAKeys[i]);
      FileAPieceAt(previous, vars, conv, i);
      if x.None? {
        EmitAppend(pieces[..i + 1], pieces[i + 1..]);
        assert pieces[..i + 1] + pieces[i + 1..] == pieces;
        return text, false;
      }
      text := text + (x.value + "\n");
    }
    assert pieces[..6] == pieces[..5] + [pieces[5]];
    assert pieces == pieces[..6] + [pieces[6]];
    FileAPieceAt(previous, vars, conv, 5);
    FileAPieceAt(previous, vars, conv, 6);
    var count := Bind(Lookup(vars, ObservationCount), conv);
    if count.None? {
      EmitAppend(pieces[..6], [pieces[6]]);
      return text, false;
    }
    text := text + (count.value + "\n");
    text := text + Concat(From(ReadLines(previous), 6));
    complete := true;
  }

  /** The File A writes by position: five values, the count, then the old lines from the seventh on. */
  lemma FileAPieceAt(previous: string, vars: Vars, conv: string -> Option<string>, i: nat)
    requires i <= 6
    ensures |FileAPieces(previous, vars, conv)| == 7
    ensures i < 5 ==> FileAPieces(previous, vars, conv)[i] == Suffix(Lookup(vars, FileAKeys[i]), "\n")
    ensures i == 5 ==> FileAPieces(previous, vars, conv)[i] == Suffix(Bind(Lookup(vars, ObservationCount), conv), "\n")
    ensures i == 6 ==> FileAPieces(previous, vars, conv)[i] == Some(Concat(From(ReadLines(previous), 6)))
  {
    var values := FileAValues(vars, conv);
    assert |LineWrites(values)| == 6;
    if i < 6 {
      assert FileAPieces(previous, vars, conv)[i] == LineWrites(values)[i];
    }
  }

  /** One row of File C written field by field, after the earlier rows left `text` on file. */
  method WriteRow(vars: Vars, conv: string -> Option<string>, r: nat, text: string) returns (text': string, ok: bool)
    requires r < |FileCKeys| && Emit(RowsPieces(vars, conv, r)) == (text, true)
    ensures Emit(RowsPieces(vars, conv, r + 1)) == (text', ok)
  {
    var row := RowPieces(vars, conv, r);
    var n := |FileCKeys[r]|;
    RowPieceAt(vars, conv, r, 0);
    ghost var written := RowsPieces(vars, conv, r);
    text' := text;
    for j := 0 to n
      invariant written == RowsPieces(vars, conv, r) + row[..j]
      invariant (text', true) == Emit(written)
    {
      var x := FieldText(vars, conv, r, j);
      var sep := if j == n - 1 then "\n" else " ";
      RowPieceAt(vars, conv, r, j);
      EmitSnoc(written, row[j]);
      SnocTake(RowsPieces(vars, conv, r), row, j);
      written := written + [row[j]];
      if x.None? {
        assert Emit(written) == (text', false);
        TakeDrop(row, j + 1);
        AppendAssoc(RowsPieces(vars, conv, r), row[..j + 1], row[j + 1..]);
        RowsPiecesNext(vars, conv, r);
        EmitFailed(written, row[j + 1..]);
        return text', false;
      }
      text' := text' + (x.value + sep);
    }
    assert row[..n] == row;
    ok := true;
  }


  lemma RowPieceAt(vars: Vars, conv: string -> Option<string>, r: nat, j: nat)
    requires r < |FileCKeys| && j < |FileCKeys[r]|
    ensures |RowPieces(vars, conv, r)| == |FileCKeys[r]|
    ensures RowPieces(vars, conv, r)[j] == Suffix(FieldText(vars, conv, r, j), if j == |FileCKeys[r]| - 1 then "\n" else " ")
  {
  }

  lemma RowsPiecesNext(vars: Vars, conv: string -> Option<string>, r: nat)
    requires r < |FileCKeys|
    ensures RowsPieces(vars, conv, r + 1) == RowsPieces(vars, conv, r) + RowPieces(vars, conv, r)
  {
  }




  /** `_write_updated_values` on File C: the text left on file and whether every write was made. */
  method WriteFileC(vars: Vars, conv: string -> Option<string>) returns (text: string, complete: bool)
    ensures (text, complete) == Emit(RowsPieces(vars, conv, |FileCKeys|))
  {
    text := [];
    for r := 0 to |FileCKeys|
      invariant (text, true) == Emit(RowsPieces(vars, conv, r))
    {
      var ok;
      text, ok := WriteRow(vars, conv, r, text);
      if !ok {
        RowsPiecesPrefix(vars, conv, r + 1, |FileCKeys|);
        EmitAppend(RowsPieces(vars, conv, r + 1), RowsPieces(vars, conv, |FileCKeys|)[|RowsPieces(vars, conv, r + 1)|..]);
        return text, false;
      }
    }
    complete := true;
  }

  /** The writes of the first rows are a prefix of the writes of more rows. */
  lemma {:induction false} RowsPiecesPrefix(vars: Vars, conv: string -> Option<string>, r: nat, s: nat)
    requires r <= s <= |FileCKeys|
    ensures |RowsPieces(vars, conv, r)| <= |RowsPieces(vars, conv, s)|
    ensures RowsPieces(vars, conv, s) == RowsPieces(vars, conv, r) + RowsPieces(vars, conv, s)[|RowsPieces(vars, conv, r)|..]
  {
    if r < s {
      RowsPiecesPrefix(vars, conv, r, s - 1);
    }
  }
}
