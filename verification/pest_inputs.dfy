/**
 * The four input files parameter estimation writes before PEST runs:
 *
 *  - the template `in_1.tpl` (File A with each estimated variable either
 *    fixed at its current value or replaced by a `# alias #` marker),
 *  - the parameter values `in_1.par` (one line per marked parameter),
 *  - the instruction file `output.ins` (where to read each observation),
 *  - the observations `measure.obf` (one named value per table row).
 *
 * The statuses are those returned by the variable-status dialog.
 */
module PestInputs {
  import opened Wrappers
  import opened Text
  import opened Collections
  import opened Variables
  import opened VariableCodec
  import opened StatusDialog
  import opened Series

  /** The five estimated variables, in the dialog's order. */
  const Estimated: seq<Key> := [MesoVelocity, MacroVelocity, TransferMicro, TransferMacro, Dispersivity]

  /** The PEST parameter name of each estimated variable. */
  const Aliases: seq<string> := ["qs", "qf", "omegaim", "omegasf", "alpha"]

  /** The names the dialog is opened with. */
  function EstimatedNames(): (names: seq<string>)
    ensures |names| == 5 && forall i :: 0 <= i < 5 ==> names[i] == Name(Estimated[i])
  {
    seq(5, i requires 0 <= i < 5 => Name(Estimated[i]))
  }

  /** Every estimated variable has an entry (any other entry would raise KeyError). */
  predicate Covers(status: map<string, Status>) {
    forall i :: 0 <= i < 5 ==> Name(Estimated[i]) in status
  }

  /** A status map holding every name the dialog was opened with covers the estimated variables. */
  lemma StartingCovers(status: map<string, Status>)
    requires Initial(EstimatedNames()).Keys <= status.Keys
    ensures Covers(status)
  {
    forall i | 0 <= i < 5 ensures Name(Estimated[i]) in status {
      assert EstimatedNames()[i] in Initial(EstimatedNames());
    }
  }

  function StatusOf(status: map<string, Status>, i: nat): Status
    requires Covers(status) && i < 5
  {
    status[Name(Estimated[i])]
  }

  /** `"{}".format(x)` of a variable's value. */
  function Shown(v: Option<string>): string {
    if v.None? then "None" else v.value
  }

  /** `"{}".format(x)` of a status. */
  function StatusShown(s: Status): string {
    match s
    case Unset => "None"
    case Determined => "determined"
    case Guess(v) => v
  }

  /** The marker PEST replaces with the value of parameter `alias`. */
  function Marker(alias: string): string {
    "# " + alias + " #"
  }

  // ---------------------------------------------------------------- in_1.tpl

  /** The template's line for estimated variable `i`. */
  function TemplateLine(status: map<string, Status>, vars: Vars, i: nat): string
    requires Covers(status) && i < 5
  {
    if StatusOf(status, i) == Determined then Shown(Lookup(vars, Estimated[i])) else Marker(Aliases[i])
  }

  /** The template's lines before the observations: its header, a line per estimated variable, the row count. */
  function TemplateHead(status: map<string, Status>, vars: Vars, rows: seq<Row>): (lines: seq<string>)
    requires Covers(status)
    ensures |lines| == 7
  {
    ["ptf #"] + seq(5, i requires 0 <= i < 5 => TemplateLine(status, vars, i)) + [NatToString(|rows|)]
  }

  /** `in_1.tpl`: each head line written with its '\n', then the row values joined by '\n'. */
  function TemplateText(status: map<string, Status>, vars: Vars, rows: seq<Row>): string
    requires Covers(status)
  {
    Terminated(TemplateHead(status, vars, rows)) + Join("\n", Series.RowValues(rows))
  }

  /** Read line by line, the template starts with its header line. */
  lemma TemplateFirst(status: map<string, Status>, vars: Vars, rows: seq<Row>)
    requires Covers(status)
    requires forall i :: 0 <= i < 5 ==> '\n' !in Shown(Lookup(vars, Estimated[i]))
    ensures NthLine(TemplateText(status, vars, rows), 0) == "ptf #\n"
  {
    TemplateLineAt(status, vars, rows, 0);
  }

  /** Lines 1 to 5 hold each estimated variable: its value when determined, its marker otherwise. */
  lemma TemplateVariables(status: map<string, Status>, vars: Vars, rows: seq<Row>)
    requires Covers(status)
    requires forall i :: 0 <= i < 5 ==> '\n' !in Shown(Lookup(vars, Estimated[i]))
    ensures forall i :: 0 <= i < 5 ==>
      NthLine(TemplateText(status, vars, rows), i + 1) == TemplateLine(status, vars, i) + "\n"
  {
    forall i | 0 <= i < 5
      ensures NthLine(TemplateText(status, vars, rows), i + 1) == TemplateLine(status, vars, i) + "\n"
    {
      TemplateLineAt(status, vars, rows, i + 1);
      HeadLine(status, vars, rows, i);
    }
  }

  lemma HeadLine(status: map<string, Status>, vars: Vars, rows: seq<Row>, i: nat)
    requires Covers(status) && i < 5
    ensures TemplateHead(status, vars, rows)[i + 1] == TemplateLine(status, vars, i)
  {
  }

  lemma TemplateLineAt(status: map<string, Status>, vars: Vars, rows: seq<Row>, j: nat)
    requires Covers(status) && j < 7
    requires forall i :: 0 <= i < 5 ==> '\n' !in Shown(Lookup(vars, Estimated[i]))
    ensures NthLine(TemplateText(status, vars, rows), j) == TemplateHead(status, vars, rows)[j] + "\n"
  {
    HeadIsLines(status, vars, rows);
    NthTerminated(TemplateHead(status, vars, rows), Join("\n", Series.RowValues(rows)), j);
  }

  /** Line 6 holds the row count. */
  lemma TemplateCount(status: map<string, Status>, vars: Vars, rows: seq<Row>)
    requires Covers(status)
    requires forall i :: 0 <= i < 5 ==> '\n' !in Shown(Lookup(vars, Estimated[i]))
    ensures NthLine(TemplateText(status, vars, rows), 6) == NatToString(|rows|) + "\n"
  {
    TemplateLineAt(status, vars, rows, 6);
  }

  /** After the first seven lines come exactly the table's values, as File A holds them. */
  lemma TemplateData(status: map<string, Status>, vars: Vars, rows: seq<Row>)
    requires Covers(status)
    requires forall i :: 0 <= i < 5 ==> '\n' !in Shown(Lookup(vars, Estimated[i]))
    requires Importable(Series.RowValues(rows))
    ensures SplitLines(DropLines(TemplateText(status, vars, rows), 7)) == Series.RowValues(rows)
  {
    var head := TemplateHead(status, vars, rows);
    var tail := Join("\n", Series.RowValues(rows));
    HeadIsLines(status, vars, rows);
    DropTerminated(head, tail, 7);
    assert head[7..] == [];
    assert Terminated(head[7..]) + tail == tail;
    SplitLinesJoin(Series.RowValues(rows));
  }

  lemma HeadIsLines(status: map<string, Status>, vars: Vars, rows: seq<Row>)
    requires Covers(status)
    requires forall i :: 0 <= i < 5 ==> '\n' !in Shown(Lookup(vars, Estimated[i]))
    ensures forall j :: 0 <= j < 7 ==> '\n' !in TemplateHead(status, vars, rows)[j]
    ensures TemplateHead(status, vars, rows)[0] == "ptf #" && TemplateHead(status, vars, rows)[6] == NatToString(|rows|)
  {
    var head := TemplateHead(status, vars, rows);
    assert head[0] == "ptf #" && head[6] == NatToString(|rows|);
    forall j | 0 <= j < 7 ensures '\n' !in head[j] {
      if j == 0 {
        assert '\n' !in "ptf #";
      } else if j == 6 {
        NatToStringIsWord(|rows|);
        LineHasNoNewline(NatToString(|rows|));
      } else {
        HeadLine(status, vars, rows, j - 1);
        TemplateLineIsLine(status, vars, j - 1);
      }
    }
  }

  lemma TemplateLineIsLine(status: map<string, Status>, vars: Vars, i: nat)
    requires Covers(status) && i < 5
    requires '\n' !in Shown(Lookup(vars, Estimated[i]))
    ensures '\n' !in TemplateLine(status, vars, i)
  {
    if StatusOf(status, i) != Determined {
      AliasesAreWords();
      assert IsSpace('\n');
      var a := Aliases[i];
      assert '\n' !in a by {
        forall k | 0 <= k < |a| ensures a[k] != '\n' {
          assert !IsSpace(a[k]);
        }
      }
      assert Marker(a) == "# " + a + " #";
    }
  }

  // ---------------------------------------------------------------- in_1.par

  /** The estimated variables among the first `k` that are not determined, in order. */
  function Free(status: map<string, Status>, k: nat): (r: seq<nat>)
    requires Covers(status) && k <= 5
    ensures forall j :: 0 <= j < |r| ==> r[j] < k && StatusOf(status, r[j]) != Determined
    ensures forall i :: 0 <= i < k && StatusOf(status, i) != Determined ==> i in r
    ensures forall j, l :: 0 <= j < l < |r| ==> r[j] < r[l]
  {
    if k == 0 then []
    else Free(status, k - 1) + (if StatusOf(status, k - 1) != Determined then [k - 1] else [])
  }

  /** The `.par` line of estimated variable `i`: its name, its initial value, scale 1.0 and offset 0.0. */
  function ParLine(status: map<string, Status>, i: nat): string
    requires Covers(status) && i < 5
  {
    Aliases[i] + " " + StatusShown(StatusOf(status, i)) + " 1.0 0.0"
  }

  function ParLines(status: map<string, Status>): (lines: seq<string>)
    requires Covers(status)
    ensures |lines| == |Free(status, 5)|
  {
    var free := Free(status, 5);
    seq(|free|, j requires 0 <= j < |free| => ParLine(status, free[j]))
  }

  /** `in_1.par`: the precision line, then one line per parameter, each with its '\n'. */
  function ParText(status: map<string, Status>): string
    requires Covers(status)
  {
    Terminated(["single point"] + ParLines(status))
  }

  /** The parameter names of `in_1.par`: the first token of each of its parameter lines. */
  function ParNames(status: map<string, Status>): (names: seq<string>)
    requires Covers(status)
    ensures |names| == |ParLines(status)|
  {
    var lines := ParLines(status);
    seq(|lines|, j requires 0 <= j < |lines| => var t := Split(lines[j]); if t == [] then "" else t[0])
  }

  /**
   * The template and the parameter file agree: a variable gets a marker in
   * the template exactly when it is not determined, and then it, and only
   * then, has a line in the parameter file, named by its alias and giving the
   * initial guess as its value. The parameter lines come in the template's
   * order and no parameter has two.
   */
  lemma ParametersMatchTemplate(status: map<string, Status>, vars: Vars)
    requires Covers(status)
    ensures forall i :: 0 <= i < 5 && StatusOf(status, i) != Determined ==>
      TemplateLine(status, vars, i) == Marker(Aliases[i]) && Aliases[i] in ParNames(status)
    ensures forall i :: 0 <= i < 5 && StatusOf(status, i) == Determined ==>
      TemplateLine(status, vars, i) == Shown(Lookup(vars, Estimated[i])) && Aliases[i] !in ParNames(status)
    ensures Distinct(ParNames(status))
  {
    ParNamesAreAliases(status);
    FreeAreNamed(status);
    DeterminedAreNot(status);
    ParNamesDistinct(status);
  }

  lemma FreeAreNamed(status: map<string, Status>)
    requires Covers(status)
    requires forall j :: 0 <= j < |ParNames(status)| ==> ParNames(status)[j] == Aliases[Free(status, 5)[j]]
    ensures forall i :: 0 <= i < 5 && StatusOf(status, i) != Determined ==> Aliases[i] in ParNames(status)
  {
    var free := Free(status, 5);
    var names := ParNames(status);
    forall i | 0 <= i < 5 && StatusOf(status, i) != Determined ensures Aliases[i] in names {
      var j :| 0 <= j < |free| && free[j] == i;
      assert names[j] == Aliases[i];
    }
  }

  lemma DeterminedAreNot(status: map<string, Status>)
    requires Covers(status)
    requires forall j :: 0 <= j < |ParNames(status)| ==> ParNames(status)[j] == Aliases[Free(status, 5)[j]]
    ensures forall i :: 0 <= i < 5 && StatusOf(status, i) == Determined ==> Aliases[i] !in ParNames(status)
  {
    var free := Free(status, 5);
    var names := ParNames(status);
    forall i | 0 <= i < 5 && StatusOf(status, i) == Determined ensures Aliases[i] !in names {
      if Aliases[i] in names {
        var j :| 0 <= j < |names| && names[j] == Aliases[i];
        AliasesDistinct(free[j], i);
      }
    }
  }

  lemma ParNamesDistinct(status: map<string, Status>)
    requires Covers(status)
    requires forall j :: 0 <= j < |ParNames(status)| ==> ParNames(status)[j] == Aliases[Free(status, 5)[j]]
    ensures Distinct(ParNames(status))
  {
    var free := Free(status, 5);
    var names := ParNames(status);
    forall j, l | 0 <= j < l < |names| ensures names[j] != names[l] {
      AliasesDistinct(free[j], free[l]);
    }
  }

  /**
   * Each line of the parameter file is named by the alias of a variable that
   * is not determined, in the dialog's order, and gives that variable's
   * initial guess, scale 1.0 and offset 0.0.
   */
  lemma ParNamesAreAliases(status: map<string, Status>)
    requires Covers(status)
    ensures forall j :: 0 <= j < |ParNames(status)| ==>
      var i := Free(status, 5)[j];
      StatusOf(status, i) != Determined && ParNames(status)[j] == Aliases[i]
        && ParLines(status)[j] == Aliases[i] + " " + StatusShown(StatusOf(status, i)) + " 1.0 0.0"
  {
    forall j | 0 <= j < |ParNames(status)| ensures ParNames(status)[j] == Aliases[Free(status, 5)[j]] {
      ParNameAt(status, j);
    }
  }

  lemma ParNameAt(status: map<string, Status>, j: nat)
    requires Covers(status) && j < |ParLines(status)|
    ensures ParNames(status)[j] == Aliases[Free(status, 5)[j]]
  {
    var i := Free(status, 5)[j];
    var a, x := Aliases[i], StatusShown(StatusOf(status, i));
    var rest := " " + x + " 1.0 0.0";
    AliasesAreWords();
    assert IsWord(a);
    assert ParLines(status)[j] == a + " " + x + " 1.0 0.0";
    calc {
      a + " " + x + " 1.0 0.0";
      { AppendAssoc(a, " ", x); }
      a + (" " + x) + " 1.0 0.0";
      { AppendAssoc(a, " " + x, " 1.0 0.0"); }
      a + rest;
    }
    FirstToken(a, rest);
  }

  lemma AliasesAreWords()
    ensures forall i :: 0 <= i < 5 ==> IsWord(Aliases[i])
  {
    assert IsWord("qs") && IsWord("qf") && IsWord("omegaim") && IsWord("omegasf") && IsWord("alpha");
  }

  lemma AliasesDistinct(i: nat, j: nat)
    requires i < 5 && j < 5 && i != j
    ensures Aliases[i] != Aliases[j]
  {
    assert Aliases[0] == "qs" && Aliases[1] == "qf" && Aliases[2] == "omegaim";
    assert Aliases[3] == "omegasf" && Aliases[4] == "alpha";
    assert "qs"[1] != "qf"[1] && "omegaim"[5] != "omegasf"[5];
    assert |"qs"| == 2 && |"omegaim"| == 7 && |"alpha"| == 5;
  }

  /** The first token of a word followed by a space and anything. */
  lemma FirstToken(w: string, rest: string)
    requires IsWord(w) && rest != [] && IsSpace(rest[0])
    ensures Split(w + rest) != [] && Split(w + rest)[0] == w
  {
    WordOf(w, rest);
    assert (w + rest)[0] == w[0];
  }

  // ------------------------------------------------------ output.ins, measure.obf

  /** The observation name of a table row: `o` and its number. */
  function ObservationName(row: Row): string {
    "o" + NatToString(row.index)
  }

  /** `output.ins`'s instruction lines: read observation `o<k>` from columns 19 to 26 of the next line. */
  function InstructionLines(n: nat): (lines: seq<string>)
    ensures |lines| == n
  {
    seq(n, i requires 0 <= i < n => "l1 (o" + NatToString(i + 1) + ")19:26")
  }

  function InstructionText(n: nat): string {
    "pif #\n" + Join("\n", InstructionLines(n))
  }

  /** `measure.obf`'s lines: each row's observation name and value. */
  function ObservationLines(rows: seq<Row>): (lines: seq<string>)
    ensures |lines| == |rows|
  {
    seq(|rows|, i requires 0 <= i < |rows| => ObservationName(rows[i]) + " " + rows[i].value)
  }

  function ObservationText(rows: seq<Row>): string {
    Join("\n", ObservationLines(rows))
  }

  /**
   * On a table numbered from 1 (as the import and the refresh leave it), the
   * instruction file reads exactly the observations the observation file
   * names, in the same order, and no two observations share a name.
   */
  lemma InstructionsMatchObservations(values: seq<string>)
    ensures var rows := Numbered(values);
      |InstructionLines(|rows|)| == |ObservationLines(rows)| &&
      forall i :: 0 <= i < |rows| ==>
        InstructionLines(|rows|)[i] == "l1 (" + ObservationName(rows[i]) + ")19:26" &&
        ObservationLines(rows)[i] == ObservationName(rows[i]) + " " + values[i]
    ensures var rows := Numbered(values);
      forall i, j :: 0 <= i < j < |rows| ==> ObservationName(rows[i]) != ObservationName(rows[j])
  {
    var rows := Numbered(values);
    forall i | 0 <= i < |rows|
      ensures InstructionLines(|rows|)[i] == "l1 (" + ObservationName(rows[i]) + ")19:26"
    {
      assert "l1 (o" + NatToString(i + 1) + ")19:26" == "l1 (" + ("o" + NatToString(i + 1)) + ")19:26";
    }
    forall i, j | 0 <= i < j < |rows| ensures ObservationName(rows[i]) != ObservationName(rows[j]) {
      NatToStringValue(i + 1);
      NatToStringValue(j + 1);
      assert ObservationName(rows[i])[1..] == NatToString(i + 1);
      assert ObservationName(rows[j])[1..] == NatToString(j + 1);
    }
  }
}
