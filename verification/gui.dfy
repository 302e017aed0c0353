/**
 * The front end's own state and the operations its buttons run: the change
 * detector behind Run/Refresh, the queue of executable runs and its sweep,
 * the import of pasted series, and parameter estimation from the status
 * dialog to the results shown.
 *
 * The working directory is the map `files` from path to text. What cannot be
 * seen from here is a parameter: `hash` is SHA-256 of a file's text,
 * `alive` whether a job's thread is still running, `toFloat` and `conv` the
 * float conversions, and the files the PEST tools write (`test.pst`,
 * `test.rec`) are given as their texts.
 */
module Application {
  import opened Wrappers
  import opened Text
  import opened Variables
  import opened VariableCodec
  import opened CodecLaws
  import opened FileWrites
  import opened Series
  import opened Jobs
  import opened Sections
  import opened StatusDialog
  import opened PestInputs
  import opened PestControl
  import opened PestRecord

  const FirstInput: string := "./in_1.dat"
  const SecondInput: string := "./in_2.dat"
  const ThirdInput: string := "./in_3.dat"
  const Executable: string := "./test.exe"

  const TemplateFile: string := "in_1.tpl"
  const ParameterFile: string := "in_1.par"
  const InstructionFile: string := "output.ins"
  const ObservationFile: string := "measure.obf"
  const ControlFile: string := "test.pst"

  /** The five File A values `import_data` writes before a pasted concentration series. */
  const ConcentrationHeader: seq<string> := ["2.64E-01", "3.60E-01", "4.70E-05", "5.20E-01", "9.76E-03"]

  /** The header `import_data` writes before a pasted time-stamp series: skip one line, which holds `16.87`. */
  const TimestampHeader: seq<string> := ["1", "16.87"]

  /** `path if os.path.exists(path) else None`. */
  function IfPresent(files: map<string, string>, path: string): (r: Option<string>)
    ensures r.Some? <==> path in files
    ensures r.Some? ==> r.value == path
  {
    if path in files then Some(path) else None
  }

  /** The text at `path`: `None` where `open(path)` raises. */
  function Content(files: map<string, string>, path: Option<string>): (r: Option<string>)
    ensures r.Some? <==> path.Some? && path.value in files
    ensures r.Some? ==> r.value == files[path.value]
  {
    if path.Some? && path.value in files then Some(files[path.value]) else None
  }

  /** The table the front end starts with: rows 1 to 42, each `NA`. */
  function Placeholder(): (rows: seq<Row>)
    ensures |rows| == 42 && forall i :: 0 <= i < 42 ==> rows[i] == Row(i + 1, "NA")
  {
    Numbered(seq(42, i => "NA"))
  }

  // ---------------------------------------------------------------- the change detector

  /** The digest memory once the three files' digests are recorded. */
  function Remembered(memory: map<string, string>, files: map<string, string>, hash: string -> string, p1: string, p2: string, p3: string): (r: map<string, string>)
    requires p1 in files && p2 in files && p3 in files
    ensures r.Keys == memory.Keys + {p1, p2, p3}
    ensures forall p :: p in {p1, p2, p3} ==> r[p] == hash(files[p])
    ensures forall p :: p in memory && p !in {p1, p2, p3} ==> r[p] == memory[p]
  {
    memory[p1 := hash(files[p1])][p2 := hash(files[p2])][p3 := hash(files[p3])]
  }

  /** The memory after `_refresh_utility`: unchanged when a file cannot be read. */
  function Recorded(memory: map<string, string>, files: map<string, string>, hash: string -> string, p1: string, p2: string, p3: string): (r: map<string, string>)
    ensures p1 !in files || p2 !in files || p3 !in files ==> r == memory
  {
    if p1 in files && p2 in files && p3 in files then Remembered(memory, files, hash, p1, p2, p3) else memory
  }

  /** Whether some file's digest differs from the one remembered (or none is). */
  predicate Changed(memory: map<string, string>, files: map<string, string>, hash: string -> string, p1: string, p2: string, p3: string)
    requires p1 in files && p2 in files && p3 in files
  {
    exists p :: p in {p1, p2, p3} && (p !in memory || memory[p] != hash(files[p]))
  }

  /** Recording the digests a second time, with the files unchanged, changes nothing and finds no update. */
  lemma RememberedTwice(memory: map<string, string>, files: map<string, string>, hash: string -> string, p1: string, p2: string, p3: string)
    requires p1 in files && p2 in files && p3 in files
    ensures var m := Remembered(memory, files, hash, p1, p2, p3);
      Remembered(m, files, hash, p1, p2, p3) == m && !Changed(m, files, hash, p1, p2, p3)
  {
  }

  /** Recording changes the memory exactly when some digest changed. */
  lemma RememberedChanges(memory: map<string, string>, files: map<string, string>, hash: string -> string, p1: string, p2: string, p3: string)
    requires p1 in files && p2 in files && p3 in files
    ensures Remembered(memory, files, hash, p1, p2, p3) != memory <==> Changed(memory, files, hash, p1, p2, p3)
  {
    var r := Remembered(memory, files, hash, p1, p2, p3);
    if Changed(memory, files, hash, p1, p2, p3) {
      var p :| p in {p1, p2, p3} && (p !in memory || memory[p] != hash(files[p]));
      assert p in r && r[p] == hash(files[p]);
    } else {
      assert r.Keys == memory.Keys;
    }
  }

  /** Storing the digest a path already has leaves the memory as it is. */
  lemma SameDigest(memory: map<string, string>, p: string, d: string)
    requires p in memory && memory[p] == d
    ensures memory[p := d] == memory
  {
  }

  // ---------------------------------------------------------------- outcomes

  /** How `refresh` ends: a popup about a missing input or executable, the run launched, or an exception it does not catch. */
  datatype RefreshOutcome = MissingInput(number: nat) | MissingExecutable | Launched | ImportFailed

  /**
   * What parameter estimation shows once `test.pst` is written back: nothing
   * (opening `test.rec` raises, so the run ends there), the error popup, or
   * the two result windows.
   */
  datatype Display = NoRecord | ErrorPopup | Shown(statistics: string, parameters: string)

  /**
   * How parameter estimation ends: the status dialog is still open, an
   * exception escaped, the limit dialog was cancelled, or `test.pst` was
   * written back with the sections `control` and the record was shown.
   */
  datatype Estimation = Asking | Crashed | Cancelled | Written(control: Store, display: Display)

  /** What the record (if there is one) shows. */
  function DisplayOf(rec: Option<string>): (d: Display)
    ensures d == NoRecord <==> rec.None?
    ensures rec.Some? ==> (d.Shown? <==> RecordResults(rec.value).Some?)
    ensures d.Shown? ==> RecordResults(rec.value) == Some((d.statistics, d.parameters))
  {
    if rec.None? then NoRecord
    else
      var r := RecordResults(rec.value);
      if r.None? then ErrorPopup else Shown(r.value.0, r.value.1)
  }

  /** The four input files parameter estimation writes for the statuses `status`. */
  function WithInputs(files: map<string, string>, status: map<string, Status>, vars: Vars, rows: seq<Row>): map<string, string>
    requires Covers(status)
  {
    files[TemplateFile := TemplateText(status, vars, rows)][ParameterFile := ParText(status)]
      [InstructionFile := InstructionText(|rows|)][ObservationFile := ObservationText(rows)]
  }

  // ---------------------------------------------------------------- importing and writing back

  /**
   * The working directory after `_write_updated_values`: unchanged without
   * File A; otherwise File A rewritten from the variables over its old text,
   * and File C rewritten too when every File A write was made and there is a
   * third path.
   */
  function WrittenBack(files: map<string, string>, first: Option<string>, third: Option<string>, vars: Vars, conv: string -> Option<string>): map<string, string> {
    if Content(files, first).None? then files
    else
      var a := Emit(FileAPieces(files[first.value], vars, conv));
      var c := Emit(RowsPieces(vars, conv, |FileCKeys|)).0;
      if a.1 && third.Some? then files[first.value := a.0][third.value := c] else files[first.value := a.0]
  }

  /**
   * A pasted concentration series survives the rewrite of File A: once the
   * series is exported after its six header lines and the six variable lines
   * are written over that header, reading the file as the concentration
   * import does gives back the pasted values, provided every variable line
   * can be written and each value converts to itself.
   */
  lemma ImportedSeriesReadsBack(header: seq<string>, values: seq<string>, vars: Vars, conv: string -> Option<string>, toFloat: string -> Option<string>)
    requires |header| == 6 && forall i :: 0 <= i < 6 ==> '\n' !in header[i] && '\r' !in header[i]
    requires Importable(values) && forall i :: 0 <= i < |values| ==> toFloat(values[i]) == Some(values[i])
    requires AllSome(FileAValues(vars, conv)) && forall q :: 0 <= q < 6 ==> '\n' !in FileAValues(vars, conv)[q].value && '\r' !in FileAValues(vars, conv)[q].value
    ensures Emit(FileAPieces(ExportText(header + values), vars, conv)).1
    ensures ConcentrationOf(Some(Emit(FileAPieces(ExportText(header + values), vars, conv)).0), toFloat) == Some(values)
  {
    var previous := ExportText(header + values);
    var six := Values(FileAValues(vars, conv));
    FileAWritten(previous, vars, conv);
    DropTerminated(six, DropLines(previous, 6), 6);
    assert six[6..] == [];
    assert Terminated(six[6..]) + DropLines(previous, 6) == DropLines(previous, 6);
    DropHeader(header, values);
    FloatsCanonical(values, toFloat);
  }

  // ---------------------------------------------------------------- the front end

  class Gui {
    /** The input and executable paths, fixed when the front end starts. */
    const first: Option<string>
    const second: Option<string>
    const third: Option<string>
    const exe: Option<string>
    /** The digest last seen for each input path. */
    var memory: map<string, string>
    /** The runs not yet seen finished, oldest first. */
    var queue: seq<nat>
    /** The runs whose plots have been drawn, in order. */
    var rendered: seq<nat>
    /** The number the next run gets. */
    var nextJob: nat
    var vars: Vars
    var baseRows: seq<Row>
    var timestampRows: seq<Row>
    /** The working directory. */
    var files: map<string, string>

    /** The job bookkeeping every operation keeps. */
    ghost predicate Valid()
      reads this
    {
      JobsValid(queue, rendered, nextJob) &&
      (first.Some? ==> first.value == FirstInput) && (second.Some? ==> second.value == SecondInput) &&
      (third.Some? ==> third.value == ThirdInput)
    }

    /**
     * `GUIBase.__init__`: each path is set when its file exists, no digest
     * is remembered, no run is queued, every variable is `None`, and both
     * tables hold the 42 placeholder rows.
     */
    constructor(files: map<string, string>)
      ensures first == IfPresent(files, FirstInput) && second == IfPresent(files, SecondInput)
      ensures third == IfPresent(files, ThirdInput) && exe == IfPresent(files, Executable)
      ensures memory == map[] && queue == [] && rendered == [] && nextJob == 0
      ensures vars.Keys == (set k | k in AllKeys) && forall k :: k in vars ==> vars[k].None?
      ensures baseRows == Placeholder() && timestampRows == Placeholder()
      ensures this.files == files
      ensures Valid()
    {
      first := IfPresent(files, FirstInput);
      second := IfPresent(files, SecondInput);
      third := IfPresent(files, ThirdInput);
      exe := IfPresent(files, Executable);
      memory := map[];
      queue := [];
      rendered := [];
      nextJob := 0;
      vars := map k | k in AllKeys :: None;
      baseRows := Placeholder();
      timestampRows := Placeholder();
      this.files := files;
      JobsValidInitially(0);
    }

    /**
     * `_refresh_utility`: the three digests are computed first, so a file
     * that cannot be read changes nothing (the wrapper returns `None`);
     * otherwise each digest that differs from the one remembered is
     * recorded, and the result is `True` whether or not one did.
     * `updated` is what decides the "No updates found" message.
     */
    method RefreshUtility(p1: string, p2: string, p3: string, hash: string -> string) returns (r: Option<bool>, updated: bool)
      modifies this`memory
      ensures r.Some? <==> p1 in files && p2 in files && p3 in files
      ensures r != Some(false)
      ensures memory == Recorded(old(memory), files, hash, p1, p2, p3)
      ensures r.None? ==> !updated
      ensures r.Some? ==> (updated <==> Changed(old(memory), files, hash, p1, p2, p3))
    {
      if p1 !in files || p2 !in files || p3 !in files {
        return None, false;
      }
      var d1, d2, d3 := hash(files[p1]), hash(files[p2]), hash(files[p3]);
      ghost var m0 := memory;
      updated := false;
      if p1 !in memory || memory[p1] != d1 {
        assert p1 in {p1, p2, p3};
        memory := memory[p1 := d1];
        updated := true;
      } else {
        SameDigest(memory, p1, d1);
      }
      if p2 !in memory || memory[p2] != d2 {
        assert p2 in {p1, p2, p3} && p2 != p1;
        memory := memory[p2 := d2];
        updated := true;
      } else {
        SameDigest(memory, p2, d2);
      }
      if p3 !in memory || memory[p3] != d3 {
        assert p3 in {p1, p2, p3} && p3 != p1 && p3 != p2;
        memory := memory[p3 := d3];
        updated := true;
      } else {
        SameDigest(memory, p3, d3);
      }
      assert memory == m0[p1 := d1][p2 := d2][p3 := d3];
      if !updated {
        RememberedChanges(m0, files, hash, p1, p2, p3);
      }
      return Some(true), updated;
    }

    /** `_nonblocking_execute_external_code`: the run gets the next number and joins the tail of the queue. */
    method Launch()
      requires Valid()
      modifies this`queue, this`nextJob
      ensures queue == old(queue) + [old(nextJob)] && nextJob == old(nextJob) + 1
      ensures Valid()
    {
      LaunchKeepsValid(queue, rendered, nextJob);
      queue := queue + [nextJob];
      nextJob := nextJob + 1;
    }

    /**
     * `_is_any_thread_running`: one pass of `len(queue)` pops from the head;
     * a live run goes back to the tail, a finished one is joined and its
     * plots drawn. True when runs are left.
     */
    method IsAnyThreadRunning(alive: nat -> bool) returns (running: bool)
      requires Valid()
      modifies this`queue, this`rendered
      ensures queue == Live(old(queue), alive)
      ensures rendered == old(rendered) + Dead(old(queue), alive)
      ensures running <==> queue != []
      ensures Valid()
    {
      SweepKeepsValid(queue, rendered, nextJob, alive);
      var drawn;
      queue, drawn := Sweep(queue, alive);
      rendered := rendered + drawn;
      running := queue != [];
    }

    /**
     * `refresh`: stop with a popup at the first missing input path; record
     * the digests; stop if there is no executable; otherwise queue a run and
     * load both tables from the input files (a file that cannot be read
     * raises out of `refresh`).
     */
    method Refresh(hash: string -> string, toFloat: string -> Option<string>) returns (outcome: RefreshOutcome)
      requires Valid()
      modifies this`memory, this`queue, this`nextJob, this`baseRows, this`timestampRows
      ensures Valid()
      ensures first.None? ==> outcome == MissingInput(1)
      ensures first.Some? && second.None? ==> outcome == MissingInput(2)
      ensures first.Some? && second.Some? && third.None? ==> outcome == MissingInput(3)
      ensures outcome.MissingInput? ==> memory == old(memory)
      ensures !outcome.MissingInput? ==> memory == Recorded(old(memory), files, hash, first.value, second.value, third.value)
      ensures !outcome.MissingInput? ==> (outcome == MissingExecutable <==> exe.None?)
      ensures outcome.MissingInput? || outcome == MissingExecutable ==>
        queue == old(queue) && baseRows == old(baseRows) && timestampRows == old(timestampRows)
      ensures outcome == Launched || outcome == ImportFailed ==> queue == old(queue) + [old(nextJob)]
      ensures outcome == Launched ==>
        TimestampsOf(Content(files, second), toFloat).Some? && ConcentrationOf(Content(files, first), toFloat).Some? &&
        timestampRows == Numbered(TimestampsOf(Content(files, second), toFloat).value) &&
        baseRows == Numbered(ConcentrationOf(Content(files, first), toFloat).value)
      ensures outcome == ImportFailed ==>
        TimestampsOf(Content(files, second), toFloat).None? || ConcentrationOf(Content(files, first), toFloat).None?
      ensures outcome == ImportFailed ==>
        baseRows == old(baseRows) &&
        timestampRows == if TimestampsOf(Content(files, second), toFloat).Some?
          then Numbered(TimestampsOf(Content(files, second), toFloat).value) else old(timestampRows)
      ensures nextJob == if outcome == Launched || outcome == ImportFailed then old(nextJob) + 1 else old(nextJob)
    {
      if first.None? {
        return MissingInput(1);
      }
      if second.None? {
        return MissingInput(2);
      }
      if third.None? {
        return MissingInput(3);
      }
      var required, updated := RefreshUtility(first.value, second.value, third.value, hash);
      if required == Some(false) {
        // `_refresh_utility` never returns False, so this exit is never taken.
        assert false;
      }
      if exe.None? {
        return MissingExecutable;
      }
      outcome := LaunchAndLoad(toFloat);
    }

    /** The end of `refresh` once every path is known: queue a run, then load both tables. */
    method LaunchAndLoad(toFloat: string -> Option<string>) returns (outcome: RefreshOutcome)
      requires Valid()
      modifies this`queue, this`nextJob, this`baseRows, this`timestampRows
      ensures Valid()
      ensures queue == old(queue) + [old(nextJob)] && nextJob == old(nextJob) + 1
      ensures outcome == Launched || outcome == ImportFailed
      ensures outcome == Launched <==>
        TimestampsOf(Content(files, second), toFloat).Some? && ConcentrationOf(Content(files, first), toFloat).Some?
      ensures timestampRows == if TimestampsOf(Content(files, second), toFloat).Some?
        then Numbered(TimestampsOf(Content(files, second), toFloat).value) else old(timestampRows)
      ensures baseRows == if outcome == Launched then Numbered(ConcentrationOf(Content(files, first), toFloat).value) else old(baseRows)
    {
      Launch();
      var loaded := LoadTables(toFloat);
      outcome := if loaded then Launched else ImportFailed;
    }

    /**
     * The tables `refresh` fills: the time stamps from the second input, then
     * the concentrations from the first. An import that fails raises when its
     * result is enumerated, leaving the tables not yet filled as they were.
     */
    method LoadTables(toFloat: string -> Option<string>) returns (loaded: bool)
      modifies this`baseRows, this`timestampRows
      ensures loaded <==> TimestampsOf(Content(files, second), toFloat).Some? && ConcentrationOf(Content(files, first), toFloat).Some?
      ensures timestampRows == if TimestampsOf(Content(files, second), toFloat).Some?
        then Numbered(TimestampsOf(Content(files, second), toFloat).value) else old(timestampRows)
      ensures baseRows == if loaded then Numbered(ConcentrationOf(Content(files, first), toFloat).value) else old(baseRows)
    {
      var stamped := LoadTimestamps(Content(files, second), toFloat);
      if stamped {
        loaded := LoadConcentrations(Content(files, first), toFloat);
      } else {
        loaded := false;
      }
    }

    /** The time-stamp half of `LoadTables`, on the second input's text. */
    method LoadTimestamps(text: Option<string>, toFloat: string -> Option<string>) returns (loaded: bool)
      modifies this`timestampRows
      ensures loaded <==> TimestampsOf(text, toFloat).Some?
      ensures timestampRows == if loaded then Numbered(TimestampsOf(text, toFloat).value) else old(timestampRows)
    {
      var stamps := ImportTimestamps(text, toFloat);
      if stamps.None? {
        return false;
      }
      timestampRows := Numbered(stamps.value);
      return true;
    }

    /** The concentration half of `LoadTables`, on the first input's text. */
    method LoadConcentrations(text: Option<string>, toFloat: string -> Option<string>) returns (loaded: bool)
      modifies this`baseRows
      ensures loaded <==> ConcentrationOf(text, toFloat).Some?
      ensures baseRows == if loaded then Numbered(ConcentrationOf(text, toFloat).value) else old(baseRows)
    {
      var series := ImportConcentration(text, toFloat);
      if series.None? {
        return false;
      }
      baseRows := Numbered(series.value);
      return true;
    }

    /**
     * `_write_updated_values`: File A is read, then rewritten from the
     * variables (stopping at the first value that cannot be written); File C
     * is written only after all of File A was. A path that cannot be opened
     * stops everything, and the wrapper swallows the exception.
     */
    method WriteUpdatedValues(conv: string -> Option<string>)
      modifies this`files
      ensures Content(old(files), first).None? ==> files == old(files)
      ensures Content(old(files), first).Some? ==>
        var a := Emit(FileAPieces(old(files)[first.value], vars, conv));
        var c := Emit(RowsPieces(vars, conv, |FileCKeys|)).0;
        files == if a.1 && third.Some? then old(files)[first.value := a.0][third.value := c] else old(files)[first.value := a.0]
      ensures files == WrittenBack(old(files), first, third, vars, conv)
    {
      var previous := Content(files, first);
      if previous.None? {
        return;
      }
      var textA, completeA := WriteFileA(previous.value, vars, conv);
      files := files[first.value := textA];
      if !completeA || third.None? {
        return;
      }
      var textC, completeC := WriteFileC(vars, conv);
      files := files[third.value := textC];
    }

    /** `_export_*_data`: the items joined by '\n' written to `path`; no path raises, and the wrapper swallows it. */
    method Export(path: Option<string>, items: seq<string>)
      modifies this`files
      ensures files == if path.Some? then old(files)[path.value := ExportText(items)] else old(files)
    {
      if path.Some? {
        files := files[path.value := ExportText(items)];
      }
    }

    /**
     * `import_data` with the text pasted into the dialog: the non-empty
     * lines become the table, numbered from 1, and are exported after their
     * header. For the concentration table the observation count becomes the
     * number of rows and the variable files are written again.
     */
    method ImportData(section: string, pasted: string, conv: string -> Option<string>)
      requires Valid()
      modifies this`baseRows, this`timestampRows, this`vars, this`files
      ensures Valid()
      ensures section == "-BASE-COPY-" ==>
        baseRows == Numbered(PastedLines(pasted)) && timestampRows == old(timestampRows) &&
        vars == old(vars)[ObservationCount := Some(NatToString(|baseRows|))]
      ensures section == "-BASE-COPY-" && first.Some? ==>
        first.value in files &&
        files[first.value] == Emit(FileAPieces(ExportText(ConcentrationHeader + [NatToString(|baseRows|)] + PastedLines(pasted)), vars, conv)).0
      ensures section == "-BASE-COPY-" && first.None? ==> files == old(files)
      ensures section == "-BASE-COPY-" ==>
        files == WrittenBack(if first.Some? then old(files)[first.value := ExportText(ConcentrationHeader + [NatToString(|baseRows|)] + PastedLines(pasted))] else old(files),
                             first, third, vars, conv)
      ensures section == "-TIMESTAMP-COPY-" ==>
        timestampRows == Numbered(PastedLines(pasted)) && baseRows == old(baseRows) && vars == old(vars) &&
        files == if second.Some? then old(files)[second.value := ExportText(TimestampHeader + PastedLines(pasted))] else old(files)
      ensures section != "-BASE-COPY-" && section != "-TIMESTAMP-COPY-" ==>
        baseRows == old(baseRows) && timestampRows == old(timestampRows) && vars == old(vars) && files == old(files)
    {
      if section == "-BASE-COPY-" {
        var values := PastedLines(pasted);
        baseRows := Numbered(values);
        NumberedValues(values);
        vars := vars[ObservationCount := Some(NatToString(|baseRows|))];
        Export(first, ConcentrationHeader + [NatToString(|baseRows|)] + Series.RowValues(baseRows));
        WriteUpdatedValues(conv);
      }
      if section == "-TIMESTAMP-COPY-" {
        var values := PastedLines(pasted);
        timestampRows := Numbered(values);
        NumberedValues(values);
        Export(second, TimestampHeader + Series.RowValues(timestampRows));
      }
    }

    /**
     * `run_parameter_estimation`. `events` are what the status dialog
     * receives; `pst` is the `test.pst` `pestgen` leaves (`None`: there is
     * none); `choose` is the limit dialog; `rec` is the `test.rec` PEST
     * leaves. No exception is caught here.
     */
    method RunParameterEstimation(events: seq<Event>, toFloat: string -> Option<string>, pst: Option<string>,
                                  choose: map<string, Bounds> -> Option<map<string, Bounds>>, rec: Option<string>)
      returns (outcome: Estimation)
      modifies this`files
      ensures var run := RunOf(Initial(EstimatedNames()), events, toFloat);
        (run.Waiting? <==> outcome == Asking) && (run.Raised? ==> outcome == Crashed) &&
        (!run.Returned? ==> files == old(files))
      ensures var run := RunOf(Initial(EstimatedNames()), events, toFloat);
        run.Returned? ==>
          Covers(run.status) && AllSet(run.status) && Estimates(old(files), run.status, pst, choose, rec, outcome)
    {
      var setter := new VariableSetter(EstimatedNames());
      var run := setter.Run(events, toFloat);
      if run.Waiting? {
        return Asking;
      }
      if run.Raised? {
        return Crashed;
      }
      ReturnsAllSet(Initial(EstimatedNames()), events, toFloat);
      RunKeepsStarting(Initial(EstimatedNames()), events, toFloat);
      StartingCovers(run.status);
      outcome := Estimate(run.status, pst, choose, rec);
    }

    /** What parameter estimation does once the dialog returned `status`. */
    ghost predicate Estimates(before: map<string, string>, status: map<string, Status>, pst: Option<string>,
                              choose: map<string, Bounds> -> Option<map<string, Bounds>>, rec: Option<string>, outcome: Estimation)
      requires Covers(status)
      reads this
    {
      outcome != Asking &&
      files == (if outcome.Written? then WithInputs(before, status, vars, baseRows)[ControlFile := ControlText(outcome.control)]
                else WithInputs(before, status, vars, baseRows)) &&
      (pst.None? ==> outcome == Crashed) &&
      (pst.Some? ==>
        (outcome == Estimation.Cancelled <==> BoundsOf(Get(PestSections(pst.value), ParameterData)).Some? && ChosenLimits(pst.value, choose).None?) &&
        (outcome.Written? <==> Revisable(pst.value, choose))) &&
      (outcome.Written? ==>
        pst.Some? && Revises(PestSections(pst.value), ChosenLimits(pst.value, choose).value, outcome.control) &&
        outcome.display == DisplayOf(rec))
    }

    /**
     * Parameter estimation after the dialog: the four input files are
     * written, then `test.pst` is revised and written back, then the record
     * is read.
     */
    method Estimate(status: map<string, Status>, pst: Option<string>,
                    choose: map<string, Bounds> -> Option<map<string, Bounds>>, rec: Option<string>)
      returns (outcome: Estimation)
      requires Covers(status)
      modifies this`files
      ensures outcome != Asking
      ensures files == if outcome.Written? then WithInputs(old(files), status, vars, baseRows)[ControlFile := ControlText(outcome.control)]
                       else WithInputs(old(files), status, vars, baseRows)
      ensures pst.None? ==> outcome == Crashed
      ensures pst.Some? ==>
        (outcome == Estimation.Cancelled <==> BoundsOf(Get(PestSections(pst.value), ParameterData)).Some? && ChosenLimits(pst.value, choose).None?)
      ensures pst.Some? ==> (outcome.Written? <==> Revisable(pst.value, choose))
      ensures outcome.Written? ==> pst.Some? && Revises(PestSections(pst.value), ChosenLimits(pst.value, choose).value, outcome.control)
      ensures outcome.Written? ==> outcome.display == DisplayOf(rec)
    {
      ghost var inputs := WithInputs(files, status, vars, baseRows);
      files := WithInputs(files, status, vars, baseRows);
      assert files == inputs;
      if pst.None? {
        return Crashed;
      }
      var revision := ReviseControl(pst.value, choose);
      if revision.Raised? {
        return Crashed;
      }
      if revision.Cancelled? {
        return Estimation.Cancelled;
      }
      files := files[ControlFile := revision.text];
      assert files == inputs[ControlFile := ControlText(revision.store)];
      if rec.None? {
        return Written(revision.store, NoRecord);
      }
      var results := ReadResults(rec.value);
      if results.None? {
        return Written(revision.store, ErrorPopup);
      }
      return Written(revision.store, Shown(results.value.0, results.value.1));
    }
  }
}
