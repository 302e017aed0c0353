/**
 * The PEST control file `test.pst` as parameter estimation handles it: the
 * file `pestgen` wrote is read into sections (a line holding `*` opens one),
 * the parameter rows get the bounds the user chose, the model command and
 * the template and instruction file pairs are filled in, and the sections
 * are written back after a `pcf` line.
 */
module PestControl {
  import opened Wrappers
  import opened Text
  import opened Collections
  import opened Sections

  const ParameterData: string := "* parameter data"
  const CommandLine: string := "* model command line"
  const InputOutput: string := "* model input/output"

  // ------------------------------------------------------------ reading

  /**
   * One pass of the reading loop: a line holding `*` opens the section it
   * names (without its '\n'); any other line, once a section is open, is
   * added to it without its '\n'; lines before the first header are dropped.
   */
  function ControlStep(g: Grouping, line: string): Grouping {
    if Contains(line, "*") then Grouping(Some(Remove(line, '\n')), g.store)
    else if g.curr.Some? && g.curr.value != [] then Grouping(g.curr, Append(g.store, g.curr.value, Remove(line, '\n')))
    else g
  }

  /** The reading loop over `readlines()`; no header is stored twice. */
  function GroupControl(lines: seq<string>): (g: Grouping)
    ensures Unique(g.store)
  {
    if lines == [] then Grouping(None, [])
    else ControlStep(GroupControl(lines[..|lines| - 1]), lines[|lines| - 1])
  }

  lemma GroupControlSnoc(front: seq<string>, line: string)
    ensures GroupControl(front + [line]) == ControlStep(GroupControl(front), line)
  {
    assert (front + [line])[..|front|] == front;
  }

  method ReadControl(lines: seq<string>) returns (store: Store)
    ensures store == GroupControl(lines).store
  {
    var curr: Option<string> := None;
    store := [];
    for i := 0 to |lines|
      invariant Grouping(curr, store) == GroupControl(lines[..i])
    {
      assert lines[..i + 1][..i] == lines[..i];
      var line := lines[i];
      if Contains(line, "*") {
        curr := Some(Remove(line, '\n'));
      } else if curr.Some? && curr.value != [] {
        store := Append(store, curr.value, Remove(line, '\n'));
      }
    }
    assert lines[..|lines|] == lines;
  }

  /** Lines without `*` before the first header leave nothing behind. */
  lemma {:induction false} PreambleIgnored(pre: seq<string>, rest: seq<string>)
    requires forall i :: 0 <= i < |pre| ==> !Contains(pre[i], "*")
    ensures GroupControl(pre + rest) == GroupControl(rest)
  {
    if rest == [] {
      assert pre + rest == pre;
      PreambleEmpty(pre);
    } else {
      var init, last := rest[..|rest| - 1], rest[|rest| - 1];
      assert (pre + rest)[..|pre + rest| - 1] == pre + init;
      assert (pre + rest)[|pre + rest| - 1] == last;
      PreambleIgnored(pre, init);
    }
  }

  lemma {:induction false} PreambleEmpty(pre: seq<string>)
    requires forall i :: 0 <= i < |pre| ==> !Contains(pre[i], "*")
    ensures GroupControl(pre) == Grouping(None, [])
  {
    if pre != [] {
      PreambleEmpty(pre[..|pre| - 1]);
    }
  }

  /** The lines without their '\n'. */
  function Unbroken(lines: seq<string>): (r: seq<string>)
    ensures |r| == |lines| && forall i :: 0 <= i < |lines| ==> r[i] == Remove(lines[i], '\n')
  {
    seq(|lines|, i requires 0 <= i < |lines| => Remove(lines[i], '\n'))
  }

  lemma UnbrokenSnoc(init: seq<string>, last: string)
    ensures Unbroken(init + [last]) == Unbroken(init) + [Remove(last, '\n')]
  {
  }

  /** A header line is never empty once its '\n' is removed, since it holds `*`. */
  lemma HeaderNotEmpty(marker: string)
    requires Contains(marker, "*")
    ensures Remove(marker, '\n') != []
  {
    ContainsChar(marker, '*');
    RemoveKeeps(marker, '*', '\n');
  }

  /**
   * The lines after a header, up to the next header, are added in order to
   * that header's section, and no other section changes.
   */
  lemma {:induction false} SectionCollects(lines: seq<string>, marker: string, body: seq<string>)
    requires Contains(marker, "*")
    requires forall i :: 0 <= i < |body| ==> !Contains(body[i], "*")
    ensures GroupControl(lines + [marker] + body).curr == Some(Remove(marker, '\n'))
    ensures Get(GroupControl(lines + [marker] + body).store, Remove(marker, '\n')) ==
      Get(GroupControl(lines).store, Remove(marker, '\n')) + Unbroken(body)
    ensures forall k :: k != Remove(marker, '\n') ==>
      Get(GroupControl(lines + [marker] + body).store, k) == Get(GroupControl(lines).store, k)
  {
    var h := Remove(marker, '\n');
    HeaderNotEmpty(marker);
    var g := GroupControl(lines);
    if body == [] {
      assert lines + [marker] + body == lines + [marker];
      HeaderOpensSection(lines, marker);
    } else {
      var init, last := body[..|body| - 1], body[|body| - 1];
      assert body == init + [last];
      SectionCollects(lines, marker, init);
      CollectsOneMore(lines, marker, init, last);
    }
  }

  /** One more line of the section's body: the step of `SectionCollects`. */
  lemma CollectsOneMore(lines: seq<string>, marker: string, init: seq<string>, last: string)
    requires Contains(marker, "*") && !Contains(last, "*")
    requires GroupControl(lines + [marker] + init).curr == Some(Remove(marker, '\n'))
    requires Get(GroupControl(lines + [marker] + init).store, Remove(marker, '\n')) ==
      Get(GroupControl(lines).store, Remove(marker, '\n')) + Unbroken(init)
    requires forall k :: k != Remove(marker, '\n') ==>
      Get(GroupControl(lines + [marker] + init).store, k) == Get(GroupControl(lines).store, k)
    ensures GroupControl(lines + [marker] + (init + [last])).curr == Some(Remove(marker, '\n'))
    ensures Get(GroupControl(lines + [marker] + (init + [last])).store, Remove(marker, '\n')) ==
      Get(GroupControl(lines).store, Remove(marker, '\n')) + Unbroken(init + [last])
    ensures forall k :: k != Remove(marker, '\n') ==>
      Get(GroupControl(lines + [marker] + (init + [last])).store, k) == Get(GroupControl(lines).store, k)
  {
    var h := Remove(marker, '\n');
    HeaderNotEmpty(marker);
    var front := lines + [marker] + init;
    assert lines + [marker] + (init + [last]) == front + [last];
    var g0 := GroupControl(front);
    GroupControlSnoc(front, last);
    SectionStep(g0, h, last);
    CollectStep(GroupControl(lines), g0, ControlStep(g0, last), h, init, last);
  }

  /** A header line opens its section and changes no lines. */
  lemma HeaderOpensSection(lines: seq<string>, marker: string)
    requires Contains(marker, "*")
    ensures GroupControl(lines + [marker]).curr == Some(Remove(marker, '\n'))
    ensures GroupControl(lines + [marker]).store == GroupControl(lines).store
  {
    GroupControlSnoc(lines, marker);
  }

  /** The induction step of `SectionCollects`, on the groupings alone. */
  lemma CollectStep(g: Grouping, g0: Grouping, g1: Grouping, h: string, init: seq<string>, last: string)
    requires Get(g0.store, h) == Get(g.store, h) + Unbroken(init)
    requires forall k :: k != h ==> Get(g0.store, k) == Get(g.store, k)
    requires forall k :: Get(g1.store, k) == Get(g0.store, k) + (if k == h then [Remove(last, '\n')] else [])
    ensures Get(g1.store, h) == Get(g.store, h) + Unbroken(init + [last])
    ensures forall k :: k != h ==> Get(g1.store, k) == Get(g.store, k)
  {
    UnbrokenSnoc(init, last);
    assert Get(g1.store, h) == Get(g0.store, h) + [Remove(last, '\n')];
  }

  /** A line without `*` read while section `h` is open is added to `h` alone. */
  lemma SectionStep(g0: Grouping, h: string, last: string)
    requires g0.curr == Some(h) && h != [] && !Contains(last, "*") && Unique(g0.store)
    ensures ControlStep(g0, last).curr == Some(h)
    ensures forall k :: Get(ControlStep(g0, last).store, k) == Get(g0.store, k) + (if k == h then [Remove(last, '\n')] else [])
  {
    forall k ensures Get(ControlStep(g0, last).store, k) == Get(g0.store, k) + (if k == h then [Remove(last, '\n')] else []) {
      GetAppend(g0.store, h, Remove(last, '\n'), k);
    }
  }

  // ------------------------------------------------------------ writing

  /** The lines of the sections in order, each header followed by its lines. */
  function Flat(store: Store): seq<string> {
    if store == [] then []
    else
      var s := store[|store| - 1];
      Flat(store[..|store| - 1]) + [s.header] + s.body
  }

  /** `test.pst` as written back: `pcf`, then each section's lines, each line with its '\n'. */
  function ControlText(store: Store): string {
    Terminated(["pcf"] + Flat(store))
  }

  /** The writing loop: each header with its '\n', then, for a section that has lines, those lines joined by '\n' and a final '\n'. */
  method WriteControl(store: Store) returns (text: string)
    ensures text == ControlText(store)
  {
    text := "pcf\n";
    assert text == Terminated(["pcf"] + Flat(store[..0]));
    for i := 0 to |store|
      invariant text == Terminated(["pcf"] + Flat(store[..i]))
    {
      var s := store[i];
      SectionWritten(["pcf"] + Flat(store[..i]), s);
      assert store[..i + 1] == store[..i] + [s];
      assert ["pcf"] + Flat(store[..i + 1]) == (["pcf"] + Flat(store[..i])) + ([s.header] + s.body);
      text := text + s.header + "\n";
      if s.body != [] {
        text := text + Join("\n", s.body) + "\n";
      }
    }
    assert store[..|store|] == store;
  }

  /** What the loop writes for one section: its header, then its lines if it has any. */
  lemma SectionWritten(prev: seq<string>, s: Section)
    ensures Terminated(prev + ([s.header] + s.body)) ==
      Terminated(prev) + s.header + "\n" + (if s.body != [] then Join("\n", s.body) + "\n" else [])
  {
    TerminatedAppend(prev, [s.header] + s.body);
    assert Terminated([s.header] + s.body) == s.header + "\n" + Terminated(s.body);
    if s.body != [] {
      JoinNewlineTerminated(s.body);
    }
  }

  /** A header the file gives back whole: it holds `*`, and no `'\n'` or `'\r'`, at which a text-mode read ends a line. */
  predicate HeaderLine(h: string) {
    Contains(h, "*") && '\n' !in h && '\r' !in h
  }

  /** A section line the file gives back whole: no `*`, no `'\n'` and no `'\r'`. */
  predicate BodyLine(l: string) {
    !Contains(l, "*") && '\n' !in l && '\r' !in l
  }

  /**
   * Sections the file can hold so that reading gives them back: no header
   * twice, every header a line holding `*`, every section with at least one
   * line, none holding `*`.
   */
  predicate Writable(store: Store) {
    Unique(store) &&
    forall i :: 0 <= i < |store| ==>
      HeaderLine(store[i].header) && store[i].body != [] &&
      forall j :: 0 <= j < |store[i].body| ==> BodyLine(store[i].body[j])
  }

  /** Writing the sections and reading the file back gives the same sections in the same order. */
  lemma ControlRoundTrip(store: Store)
    requires Writable(store)
    ensures GroupControl(ReadLines(ControlText(store))).store == store
  {
    var lines := ["pcf"] + Flat(store);
    var body := WithBreaks(Flat(store));
    FlatIsLines(store);
    assert '\n' !in "pcf";
    assert forall i :: 0 <= i < |lines| ==> '\n' !in lines[i];
    ReadLinesTerminated(lines);
    WithBreaksAppend(["pcf"], Flat(store));
    assert "pcf" + "\n" == "pcf\n";
    assert WithBreaks(["pcf"])[0] == "pcf\n";
    assert WithBreaks(["pcf"]) == ["pcf\n"];
    assert ReadLines(ControlText(store)) == ["pcf\n"] + body;
    PcfIsNoHeader();
    PreambleIgnored(["pcf\n"], body);
    FlatGroups(store);
  }

  lemma PcfIsNoHeader()
    ensures forall i :: 0 <= i < |["pcf\n"]| ==> !Contains(["pcf\n"][i], "*")
  {
    ContainsChar("pcf\n", '*');
    assert '*' !in "pcf\n";
  }

  lemma {:induction false} FlatIsLines(store: Store)
    requires Writable(store)
    ensures forall i :: 0 <= i < |Flat(store)| ==> '\n' !in Flat(store)[i]
  {
    if store != [] {
      var init, s := store[..|store| - 1], store[|store| - 1];
      WritablePrefix(store);
      FlatIsLines(init);
      var f := Flat(store);
      assert f == Flat(init) + [s.header] + s.body;
      forall i | 0 <= i < |f| ensures '\n' !in f[i] {
        if i < |Flat(init)| {
          assert f[i] == Flat(init)[i];
        } else if i > |Flat(init)| {
          assert f[i] == s.body[i - |Flat(init)| - 1];
        }
      }
    }
  }

  lemma WritablePrefix(store: Store)
    requires Writable(store) && store != []
    ensures Writable(store[..|store| - 1])
    ensures forall i :: 0 <= i < |store| - 1 ==> store[i].header != store[|store| - 1].header
  {
    var n := |store|;
    var init := store[..n - 1];
    assert Headers(init) == Headers(store)[..n - 1];
    forall i | 0 <= i < n - 1 ensures store[i].header != store[n - 1].header {
      assert Headers(store)[i] == store[i].header && Headers(store)[n - 1] == store[n - 1].header;
    }
  }

  /** Reading the written lines of the sections gives the sections. */
  lemma {:induction false} FlatGroups(store: Store)
    requires Writable(store)
    ensures GroupControl(WithBreaks(Flat(store))).store == store
  {
    if store == [] {
      assert WithBreaks([]) == [];
    } else {
      var init, s := store[..|store| - 1], store[|store| - 1];
      WritablePrefix(store);
      FlatGroups(init);
      var before := WithBreaks(Flat(init));
      FlatSnoc(store);
      HeaderOpens(before, s.header, init);
      assert s.body != [] && store == init + [Section(s.header, s.body)];
      assert forall i :: 0 <= i < |init| ==> init[i].header != s.header;
      BodyExtends(before + [s.header + "\n"], s.header, init, s.body);
    }
  }

  lemma FlatSnoc(store: Store)
    requires store != []
    ensures var init, s := store[..|store| - 1], store[|store| - 1];
      WithBreaks(Flat(store)) == (WithBreaks(Flat(init)) + [s.header + "\n"]) + WithBreaks(s.body)
  {
    var init, s := store[..|store| - 1], store[|store| - 1];
    assert Flat(store) == Flat(init) + [s.header] + s.body;
    WithBreaksAppend(Flat(init) + [s.header], s.body);
    WithBreaksAppend(Flat(init), [s.header]);
  }

  /** Reading a written header line opens its section and keeps the sections read so far. */
  lemma HeaderOpens(before: seq<string>, h: string, init: Store)
    requires GroupControl(before).store == init && HeaderLine(h)
    ensures GroupControl(before + [h + "\n"]) == Grouping(Some(h), init)
    ensures h != []
  {
    GroupControlSnoc(before, h + "\n");
    ContainsChar(h, '*');
    ContainsChar(h + "\n", '*');
    RemoveBreak(h);
  }

  /** The sections read once `body` (possibly empty) was read into the new last section `h`. */
  function Opened(init: Store, h: string, body: seq<string>): Store {
    if body == [] then init else init + [Section(h, body)]
  }

  /** The written lines of a section's body, after its header was read, make up that section. */
  lemma {:induction false} BodyExtends(lines: seq<string>, h: string, init: Store, body: seq<string>)
    requires GroupControl(lines) == Grouping(Some(h), init)
    requires h != [] && Unique(init) && forall i :: 0 <= i < |init| ==> init[i].header != h
    requires forall j :: 0 <= j < |body| ==> BodyLine(body[j])
    ensures GroupControl(lines + WithBreaks(body)) == Grouping(Some(h), Opened(init, h, body))
  {
    if body == [] {
      assert lines + WithBreaks(body) == lines;
    } else {
      var front, last := body[..|body| - 1], body[|body| - 1];
      assert body == front + [last];
      WithBreaksAppend(front, [last]);
      assert lines + WithBreaks(body) == (lines + WithBreaks(front)) + [last + "\n"];
      GroupControlSnoc(lines + WithBreaks(front), last + "\n");
      BodyExtends(lines, h, init, front);
      BodyStep(h, init, front, last);
    }
  }

  /** One more written body line is added to the open last section. */
  lemma BodyStep(h: string, init: Store, front: seq<string>, last: string)
    requires h != [] && Unique(init) && forall i :: 0 <= i < |init| ==> init[i].header != h
    requires BodyLine(last)
    ensures ControlStep(Grouping(Some(h), Opened(init, h, front)), last + "\n") ==
      Grouping(Some(h), Opened(init, h, front + [last]))
  {
    ContainsChar(last + "\n", '*');
    ContainsChar(last, '*');
    assert '*' !in last + "\n";
    RemoveBreak(last);
    var current := Opened(init, h, front);
    assert ControlStep(Grouping(Some(h), current), last + "\n") == Grouping(Some(h), Append(current, h, last));
    if front == [] {
      assert Find(init, h) < 0;
      assert front + [last] == [last];
      assert Append(init, h, last) == init + [Section(h, [last])];
    } else {
      var before := init + [Section(h, front)];
      assert Headers(before) == Headers(init) + [h];
      FindUnique(before, h);
      assert Find(before, h) == |init|;
      assert Append(before, h, last) == before[|init| := Section(h, front + [last])];
      assert before[|init| := Section(h, front + [last])] == init + [Section(h, front + [last])];
    }
  }

  // ------------------------------------------------------------ bounds

  datatype Bounds = Bounds(lower: string, upper: string)

  /**
   * The bounds `pestgen` put in the parameter rows: token 0 names the
   * parameter, tokens 4 and 5 are its lower and upper bound, and a later row
   * for the same name wins. `None` when a row has fewer than six tokens
   * (IndexError).
   */
  function BoundsOf(rows: seq<string>): (r: Option<map<string, Bounds>>)
    ensures r.Some? <==> forall i :: 0 <= i < |rows| ==> |Split(rows[i])| >= 6
  {
    if rows == [] then Some(map[])
    else
      var init, last := rows[..|rows| - 1], rows[|rows| - 1];
      var prev := BoundsOf(init);
      var t := Split(last);
      if prev.None? || |t| < 6 then
        assert prev.None? ==> exists i :: 0 <= i < |init| && |Split(init[i])| < 6 && rows[i] == init[i];
        None
      else
        Some(prev.value[t[0] := Bounds(t[4], t[5])])
  }

  /** Row `i` is the last row naming `name`. */
  predicate LastRowOf(rows: seq<string>, name: string, i: int)
    requires 0 <= i < |rows|
  {
    Split(rows[i]) != [] && Split(rows[i])[0] == name &&
    forall j :: i < j < |rows| ==> Split(rows[j]) == [] || Split(rows[j])[0] != name
  }

  /** Every parameter named by a row gets the bounds of the last row that names it. */
  lemma {:induction false} BoundsOfLastRow(rows: seq<string>)
    requires BoundsOf(rows).Some?
    ensures forall i :: 0 <= i < |rows| && LastRowOf(rows, Split(rows[i])[0], i) ==>
      Split(rows[i])[0] in BoundsOf(rows).value &&
      BoundsOf(rows).value[Split(rows[i])[0]] == Bounds(Split(rows[i])[4], Split(rows[i])[5])
  {
    if rows != [] {
      var init, t := rows[..|rows| - 1], Split(rows[|rows| - 1]);
      BoundsPrefix(rows);
      BoundsOfLastRow(init);
      forall i | 0 <= i < |rows| && LastRowOf(rows, Split(rows[i])[0], i)
        ensures Split(rows[i])[0] in BoundsOf(rows).value &&
          BoundsOf(rows).value[Split(rows[i])[0]] == Bounds(Split(rows[i])[4], Split(rows[i])[5])
      {
        if i < |rows| - 1 {
          LastRowInit(rows, Split(rows[i])[0], i);
        }
      }
    }
  }

  /** No name gets bounds unless a row names it. */
  lemma {:induction false} BoundsNamed(rows: seq<string>)
    requires BoundsOf(rows).Some?
    ensures forall name :: name in BoundsOf(rows).value ==> exists i :: 0 <= i < |rows| && LastRowOf(rows, name, i)
  {
    if rows != [] {
      var init, t := rows[..|rows| - 1], Split(rows[|rows| - 1]);
      BoundsPrefix(rows);
      BoundsNamed(init);
      assert LastRowOf(rows, t[0], |rows| - 1);
      forall name | name in BoundsOf(rows).value ensures exists i :: 0 <= i < |rows| && LastRowOf(rows, name, i) {
        if name != t[0] {
          var i :| 0 <= i < |init| && LastRowOf(init, name, i);
          LastRowExtend(rows, name, i);
        }
      }
    }
  }

  lemma BoundsPrefix(rows: seq<string>)
    requires BoundsOf(rows).Some? && rows != []
    ensures var init, t := rows[..|rows| - 1], Split(rows[|rows| - 1]);
      BoundsOf(init).Some? && |t| >= 6 && BoundsOf(rows).value == BoundsOf(init).value[t[0] := Bounds(t[4], t[5])]
  {
  }

  lemma LastRowInit(rows: seq<string>, name: string, i: nat)
    requires i < |rows| - 1 && LastRowOf(rows, name, i)
    ensures LastRowOf(rows[..|rows| - 1], name, i)
    ensures Split(rows[|rows| - 1]) == [] || Split(rows[|rows| - 1])[0] != name
  {
  }

  lemma LastRowExtend(rows: seq<string>, name: string, i: nat)
    requires rows != [] && i < |rows| - 1 && LastRowOf(rows[..|rows| - 1], name, i)
    requires Split(rows[|rows| - 1]) != [] && Split(rows[|rows| - 1])[0] != name
    ensures LastRowOf(rows, name, i)
  {
  }

  /** The extraction loop over the parameter rows. */
  method ReadBounds(rows: seq<string>) returns (r: Option<map<string, Bounds>>)
    ensures r == BoundsOf(rows)
  {
    var found: map<string, Bounds> := map[];
    for i := 0 to |rows|
      invariant BoundsOf(rows[..i]) == Some(found)
    {
      assert rows[..i + 1][..i] == rows[..i] && rows[..i + 1][i] == rows[i];
      var t := Split(rows[i]);
      if |t| < 6 {
        assert BoundsOf(rows[..i + 1]).None?;
        BoundsNone(rows, i + 1);
        return None;
      }
      found := found[t[0] := Bounds(t[4], t[5])];
    }
    assert rows[..|rows|] == rows;
    return Some(found);
  }

  lemma BoundsNone(rows: seq<string>, n: nat)
    requires n <= |rows| && BoundsOf(rows[..n]).None?
    ensures BoundsOf(rows).None?
  {
    var i :| 0 <= i < n && |Split(rows[..n][i])| < 6;
    assert rows[..n][i] == rows[i];
  }

  // ------------------------------------------------------------ rewriting

  /**
   * A parameter row with the bounds the user chose: its first four tokens,
   * the new lower and upper bound, then its tokens after the sixth, joined
   * by two spaces. `None` when the row has fewer than four tokens
   * (IndexError) or the parameter has no chosen bounds (KeyError).
   */
  function RewriteRow(row: string, limits: map<string, Bounds>): Option<string> {
    var t := Split(row);
    if |t| < 4 || t[0] !in limits then None
    else Some(Join("  ", t[..4] + [limits[t[0]].lower, limits[t[0]].upper] + From(t, 6)))
  }

  /** Splitting a rewritten row gives its tokens back with the two bounds replaced. */
  lemma RewriteRowTokens(row: string, limits: map<string, Bounds>)
    requires forall name :: name in limits ==> IsWord(limits[name].lower) && IsWord(limits[name].upper)
    ensures RewriteRow(row, limits).Some? <==> |Split(row)| >= 4 && Split(row)[0] in limits
    ensures RewriteRow(row, limits).Some? ==>
      var t := Split(row);
      Split(RewriteRow(row, limits).value) == t[..4] + [limits[t[0]].lower, limits[t[0]].upper] + From(t, 6)
  {
    var t := Split(row);
    if |t| >= 4 && t[0] in limits {
      var words := t[..4] + [limits[t[0]].lower, limits[t[0]].upper] + From(t, 6);
      forall i | 0 <= i < |words| ensures IsWord(words[i]) {
        if i < 4 {
          assert words[i] == t[i];
        } else if i >= 6 {
          assert words[i] == t[i];
        }
      }
      assert AllSpace("  ");
      SplitJoin("  ", words, []);
      assert Join("  ", words) + [] == Join("  ", words);
    }
  }

  /**
   * The rewriting loop: every parameter row replaced, in place, by its
   * rewritten form; no other section changes. `None` when a row cannot be
   * rewritten.
   */
  method RewriteParameters(store: Store, limits: map<string, Bounds>) returns (r: Option<Store>)
    requires Unique(store)
    ensures var rows := Get(store, ParameterData);
      r.Some? <==> forall i :: 0 <= i < |rows| ==> RewriteRow(rows[i], limits).Some?
    ensures r.Some? ==> Unique(r.value) && Headers(r.value) == Headers(store)
    ensures r.Some? ==> var rows := Get(store, ParameterData);
      |Get(r.value, ParameterData)| == |rows| &&
      forall i :: 0 <= i < |rows| ==> Get(r.value, ParameterData)[i] == RewriteRow(rows[i], limits).value
    ensures r.Some? ==> forall k :: k != ParameterData ==> Get(r.value, k) == Get(store, k)
  {
    var rows := Get(store, ParameterData);
    var cur := store;
    for i := 0 to |rows|
      invariant Unique(cur) && Headers(cur) == Headers(store)
      invariant |Get(cur, ParameterData)| == |rows|
      invariant forall j :: 0 <= j < i ==>
        RewriteRow(rows[j], limits).Some? && Get(cur, ParameterData)[j] == RewriteRow(rows[j], limits).value
      invariant forall j :: i <= j < |rows| ==> Get(cur, ParameterData)[j] == rows[j]
      invariant forall k :: k != ParameterData ==> Get(cur, k) == Get(store, k)
    {
      var line := RewriteRow(rows[i], limits);
      if line.None? {
        return None;
      }
      GetSetLineAll(cur, ParameterData, i, line.value);
      cur := SetLine(cur, ParameterData, i, line.value);
    }
    return Some(cur);
  }

  /**
   * Setting the model command to `test` and the template and instruction
   * file pairs: reading a missing section inserts it empty, and a section
   * too short for the line set raises IndexError (`None`).
   */
  method SetRunFiles(store: Store) returns (r: Option<Store>)
    requires Unique(store)
    ensures r.Some? <==> |Get(store, CommandLine)| >= 1 && |Get(store, InputOutput)| >= 2
    ensures r.Some? ==> Unique(r.value) && Headers(r.value) == Headers(store)
    ensures r.Some? ==> Get(r.value, CommandLine) == Get(store, CommandLine)[0 := "test"]
    ensures r.Some? ==>
      Get(r.value, InputOutput) == Get(store, InputOutput)[0 := "in_1.tpl  in_1.dat"][1 := "output.ins  output.dat"]
    ensures r.Some? ==> forall k :: k != CommandLine && k != InputOutput ==> Get(r.value, k) == Get(store, k)
  {
    SectionNamesDiffer();
    var cur := Touch(store, CommandLine);
    if |Get(cur, CommandLine)| < 1 {
      return None;
    }
    assert cur == store;
    var s1 := SetLine(cur, CommandLine, 0, "test");
    GetSetLineAll(cur, CommandLine, 0, "test");
    var s2 := Touch(s1, InputOutput);
    if |Get(s2, InputOutput)| < 1 {
      return None;
    }
    assert s2 == s1;
    var s3 := SetLine(s2, InputOutput, 0, "in_1.tpl  in_1.dat");
    GetSetLineAll(s2, InputOutput, 0, "in_1.tpl  in_1.dat");
    if |Get(s3, InputOutput)| < 2 {
      return None;
    }
    var s4 := SetLine(s3, InputOutput, 1, "output.ins  output.dat");
    GetSetLineAll(s3, InputOutput, 1, "output.ins  output.dat");
    return Some(s4);
  }

  // ------------------------------------------------------------ the whole revision

  /** The sections of `test.pst` as `pestgen` left it, once the parameter section has been read (which inserts it when missing). */
  function PestSections(pst: string): (store: Store)
    ensures Unique(store)
  {
    Touch(GroupControl(ReadLines(pst)).store, ParameterData)
  }

  /**
   * `revised` is `store` with every parameter row rewritten with `limits`,
   * the model command set to `test` and the two file pairs set; the same
   * sections in the same order, every other line as it was.
   */
  ghost predicate Revises(store: Store, limits: map<string, Bounds>, revised: Store) {
    var rows := Get(store, ParameterData);
    Headers(revised) == Headers(store) &&
    |Get(revised, ParameterData)| == |rows| &&
    (forall i :: 0 <= i < |rows| ==> RewriteRow(rows[i], limits) == Some(Get(revised, ParameterData)[i])) &&
    |Get(store, CommandLine)| >= 1 && Get(revised, CommandLine) == Get(store, CommandLine)[0 := "test"] &&
    |Get(store, InputOutput)| >= 2 &&
    Get(revised, InputOutput) == Get(store, InputOutput)[0 := "in_1.tpl  in_1.dat"][1 := "output.ins  output.dat"] &&
    forall k :: k != ParameterData && k != CommandLine && k != InputOutput ==> Get(revised, k) == Get(store, k)
  }

  /** The bounds chosen for `pst`'s parameters: `None` when a parameter row is too short to read or the dialog is cancelled. */
  function ChosenLimits(pst: string, choose: map<string, Bounds> -> Option<map<string, Bounds>>): Option<map<string, Bounds>> {
    var bounds := BoundsOf(Get(PestSections(pst), ParameterData));
    if bounds.None? then None else choose(bounds.value)
  }

  /** Whether `test.pst` can be revised: bounds were chosen, every parameter row takes them, and the command and file-pair lines exist. */
  predicate Revisable(pst: string, choose: map<string, Bounds> -> Option<map<string, Bounds>>) {
    var store := PestSections(pst);
    var rows := Get(store, ParameterData);
    var limits := ChosenLimits(pst, choose);
    limits.Some? && (forall i :: 0 <= i < |rows| ==> RewriteRow(rows[i], limits.value).Some?) &&
    |Get(store, CommandLine)| >= 1 && |Get(store, InputOutput)| >= 2
  }

  /** How the revision of `test.pst` ends: the sections and text written back, the limit dialog cancelled, or an exception. */
  datatype Revision = Revised(store: Store, text: string) | Cancelled | Raised

  /**
   * From reading `test.pst` to the text written back. `choose` is the limit
   * dialog: shown the bounds read, it returns the bounds chosen, or `None`
   * when it is cancelled. A parameter row too short to read raises before
   * the dialog opens.
   */
  method ReviseControl(pst: string, choose: map<string, Bounds> -> Option<map<string, Bounds>>) returns (r: Revision)
    ensures var bounds := BoundsOf(Get(PestSections(pst), ParameterData));
      r == Cancelled <==> bounds.Some? && choose(bounds.value).None?
    ensures r.Revised? <==> Revisable(pst, choose)
    ensures r.Revised? ==>
      Unique(r.store) && r.text == ControlText(r.store) &&
      Revises(PestSections(pst), ChosenLimits(pst, choose).value, r.store)
  {
    var store := ReadControl(ReadLines(pst));
    store := Touch(store, ParameterData);
    assert store == PestSections(pst);
    var bounds := ReadBounds(Get(store, ParameterData));
    if bounds.None? {
      assert ChosenLimits(pst, choose).None?;
      return Raised;
    }
    var limits := choose(bounds.value);
    assert limits == ChosenLimits(pst, choose);
    if limits.None? {
      return Cancelled;
    }
    var rewritten := RewriteParameters(store, limits.value);
    if rewritten.None? {
      assert !Revisable(pst, choose);
      return Raised;
    }
    var mid := rewritten.value;
    SectionNamesDiffer();
    assert Get(mid, CommandLine) == Get(store, CommandLine) && Get(mid, InputOutput) == Get(store, InputOutput);
    var filled := SetRunFiles(mid);
    if filled.None? {
      return Raised;
    }
    RevisedInTwoSteps(store, limits.value, mid, filled.value);
    var text := WriteControl(filled.value);
    return Revised(filled.value, text);
  }

  /** A store whose parameter rows were rewritten, then whose command and file pairs were set, is a revision of the first. */
  lemma RevisedInTwoSteps(store: Store, limits: map<string, Bounds>, mid: Store, revised: Store)
    requires Headers(mid) == Headers(store)
    requires var rows := Get(store, ParameterData);
      |Get(mid, ParameterData)| == |rows| &&
      forall i :: 0 <= i < |rows| ==> RewriteRow(rows[i], limits) == Some(Get(mid, ParameterData)[i])
    requires forall k :: k != ParameterData ==> Get(mid, k) == Get(store, k)
    requires Headers(revised) == Headers(mid)
    requires |Get(mid, CommandLine)| >= 1 && Get(revised, CommandLine) == Get(mid, CommandLine)[0 := "test"]
    requires |Get(mid, InputOutput)| >= 2 &&
      Get(revised, InputOutput) == Get(mid, InputOutput)[0 := "in_1.tpl  in_1.dat"][1 := "output.ins  output.dat"]
    requires forall k :: k != CommandLine && k != InputOutput ==> Get(revised, k) == Get(mid, k)
    ensures Revises(store, limits, revised)
  {
    SectionNamesDiffer();
    assert Get(revised, ParameterData) == Get(mid, ParameterData);
    assert Get(mid, CommandLine) == Get(store, CommandLine);
    assert Get(mid, InputOutput) == Get(store, InputOutput);
    forall k | k != ParameterData && k != CommandLine && k != InputOutput
      ensures Get(revised, k) == Get(store, k)
    {
      assert Get(revised, k) == Get(mid, k);
    }
  }

  lemma SectionNamesDiffer()
    ensures CommandLine != ParameterData && InputOutput != ParameterData && CommandLine != InputOutput
  {
    assert CommandLine[2] != ParameterData[2] && InputOutput[2] != ParameterData[2];
    assert CommandLine[8] != InputOutput[8];
  }
}
