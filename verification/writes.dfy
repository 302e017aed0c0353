/**
 * A run of `write` calls on one file, each argument built just before it is
 * written: building an argument can raise (a `None` concatenated with a
 * string), and the text written before that stays on file.
 */
module FileWrites {
  import opened Wrappers
  import opened Text
  import opened Collections

  /** `x + s` where `x` is a value; None (TypeError) where `x` is None. */
  function Suffix(x: Option<string>, s: string): Option<string> {
    if x.Some? then Some(x.value + s) else None
  }

  function Bind(x: Option<string>, f: string -> Option<string>): Option<string> {
    if x.Some? then f(x.value) else None
  }

  /**
   * A run of `write` calls whose arguments are built one at a time: the text
   * on file when the first argument that cannot be built raises, and whether
   * every argument was written.
   */
  function Emit(pieces: seq<Option<string>>): (string, bool) {
    if pieces == [] then ([], true)
    else
      var e := Emit(pieces[..|pieces| - 1]);
      var last := pieces[|pieces| - 1];
      if e.1 && last.Some? then (e.0 + last.value, true) else (e.0, false)
  }

  predicate AllSome(pieces: seq<Option<string>>) {
    forall i :: 0 <= i < |pieces| ==> pieces[i].Some?
  }

  function Values(pieces: seq<Option<string>>): seq<string>
    requires AllSome(pieces)
  {
    seq(|pieces|, i requires 0 <= i < |pieces| => pieces[i].value)
  }

  /** Every argument is written, and the file holds them in order, exactly when all of them can be built. */
  lemma {:induction false} EmitAll(pieces: seq<Option<string>>)
    ensures Emit(pieces).1 <==> AllSome(pieces)
    ensures AllSome(pieces) ==> Emit(pieces).0 == Concat(Values(pieces))
  {
    if pieces != [] {
      var init := pieces[..|pieces| - 1];
      EmitAll(init);
      if AllSome(pieces) {
        assert AllSome(init);
        assert Values(pieces) == Values(init) + [pieces[|pieces| - 1].value];
        ConcatAppend(Values(init), pieces[|pieces| - 1].value);
      }
    }
  }

  /** A failed write leaves the text of the arguments before the first one that raised. */
  lemma {:induction false} EmitStops(pieces: seq<Option<string>>, n: nat)
    requires n < |pieces| && AllSome(pieces[..n]) && pieces[n].None?
    ensures Emit(pieces) == (Concat(Values(pieces[..n])), false)
  {
    if n + 1 == |pieces| {
      EmitAll(pieces[..n]);
    } else {
      var init := pieces[..|pieces| - 1];
      assert init[..n] == pieces[..n];
      EmitStops(init, n);
    }
  }

  lemma {:induction false} EmitAppend(p: seq<Option<string>>, q: seq<Option<string>>)
    ensures Emit(p + q) == if Emit(p).1 then (Emit(p).0 + Emit(q).0, Emit(q).1) else Emit(p)
  {
    if q == [] {
      assert p + q == p;
      assert Emit(p).0 + Emit(q).0 == Emit(p).0;
    } else {
      var init, last := q[..|q| - 1], q[|q| - 1];
      assert (p + q)[..|p + q| - 1] == p + init;
      assert (p + q)[|p + q| - 1] == last;
      EmitAppend(p, init);
      if Emit(p).1 && Emit(init).1 && last.Some? {
        calc {
          Emit(p + q).0;
          Emit(p + init).0 + last.value;
          (Emit(p).0 + Emit(init).0) + last.value;
          { assert (Emit(p).0 + Emit(init).0) + last.value == Emit(p).0 + (Emit(init).0 + last.value); }
          Emit(p).0 + Emit(q).0;
        }
      }
    }
  }

  lemma {:induction false} ConcatAppend(items: seq<string>, x: string)
    ensures Concat(items + [x]) == Concat(items) + x
  {
    if items != [] {
      assert (items + [x])[1..] == items[1..] + [x];
      ConcatAppend(items[1..], x);
    }
  }

  /** Nothing is written after a write that raised. */
  lemma EmitFailed(p: seq<Option<string>>, q: seq<Option<string>>)
    requires !Emit(p).1
    ensures Emit(p + q) == Emit(p)
  {
    EmitAppend(p, q);
  }




  lemma EmitSnoc(p: seq<Option<string>>, x: Option<string>)
    ensures Emit(p + [x]) == if Emit(p).1 && x.Some? then (Emit(p).0 + x.value, true) else (Emit(p).0, false)
  {
    assert (p + [x])[..|p|] == p;
  }

  /** The writes `x + "\n"`, one per value: a file of one value per line. */
  function LineWrites(xs: seq<Option<string>>): seq<Option<string>> {
    seq(|xs|, i requires 0 <= i < |xs| => Suffix(xs[i], "\n"))
  }

  /** The writes of one row of fields: each value followed by a space, the last one by the end of the line. */
  function FieldWrites(xs: seq<Option<string>>): seq<Option<string>> {
    seq(|xs|, i requires 0 <= i < |xs| => Suffix(xs[i], if i == |xs| - 1 then "\n" else " "))
  }

  /** Line writes succeed exactly when every value exists, and then leave the values one per line. */
  lemma EmitLines(xs: seq<Option<string>>)
    ensures Emit(LineWrites(xs)).1 <==> AllSome(xs)
    ensures AllSome(xs) ==> Emit(LineWrites(xs)).0 == Terminated(Values(xs))
  {
    var w := LineWrites(xs);
    EmitAll(w);
    assert AllSome(w) <==> AllSome(xs) by {
      if AllSome(w) {
        forall i | 0 <= i < |xs| ensures xs[i].Some? {
          assert w[i].Some?;
        }
      }
    }
    if AllSome(xs) {
      ConcatLines(xs);
    }
  }

  lemma {:induction false} ConcatLines(xs: seq<Option<string>>)
    requires AllSome(xs)
    ensures AllSome(LineWrites(xs))
    ensures Concat(Values(LineWrites(xs))) == Terminated(Values(xs))
  {
    if xs != [] {
      ConcatLines(xs[1..]);
      assert Values(LineWrites(xs))[1..] == Values(LineWrites(xs[1..]));
      assert Values(xs)[1..] == Values(xs[1..]);
    }
  }

  /** A value that does not exist stops a run of line writes: the file keeps the lines before it. */
  lemma EmitLinesStop(xs: seq<Option<string>>, n: nat, more: seq<Option<string>>)
    requires n < |xs| && AllSome(xs[..n]) && xs[n].None?
    ensures Emit(LineWrites(xs) + more) == (Terminated(Values(xs[..n])), false)
  {
    var w := LineWrites(xs) + more;
    assert w[..n] == LineWrites(xs[..n]);
    ConcatLines(xs[..n]);
    EmitStops(w, n);
  }

  /** A row's writes succeed exactly when every field exists, and then leave the fields joined by spaces, ending the line. */
  lemma EmitFields(xs: seq<Option<string>>)
    requires xs != []
    ensures Emit(FieldWrites(xs)).1 <==> AllSome(xs)
    ensures AllSome(xs) ==> Emit(FieldWrites(xs)).0 == Join(" ", Values(xs)) + "\n"
  {
    var w := FieldWrites(xs);
    EmitAll(w);
    assert AllSome(w) <==> AllSome(xs) by {
      if AllSome(w) {
        forall i | 0 <= i < |xs| ensures xs[i].Some? {
          assert w[i].Some?;
        }
      }
    }
    if AllSome(xs) {
      ConcatFields(xs);
    }
  }

  lemma {:induction false} ConcatFields(xs: seq<Option<string>>)
    requires xs != [] && AllSome(xs)
    ensures AllSome(FieldWrites(xs))
    ensures Concat(Values(FieldWrites(xs))) == Join(" ", Values(xs)) + "\n"
  {
    if |xs| == 1 {
      assert Values(FieldWrites(xs)) == [xs[0].value + "\n"];
      assert Values(xs) == [xs[0].value];
    } else {
      ConcatFields(xs[1..]);
      assert Values(FieldWrites(xs))[1..] == Values(FieldWrites(xs[1..]));
      assert Values(xs)[1..] == Values(xs[1..]);
    }
  }
}
