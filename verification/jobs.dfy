/**
 * The queue of executable runs. Each run is a job numbered when it is
 * launched; a sweep pops every queued job once, puts a live one back at the
 * tail and draws the plots for a finished one. Whether a job is still
 * running is a predicate `alive`, fixed for the length of one sweep.
 */
module Jobs {
  import opened Collections

  /** The jobs of `queue` still running, in queue order. */
  function Live(queue: seq<nat>, alive: nat -> bool): (r: seq<nat>)
    ensures |r| <= |queue|
  {
    if queue == [] then []
    else
      var last := queue[|queue| - 1];
      assert queue == queue[..|queue| - 1] + [last];
      Live(queue[..|queue| - 1], alive) + (if alive(last) then [last] else [])
  }

  /** The jobs of `queue` that have finished, in queue order. */
  function Dead(queue: seq<nat>, alive: nat -> bool): (r: seq<nat>)
    ensures |r| <= |queue|
  {
    if queue == [] then []
    else
      var last := queue[|queue| - 1];
      assert queue == queue[..|queue| - 1] + [last];
      Dead(queue[..|queue| - 1], alive) + (if alive(last) then [] else [last])
  }

  /** A job is kept exactly when it was queued and is running, drawn exactly when it was queued and has finished. */
  lemma {:induction false} SweepMembers(queue: seq<nat>, alive: nat -> bool)
    ensures forall j :: j in Live(queue, alive) <==> j in queue && alive(j)
    ensures forall j :: j in Dead(queue, alive) <==> j in queue && !alive(j)
  {
    if queue != [] {
      var init, last := queue[..|queue| - 1], queue[|queue| - 1];
      assert queue == init + [last];
      SweepMembers(init, alive);
    }
  }

  /** Keeping the live jobs of two queues one after the other is keeping those of each, in the same order. */
  lemma {:induction false} LiveAppend(a: seq<nat>, b: seq<nat>, alive: nat -> bool)
    ensures Live(a + b, alive) == Live(a, alive) + Live(b, alive)
    ensures Dead(a + b, alive) == Dead(a, alive) + Dead(b, alive)
  {
    if b != [] {
      var init, last := b[..|b| - 1], b[|b| - 1];
      assert a + b == (a + init) + [last];
      assert b == init + [last];
      LiveAppend(a, init, alive);
    } else {
      assert a + b == a;
    }
  }

  /** One more job popped: it joins the kept jobs or the drawn ones. */
  lemma SweepStep(queue: seq<nat>, i: nat, alive: nat -> bool)
    requires i < |queue|
    ensures Live(queue[..i + 1], alive) == Live(queue[..i], alive) + (if alive(queue[i]) then [queue[i]] else [])
    ensures Dead(queue[..i + 1], alive) == Dead(queue[..i], alive) + (if alive(queue[i]) then [] else [queue[i]])
  {
    assert queue[..i + 1][..i] == queue[..i];
  }

  /** One pass of the sweep's loop keeps its invariant. */
  lemma PopStep(queue: seq<nat>, i: nat, kept: seq<nat>, drawn: seq<nat>, alive: nat -> bool)
    requires i < |queue|
    requires kept == queue[i..] + Live(queue[..i], alive) && drawn == Dead(queue[..i], alive)
    ensures kept != [] && kept[0] == queue[i]
    ensures alive(queue[i]) ==>
      kept[1..] + [queue[i]] == queue[i + 1..] + Live(queue[..i + 1], alive) && drawn == Dead(queue[..i + 1], alive)
    ensures !alive(queue[i]) ==>
      kept[1..] == queue[i + 1..] + Live(queue[..i + 1], alive) && drawn + [queue[i]] == Dead(queue[..i + 1], alive)
  {
    PopFront(queue, i, Live(queue[..i], alive));
    SweepStep(queue, i, alive);
  }

  /** Popping the head of the jobs not yet visited, ahead of the ones put back. */
  lemma PopFront(queue: seq<nat>, i: nat, back: seq<nat>)
    requires i < |queue|
    ensures (queue[i..] + back)[0] == queue[i]
    ensures (queue[i..] + back)[1..] == queue[i + 1..] + back
  {
  }

  /**
   * One sweep: `len(queue)` pops from the head; a live job goes back to the
   * tail, a finished one is drawn.
   */
  method Sweep(queue: seq<nat>, alive: nat -> bool) returns (kept: seq<nat>, drawn: seq<nat>)
    ensures kept == Live(queue, alive) && drawn == Dead(queue, alive)
  {
    kept := queue;
    drawn := [];
    for i := 0 to |queue|
      invariant kept == queue[i..] + Live(queue[..i], alive)
      invariant drawn == Dead(queue[..i], alive)
    {
      PopStep(queue, i, kept, drawn, alive);
      var job := kept[0];
      kept := kept[1..];
      if alive(job) {
        kept := kept + [job];
      } else {
        drawn := drawn + [job];
      }
    }
    assert queue[..|queue|] == queue;
  }

  /** Every job of the queue is either kept or drawn, never both and never lost. */
  lemma {:induction false} SweepPartitions(queue: seq<nat>, alive: nat -> bool)
    ensures multiset(Live(queue, alive)) + multiset(Dead(queue, alive)) == multiset(queue)
  {
    if queue != [] {
      var init, last := queue[..|queue| - 1], queue[|queue| - 1];
      assert queue == init + [last];
      SweepPartitions(init, alive);
    }
  }

  /** A queue whose jobs are all running is kept as it is; one whose jobs have all finished is emptied. */
  lemma {:induction false} LiveAll(queue: seq<nat>, alive: nat -> bool)
    ensures (forall j :: j in queue ==> alive(j)) ==> Live(queue, alive) == queue && Dead(queue, alive) == []
    ensures (forall j :: j in queue ==> !alive(j)) ==> Live(queue, alive) == [] && Dead(queue, alive) == queue
  {
    if queue != [] {
      var init, last := queue[..|queue| - 1], queue[|queue| - 1];
      assert queue == init + [last];
      assert last in queue && forall j :: j in init ==> j in queue;
      LiveAll(init, alive);
    }
  }

  /** Subsequences of a queue without repeats have no repeats. */
  lemma {:induction false} SweepDistinct(queue: seq<nat>, alive: nat -> bool)
    requires Distinct(queue)
    ensures Distinct(Live(queue, alive)) && Distinct(Dead(queue, alive))
  {
    if queue != [] {
      var init, last := queue[..|queue| - 1], queue[|queue| - 1];
      assert queue == init + [last];
      assert last !in init;
      SweepMembers(init, alive);
      SweepDistinct(init, alive);
    }
  }

  /**
   * The bookkeeping a sweep and a launch keep: no job is both queued and
   * drawn, none is queued or drawn twice, and every one has a number below
   * the next one to hand out.
   */
  predicate JobsValid(queue: seq<nat>, rendered: seq<nat>, next: nat) {
    Distinct(rendered + queue) && forall j :: j in rendered + queue ==> j < next
  }

  /** The state before any job is launched. */
  lemma JobsValidInitially(next: nat)
    ensures JobsValid([], [], next)
  {
  }

  /** Launching job `next` keeps the bookkeeping, with `next + 1` as the next number. */
  lemma LaunchKeepsValid(queue: seq<nat>, rendered: seq<nat>, next: nat)
    requires JobsValid(queue, rendered, next)
    ensures JobsValid(queue + [next], rendered, next + 1)
  {
    var s := rendered + (queue + [next]);
    assert s == (rendered + queue) + [next];
    forall i, j | 0 <= i < j < |s| ensures s[i] != s[j] {
      if j == |s| - 1 {
        assert s[i] in rendered + queue;
      } else {
        assert s[i] == (rendered + queue)[i] && s[j] == (rendered + queue)[j];
      }
    }
  }

  /**
   * A sweep keeps the bookkeeping: the finished jobs move to the drawn list,
   * so a job drawn once is never queued again and never drawn a second time.
   */
  lemma SweepKeepsValid(queue: seq<nat>, rendered: seq<nat>, next: nat, alive: nat -> bool)
    requires JobsValid(queue, rendered, next)
    ensures JobsValid(Live(queue, alive), rendered + Dead(queue, alive), next)
  {
    var live, dead := Live(queue, alive), Dead(queue, alive);
    assert Distinct(rendered) && Distinct(queue) by {
      DistinctParts(rendered, queue);
    }
    SweepDistinct(queue, alive);
    SweepMembers(queue, alive);
    var s := (rendered + dead) + live;
    forall i, j | 0 <= i < j < |s| ensures s[i] != s[j] {
      var x, y := s[i], s[j];
      if j < |rendered| {
        assert x == rendered[i] && y == rendered[j];
      } else if i < |rendered| {
        assert x in rendered;
        assert y in queue;
        DisjointParts(rendered, queue, x, y);
      } else if j < |rendered| + |dead| {
        assert x == dead[i - |rendered|] && y == dead[j - |rendered|];
      } else if i >= |rendered| + |dead| {
        assert x == live[i - |rendered| - |dead|] && y == live[j - |rendered| - |dead|];
      } else {
        assert x in dead && y in live;
      }
    }
    forall j | j in s ensures j < next {
      assert j in rendered || j in dead || j in live;
      assert j in rendered + queue;
    }
  }

  lemma DistinctParts(a: seq<nat>, b: seq<nat>)
    requires Distinct(a + b)
    ensures Distinct(a) && Distinct(b)
  {
    forall i, j | 0 <= i < j < |b| ensures b[i] != b[j] {
      assert b[i] == (a + b)[|a| + i] && b[j] == (a + b)[|a| + j];
    }
    forall i, j | 0 <= i < j < |a| ensures a[i] != a[j] {
      assert a[i] == (a + b)[i] && a[j] == (a + b)[j];
    }
  }

  lemma DisjointParts(a: seq<nat>, b: seq<nat>, x: nat, y: nat)
    requires Distinct(a + b) && x in a && y in b
    ensures x != y
  {
    var i :| 0 <= i < |a| && a[i] == x;
    var j :| 0 <= j < |b| && b[j] == y;
    assert (a + b)[i] == x && (a + b)[|a| + j] == y;
  }
}
