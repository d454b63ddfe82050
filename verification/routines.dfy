/** `fn::queue`: routines that run after a timeout, at most once per
    interval, for a limited duration, until their function returns 0. The
    game clock is a parameter `now`; each routine's function is represented
    by the value it returns when called. */
module Routines {
  import opened Base

  datatype Routine = Routine(timeout: real, interval: real, duration: real,
                             lastUpdate: real, started: real, id: nat, destroy: bool)

  datatype Queue = Queue(idNext: nat)

  function Init(): (q: Queue)
    ensures q.idNext == 0
  {
    Queue(0)
  }

  /** `initRoutine`: the routine starts now, gets the next id, and the id
      counter moves on (a 32-bit counter, so it wraps). A duration of 0 is
      documented as "run forever". */
  function InitRoutine(q: Queue, now: real, timeout: real, interval: real, duration: real): (res: (Queue, Routine))
    requires q.idNext < UINT_MODULUS
    ensures res.1 == Routine(timeout, interval, duration, now, now, q.idNext, false)
    ensures res.0.idNext < UINT_MODULUS && res.0.idNext == (q.idNext + 1) % UINT_MODULUS
  {
    (Queue((q.idNext + 1) % UINT_MODULUS), Routine(timeout, interval, duration, now, now, q.idNext, false))
  }

  function SetTimeout(q: Queue, now: real, timeout: real): (res: (Queue, Routine))
    requires q.idNext < UINT_MODULUS
    ensures res.1.timeout == timeout && res.1.interval == 0.0 && res.1.duration == 0.0
  {
    InitRoutine(q, now, timeout, 0.0, 0.0)
  }

  function SetInterval(q: Queue, now: real, interval: real): (res: (Queue, Routine))
    requires q.idNext < UINT_MODULUS
    ensures res.1.timeout == 0.0 && res.1.interval == interval && res.1.duration == 0.0
  {
    InitRoutine(q, now, 0.0, interval, 0.0)
  }

  function SetDuration(q: Queue, now: real, duration: real): (res: (Queue, Routine))
    requires q.idNext < UINT_MODULUS
    ensures res.1.timeout == 0.0 && res.1.interval == 0.0 && res.1.duration == duration
  {
    InitRoutine(q, now, 0.0, 0.0, duration)
  }

  /** The run test of `update` as written: the duration bound applies even
      when the duration is 0. */
  predicate DueAsWritten(r: Routine, now: real)
  {
    && !r.destroy
    && now - r.started > r.timeout
    && now - r.lastUpdate > r.interval
    && now - r.started < r.duration
  }

  /** The run test as documented: a duration of 0 means no end. */
  predicate Due(r: Routine, now: real)
  {
    && !r.destroy
    && now - r.started > r.timeout
    && now - r.lastUpdate > r.interval
    && (r.duration == 0.0 || now - r.started < r.duration)
  }

  /** The two tests differ exactly on routines without an end. */
  lemma DueTestsAgree(r: Routine, now: real)
    requires now >= r.started
    ensures r.duration != 0.0 ==> (Due(r, now) <==> DueAsWritten(r, now))
    ensures r.duration == 0.0 ==> !DueAsWritten(r, now)
  {
  }

  /** As written, a routine made by `setTimeout` or `setInterval` never
      runs: its duration is 0 and the elapsed time is never below 0. */
  lemma TimeoutNeverRunsAsWritten(q: Queue, start: real, timeout: real, interval: real, now: real)
    requires q.idNext < UINT_MODULUS && now >= start
    ensures !DueAsWritten(SetTimeout(q, start, timeout).1, now)
    ensures !DueAsWritten(SetInterval(q, start, interval).1, now)
  {
  }

  /** Corrected, a timeout runs as soon as more than its timeout (and more
      than no time at all) has passed, and an interval routine as soon as
      more than its interval has. */
  lemma TimeoutRuns(q: Queue, start: real, timeout: real, interval: real, now: real)
    requires q.idNext < UINT_MODULUS
    ensures Due(SetTimeout(q, start, timeout).1, now) <==> now - start > timeout && now > start
    ensures Due(SetInterval(q, start, interval).1, now) <==> now - start > interval && now > start
  {
  }

  /** The run test `update` applies: the documented one, or the one the code
      writes. */
  predicate Runs(r: Routine, now: real, documented: bool)
  {
    if documented then Due(r, now) else DueAsWritten(r, now)
  }

  /** One routine's part of `update`: when it passes the run test, its
      function is called with result `val`, the call time is recorded and a
      0 result marks it for destruction; otherwise the mark is cleared. */
  function Step(r: Routine, now: real, val: int, documented: bool): (r2: Routine)
    ensures r2.timeout == r.timeout && r2.interval == r.interval && r2.duration == r.duration
    ensures r2.started == r.started && r2.id == r.id
    ensures Runs(r, now, documented) ==> r2.lastUpdate == now && (r2.destroy <==> val == 0)
    ensures !Runs(r, now, documented) ==> r2 == r.(destroy := false)
  {
    if Runs(r, now, documented) then r.(lastUpdate := now, destroy := val == 0) else r.(destroy := false)
  }

  /** Indices at or above `i` whose routine passes the run test, highest
      first. */
  function DueFrom(rs: seq<Routine>, now: real, i: nat, documented: bool): (c: seq<nat>)
    requires i <= |rs|
    ensures forall k :: 0 <= k < |c| ==> i <= c[k] < |rs| && Runs(rs[c[k]], now, documented)
    ensures forall k, l :: 0 <= k < l < |c| ==> c[k] > c[l]
    decreases |rs| - i
  {
    if i == |rs| then []
    else DueFrom(rs, now, i + 1, documented) + (if Runs(rs[i], now, documented) then [i] else [])
  }

  /** `update`. The routines are visited from the last to the first; the
      functions of the ones that pass the run test are called in that order,
      and each routine ends as `Step` leaves it. `results[i]` is what routine
      `i`'s function returns if it is called. With `documented` false the
      duration bound is the code's `now - started < duration`; with it true,
      a duration of 0 means no end. */
  method Update(routines: seq<Routine>, now: real, results: seq<int>, documented: bool)
    returns (rs: seq<Routine>, calls: seq<nat>)
    requires |results| == |routines|
    ensures |rs| == |routines|
    ensures forall i :: 0 <= i < |rs| ==> rs[i] == Step(routines[i], now, results[i], documented)
    ensures calls == DueFrom(routines, now, 0, documented)
  {
    rs := routines;
    calls := [];
    var i := |routines|;
    while i > 0
      invariant 0 <= i <= |routines| && |rs| == |routines|
      invariant forall k :: 0 <= k < i ==> rs[k] == routines[k]
      invariant forall k :: i <= k < |rs| ==> rs[k] == Step(routines[k], now, results[k], documented)
      invariant calls == DueFrom(routines, now, i, documented)
    {
      i := i - 1;
      var r := rs[i];
      var ends := if documented then r.duration == 0.0 || now - r.started < r.duration
                  else now - r.started < r.duration;
      if !r.destroy && now - r.started > r.timeout && now - r.lastUpdate > r.interval && ends {
        calls := calls + [i];
        rs := rs[i := r.(lastUpdate := now, destroy := results[i] == 0)];
      } else {
        rs := rs[i := r.(destroy := false)];
      }
    }
  }

  /** Every routine that passes the run test is called exactly once, and no
      other. */
  lemma {:induction false} CallsAreDue(rs: seq<Routine>, now: real, i: nat, j: nat, documented: bool)
    requires i <= j < |rs|
    ensures j in DueFrom(rs, now, i, documented) <==> Runs(rs[j], now, documented)
    decreases |rs| - i
  {
    if i < j {
      CallsAreDue(rs, now, i + 1, j, documented);
    } else {
      var c := DueFrom(rs, now, i + 1, documented);
      assert i !in c;
    }
  }

  /** As written, `update` never calls a routine without an end (one made by
      `setTimeout` or `setInterval`) and only clears its mark. */
  lemma EndlessSkippedAsWritten(rs: seq<Routine>, now: real, results: seq<int>, j: nat)
    requires |results| == |rs| && j < |rs|
    requires rs[j].duration == 0.0 && now >= rs[j].started
    ensures j !in DueFrom(rs, now, 0, false)
    ensures Step(rs[j], now, results[j], false) == rs[j].(destroy := false)
  {
    CallsAreDue(rs, now, 0, j, false);
  }

  /** On routines that all have an end, the code's test and the documented
      one run the same functions and leave the same routines. */
  lemma {:induction false} TestsAgreeWithEnds(rs: seq<Routine>, now: real, i: nat)
    requires i <= |rs|
    requires forall k :: 0 <= k < |rs| ==> rs[k].duration != 0.0 && now >= rs[k].started
    ensures DueFrom(rs, now, i, false) == DueFrom(rs, now, i, true)
    ensures forall k, v :: 0 <= k < |rs| ==> Step(rs[k], now, v, false) == Step(rs[k], now, v, true)
    decreases |rs| - i
  {
    if i < |rs| {
      TestsAgreeWithEnds(rs, now, i + 1);
      DueTestsAgree(rs[i], now);
    }
  }

  /** A routine is never run twice within its interval: after running at
      `now`, it is due again only once more than the interval has passed. */
  lemma IntervalRespected(r: Routine, now: real, val: int, later: real, documented: bool)
    requires Runs(r, now, documented)
    ensures Runs(Step(r, now, val, documented), later, documented) ==> later - now > r.interval
  {
  }

  /** The destroy mark lasts one update: a routine whose function returned 0
      is skipped by the next update, which clears the mark, so the update
      after that can run it again. */
  lemma DestroyMarkLastsOneUpdate(r: Routine, t1: real, t2: real, t3: real, v1: int, documented: bool)
    requires Runs(r, t1, documented)
    requires t3 - r.started > r.timeout && t3 - t1 > r.interval
    requires if documented then r.duration == 0.0 || t3 - r.started < r.duration
             else t3 - r.started < r.duration
    ensures Step(r, t1, 0, documented).destroy
    ensures !Runs(Step(r, t1, 0, documented), t2, documented)
    ensures !Step(Step(r, t1, 0, documented), t2, v1, documented).destroy
    ensures Runs(Step(Step(r, t1, 0, documented), t2, v1, documented), t3, documented)
  {
  }

  /** The ids handed out by `k` consecutive initialisations: consecutive
      modulo 2^32. */
  function Ids(q: Queue, now: real, k: nat): (res: (Queue, seq<nat>))
    requires q.idNext < UINT_MODULUS
    ensures res.0.idNext < UINT_MODULUS && |res.1| == k
    decreases k
  {
    if k == 0 then (q, [])
    else
      var (q1, r) := InitRoutine(q, now, 0.0, 0.0, 0.0);
      var rest := Ids(q1, now, k - 1);
      (rest.0, [r.id] + rest.1)
  }

  lemma {:induction false} IdsConsecutive(q: Queue, now: real, k: nat)
    requires q.idNext < UINT_MODULUS
    ensures Ids(q, now, k).0.idNext == (q.idNext + k) % UINT_MODULUS
    ensures forall i :: 0 <= i < k ==> Ids(q, now, k).1[i] == (q.idNext + i) % UINT_MODULUS
    decreases k
  {
    if k > 0 {
      var q1 := InitRoutine(q, now, 0.0, 0.0, 0.0).0;
      IdsConsecutive(q1, now, k - 1);
      ConsecutiveCons(q.idNext, Ids(q1, now, k - 1).1);
      ModAdd(q.idNext, k - 1);
    }
  }

  /** Putting `a` in front of the run that starts at `a + 1` gives the run
      that starts at `a`, modulo 2^32. */
  lemma ConsecutiveCons(a: nat, xs: seq<nat>)
    requires a < UINT_MODULUS
    requires forall i :: 0 <= i < |xs| ==> xs[i] == ((a + 1) % UINT_MODULUS + i) % UINT_MODULUS
    ensures forall i :: 0 <= i < |xs| + 1 ==> ([a] + xs)[i] == (a + i) % UINT_MODULUS
  {
    forall i | 0 <= i < |xs| + 1
      ensures ([a] + xs)[i] == (a + i) % UINT_MODULUS
    {
      if i > 0 {
        ModAdd(a, i - 1);
      }
    }
  }

  lemma ModAdd(a: nat, i: nat)
    ensures ((a + 1) % UINT_MODULUS + i) % UINT_MODULUS == (a + (i + 1)) % UINT_MODULUS
  {
    var m := UINT_MODULUS;
    var b := (a + 1) % m;
    assert a + 1 == (a + 1) / m * m + b;
  }

  /** Up to 2^32 initialisations hand out distinct ids. */
  lemma IdsUnique(q: Queue, now: real, k: nat, i: nat, j: nat)
    requires q.idNext < UINT_MODULUS && k <= UINT_MODULUS
    requires i < j < k
    ensures Ids(q, now, k).1[i] != Ids(q, now, k).1[j]
  {
    IdsConsecutive(q, now, k);
    var m := UINT_MODULUS;
    var a := q.idNext;
    if (a + i) % m == (a + j) % m {
      assert a + j == (a + i) + (j - i);
      ModDiff(a + i, j - i);
    }
  }

  lemma ModDiff(x: nat, d: nat)
    requires 0 < d < UINT_MODULUS
    ensures (x + d) % UINT_MODULUS != x % UINT_MODULUS
  {
    var m := UINT_MODULUS;
    var q := x / m;
    var r := x % m;
    assert x == q * m + r;
    if r + d < m {
      assert x + d == q * m + (r + d);
      assert (x + d) % m == r + d;
    } else {
      assert x + d == (q + 1) * m + (r + d - m);
      assert (x + d) % m == r + d - m;
    }
  }
}
