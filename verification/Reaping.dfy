/** Runs of the session pool over time: idle sessions are reaped within a bounded delay, and the two assumptions the
    other pool results rest on (the limit fits an int, the random id is fresh) are shown to be exactly what is needed. */
module Reaping {
  import opened Bytes
  import opened SessionPool

  function StateAt(init: State, steps: seq<Step>, k: nat): State
    requires Legal(init, steps) && k <= |steps|
    decreases |steps|
  {
    if k == |steps| then After(init, steps) else StateAt(init, steps[..|steps| - 1], k)
  }

  lemma {:induction false} StepAt(init: State, steps: seq<Step>, k: nat)
    requires Legal(init, steps) && k < |steps|
    ensures Enabled(StateAt(init, steps, k), steps[k])
    ensures StateAt(init, steps, k + 1) == Apply(StateAt(init, steps, k), steps[k])
    decreases |steps|
  {
    var front := steps[..|steps| - 1];
    if k == |front| {
      assert StateAt(init, steps, k) == StateAt(init, front, k) == After(init, front);
    } else {
      StepAt(init, front, k);
    }
  }

  lemma {:induction false} InvAt(concurrency: uint, timeout: nat, steps: seq<Step>, k: nat)
    requires Legal(Init(concurrency, timeout), steps) && k <= |steps|
    ensures var s := StateAt(Init(concurrency, timeout), steps, k); PoolInv(s) && s.timeout == timeout
    decreases |steps|
  {
    if k == |steps| {
      Always(concurrency, timeout, steps);
    } else {
      InvAt(concurrency, timeout, steps[..|steps| - 1], k);
    }
  }

  lemma {:induction false} Later(init: State, steps: seq<Step>, a: nat, b: nat)
    requires Legal(init, steps) && a <= b <= |steps|
    ensures StateAt(init, steps, a).now <= StateAt(init, steps, b).now
    ensures |StateAt(init, steps, a).table| <= |StateAt(init, steps, b).table|
    decreases b
  {
    if a < b {
      Later(init, steps, a, b - 1);
      StepAt(init, steps, b - 1);
      ConstantSettings(StateAt(init, steps, b - 1), steps[b - 1]);
    }
  }

  lemma PeakMoves(s: State, step: Step)
    requires Enabled(s, step)
    ensures Apply(s, step).peak != s.peak ==> Apply(s, step).peak == Sum(Counts(Apply(s, step).table))
  {
    hide Sum, Counts;
  }

  lemma PeakStep(s: State, step: Step)
    requires Enabled(s, step) && Inv(s)
    ensures var t := Apply(s, step); s.peak <= t.peak && Sum(Counts(t.table)) <= t.peak
    ensures var t := Apply(s, step); t.peak == s.peak || t.peak == Sum(Counts(t.table))
  {
    hide Enabled, Apply, PoolInv, CapInv, ScanInv, BoundInv, Sum, Counts;
    StepPeak(s, step);
    PeakMoves(s, step);
  }

  lemma Earlier(init: State, steps: seq<Step>, i: nat)
    requires Legal(init, steps) && i <= |steps|
    ensures i == |steps| ==> StateAt(init, steps, i) == After(init, steps)
    ensures i < |steps| ==> Legal(init, steps[..|steps| - 1]) && StateAt(init, steps, i) == StateAt(init, steps[..|steps| - 1], i)
  {
    hide Enabled, Apply;
  }

  lemma PeakStarts(concurrency: uint, timeout: nat)
    ensures Legal(Init(concurrency, timeout), [])
    ensures After(Init(concurrency, timeout), []).peak == 0 == Sum(Counts(After(Init(concurrency, timeout), []).table))
  {
  }

  /** The recorded peak is the number of open streams at some moment of the run, and never exceeded. */
  lemma {:induction false} PeakReached(concurrency: uint, timeout: nat, steps: seq<Step>) returns (k: nat)
    requires Legal(Init(concurrency, timeout), steps)
    ensures k <= |steps|
    ensures Sum(Counts(StateAt(Init(concurrency, timeout), steps, k).table)) == After(Init(concurrency, timeout), steps).peak
    ensures forall i | 0 <= i <= |steps| ::
      Sum(Counts(StateAt(Init(concurrency, timeout), steps, i).table)) <= After(Init(concurrency, timeout), steps).peak
    decreases |steps|
  {
    hide *;
    var init := Init(concurrency, timeout);
    Earlier(init, steps, |steps|);
    if steps == [] {
      PeakStarts(concurrency, timeout);
      k := 0;
    } else {
      var front := steps[..|steps| - 1];
      LastStep(init, steps);
      Always(concurrency, timeout, front);
      PeakStep(After(init, front), steps[|front|]);
      k := PeakReached(concurrency, timeout, front);
      Earlier(init, steps, k);
      forall i | 0 <= i <= |steps|
        ensures Sum(Counts(StateAt(init, steps, i).table)) <= After(init, steps).peak
      {
        Earlier(init, steps, i);
      }
      if After(init, steps).peak != After(init, front).peak {
        k := |steps|;
      }
    }
  }

  /** Session h is in the pool. */
  ghost predicate Has(s: State, h: Handle) {
    h < |s.table| && s.table[h].id in s.pool && s.pool[s.table[h].id] == h
  }

  /** h has no open stream from position i of the run on. */
  ghost predicate IdleFrom(init: State, steps: seq<Step>, h: Handle, i: nat)
    requires Legal(init, steps)
  {
    forall k | i <= k <= |steps| :: h < |StateAt(init, steps, k).table| && StateAt(init, steps, k).table[h].streams == 0
  }

  /** Steps j to e - 1 are, for the cleaner, one complete tick pass. */
  ghost predicate Pass(steps: seq<Step>, j: nat, e: nat) {
    j + 1 < e <= |steps| && steps[j] == LockClean && steps[e - 1] == CleanDone &&
    forall m | j < m < e - 1 :: steps[m] != CleanDone
  }

  lemma StaysOut(s: State, step: Step, h: Handle)
    requires Enabled(s, step) && PoolInv(s) && h < |s.table| && !Has(s, h)
    ensures !Has(Apply(s, step), h)
  {
    hide PcInv, Sum, Counts;
  }

  lemma ChangesTime(s: State, step: Step, h: Handle)
    requires Enabled(s, step) && MapInv(s) && !MovesOn(step) && h < |s.table| && Apply(s, step).table[h].streams == 0
    ensures !Has(Apply(s, step), h) || Apply(s, step).table[h].lastActive == s.table[h].lastActive
  {
    hide Sum, Counts;
  }

  lemma KeepsTime(s: State, step: Step, h: Handle)
    requires Enabled(s, step) && PoolInv(s) && h < |s.table|
    requires h < |Apply(s, step).table| && Apply(s, step).table[h].streams == 0
    ensures !Has(Apply(s, step), h) || Apply(s, step).table[h].lastActive == s.table[h].lastActive
  {
    hide Enabled, Apply, MapInv, PcInv, Has;
    if MovesOn(step) {
      MovesOnly(s, step);
    } else {
      ChangesTime(s, step, h);
    }
  }

  /** During a pass, a session that has expired is gone, still to be visited, or being visited. */
  ghost predicate Doomed(s: State, h: Handle, active: nat) {
    h < |s.table| &&
    (!Has(s, h) ||
      (s.table[h].lastActive == active && s.now > active + s.timeout &&
        match s.pc
        case Cleaning(todo) => s.table[h].id in todo
        case CleanChecked(id, todo) => s.table[h].id == id || s.table[h].id in todo
        case CleanIdle(id, todo) => s.table[h].id == id || s.table[h].id in todo
        case _ => false))
  }

  lemma PassStarts(s: State, h: Handle)
    requires Enabled(s, LockClean) && PoolInv(s) && h < |s.table| && s.now > s.table[h].lastActive + s.timeout
    ensures Doomed(Apply(s, LockClean), h, s.table[h].lastActive)
  {
  }

  lemma PassDrift(s: State, step: Step, h: Handle, active: nat)
    requires Enabled(s, step) && Doomed(s, h, active) && Has(s, h)
    requires step.StreamClosed? || step.Died? || step.Tick?
    ensures Doomed(Apply(s, step), h, active)
  {
    hide Sum, Counts;
  }

  lemma PassTurn(s: State, step: Step, h: Handle, active: nat)
    requires Enabled(s, step) && MapInv(s) && Doomed(s, h, active) && Has(s, h) && s.table[h].streams == 0
    requires !step.StreamClosed? && !step.Died? && !step.Tick?
    ensures step != CleanDone && Doomed(Apply(s, step), h, active)
  {
    hide Sum, Counts;
  }

  lemma PassStep(s: State, step: Step, h: Handle, active: nat)
    requires Enabled(s, step) && PoolInv(s) && Doomed(s, h, active) && s.table[h].streams == 0
    ensures step == CleanDone ==> !Has(Apply(s, step), h)
    ensures step != CleanDone ==> Doomed(Apply(s, step), h, active)
  {
    assert MapInv(s);
    if !Has(s, h) {
      StaysOut(s, step, h);
      hide Enabled, Apply, PoolInv, Has, MapInv;
      ConstantSettings(s, step);
    } else {
      hide Enabled, Apply, PoolInv, Has, MapInv, Doomed;
      if step.StreamClosed? || step.Died? || step.Tick? {
        PassDrift(s, step, h, active);
      } else {
        PassTurn(s, step, h, active);
      }
    }
  }

  lemma IdleAt(init: State, steps: seq<Step>, h: Handle, i: nat, k: nat)
    requires Legal(init, steps) && IdleFrom(init, steps, h, i) && i <= k <= |steps|
    ensures h < |StateAt(init, steps, k).table| && StateAt(init, steps, k).table[h].streams == 0
  {
    hide Legal, StateAt;
  }

  lemma InsidePass(steps: seq<Step>, j: nat, e: nat, k: nat)
    requires Pass(steps, j, e) && j <= k < e
    ensures e <= |steps| && (k == j ==> steps[k] == LockClean) && (k == e - 1 <==> steps[k] == CleanDone)
  {
  }

  lemma {:induction false} BeforePass(concurrency: uint, timeout: nat, steps: seq<Step>, h: Handle, i: nat, k: nat)
    requires Legal(Init(concurrency, timeout), steps) && i <= k <= |steps| && IdleFrom(Init(concurrency, timeout), steps, h, i)
    ensures var s := StateAt(Init(concurrency, timeout), steps, k);
      !Has(s, h) || s.table[h].lastActive == StateAt(Init(concurrency, timeout), steps, i).table[h].lastActive
    decreases k
  {
    hide *;
    if i < k {
      var init := Init(concurrency, timeout);
      BeforePass(concurrency, timeout, steps, h, i, k - 1);
      StepAt(init, steps, k - 1);
      InvAt(concurrency, timeout, steps, k - 1);
      IdleAt(init, steps, h, i, k - 1);
      IdleAt(init, steps, h, i, k);
      var s := StateAt(init, steps, k - 1);
      KeepsTime(s, steps[k - 1], h);
      if !Has(s, h) {
        StaysOut(s, steps[k - 1], h);
      }
    }
  }

  lemma {:induction false} OutForGood(concurrency: uint, timeout: nat, steps: seq<Step>, h: Handle, a: nat, k: nat)
    requires Legal(Init(concurrency, timeout), steps) && a <= k <= |steps|
    requires h < |StateAt(Init(concurrency, timeout), steps, a).table| && !Has(StateAt(Init(concurrency, timeout), steps, a), h)
    ensures !Has(StateAt(Init(concurrency, timeout), steps, k), h)
    decreases k
  {
    hide *;
    if a < k {
      var init := Init(concurrency, timeout);
      OutForGood(concurrency, timeout, steps, h, a, k - 1);
      StepAt(init, steps, k - 1);
      InvAt(concurrency, timeout, steps, k - 1);
      Later(init, steps, a, k - 1);
      StaysOut(StateAt(init, steps, k - 1), steps[k - 1], h);
    }
  }

  lemma {:induction false} DuringPass(concurrency: uint, timeout: nat, steps: seq<Step>, h: Handle,
                                      i: nat, j: nat, e: nat, k: nat)
    requires Legal(Init(concurrency, timeout), steps) && IdleFrom(Init(concurrency, timeout), steps, h, i)
    requires i <= j < k < e && Pass(steps, j, e)
    requires var s := StateAt(Init(concurrency, timeout), steps, j); Has(s, h) && s.now > s.table[h].lastActive + timeout
    ensures var init := Init(concurrency, timeout);
      Doomed(StateAt(init, steps, k), h, StateAt(init, steps, j).table[h].lastActive)
    decreases k
  {
    hide *;
    var init := Init(concurrency, timeout);
    InsidePass(steps, j, e, k - 1);
    StepAt(init, steps, k - 1);
    InvAt(concurrency, timeout, steps, k - 1);
    IdleAt(init, steps, h, i, j);
    IdleAt(init, steps, h, i, k - 1);
    var s := StateAt(init, steps, k - 1);
    if k == j + 1 {
      PassStarts(s, h);
    } else {
      DuringPass(concurrency, timeout, steps, h, i, j, e, k - 1);
      PassStep(s, steps[k - 1], h, StateAt(init, steps, j).table[h].lastActive);
    }
  }

  /** One complete pass that starts after an idle session has expired takes it out of the pool for good. */
  lemma Reaped(concurrency: uint, timeout: nat, steps: seq<Step>, h: Handle, i: nat, j: nat, e: nat)
    requires Legal(Init(concurrency, timeout), steps) && IdleFrom(Init(concurrency, timeout), steps, h, i)
    requires i <= j && Pass(steps, j, e)
    requires StateAt(Init(concurrency, timeout), steps, j).now >
             StateAt(Init(concurrency, timeout), steps, i).table[h].lastActive + timeout
    ensures !Has(StateAt(Init(concurrency, timeout), steps, |steps|), h)
  {
    var init := Init(concurrency, timeout);
    var s := StateAt(init, steps, j);
    BeforePass(concurrency, timeout, steps, h, i, j);
    if Has(s, h) {
      DuringPass(concurrency, timeout, steps, h, i, j, e, e - 1);
      StepAt(init, steps, e - 1);
      InvAt(concurrency, timeout, steps, e - 1);
      PassStep(StateAt(init, steps, e - 1), CleanDone, h, s.table[h].lastActive);
      OutForGood(concurrency, timeout, steps, h, e, |steps|);
    } else {
      OutForGood(concurrency, timeout, steps, h, j, |steps|);
    }
  }

  /** A complete pass starts after `from` and ends within `gap` of it. */
  ghost predicate PassIn(init: State, steps: seq<Step>, from: nat, gap: nat)
    requires Legal(init, steps)
  {
    exists j: nat, e: nat ::
      Pass(steps, j, e) && from < StateAt(init, steps, j).now && StateAt(init, steps, e).now <= from + gap
  }

  /** In every window of length `gap` that lies inside the run the cleaner makes a complete pass. */
  ghost predicate PassesWithin(init: State, steps: seq<Step>, gap: nat)
    requires Legal(init, steps)
  {
    forall from: nat :: from + gap < After(init, steps).now ==> PassIn(init, steps, from, gap)
  }

  lemma PassFound(init: State, steps: seq<Step>, from: nat, gap: nat) returns (j: nat, e: nat)
    requires Legal(init, steps) && PassesWithin(init, steps, gap) && from + gap < After(init, steps).now
    ensures Pass(steps, j, e) && from < StateAt(init, steps, j).now
  {
    hide Legal, After, StateAt;
    assert PassIn(init, steps, from, gap);
    j, e :| Pass(steps, j, e) && from < StateAt(init, steps, j).now && StateAt(init, steps, e).now <= from + gap;
  }

  function Max(a: nat, b: nat): nat {
    if a >= b then a else b
  }

  /** Timed reaping: a session without streams from time t on is out of the pool once the time
      max(t, lastActive + timeout) + gap has passed, where gap bounds the time between cleaner passes. */
  lemma TimedReaping(concurrency: uint, timeout: nat, steps: seq<Step>, h: Handle, i: nat, gap: nat)
    requires Legal(Init(concurrency, timeout), steps) && i <= |steps|
    requires IdleFrom(Init(concurrency, timeout), steps, h, i) && PassesWithin(Init(concurrency, timeout), steps, gap)
    requires var s := StateAt(Init(concurrency, timeout), steps, i);
      After(Init(concurrency, timeout), steps).now > Max(s.now, s.table[h].lastActive + timeout) + gap
    ensures !Has(After(Init(concurrency, timeout), steps), h)
  {
    var init := Init(concurrency, timeout);
    assert StateAt(init, steps, |steps|) == After(init, steps);
    var s := StateAt(init, steps, i);
    IdleAt(init, steps, h, i, i);
    var from := Max(s.now, s.table[h].lastActive + timeout);
    assert s.now <= from && s.table[h].lastActive + timeout <= from;
    hide *;
    var j, e := PassFound(init, steps, from, gap);
    if j < i {
      Later(init, steps, j, i);
    }
    Reaped(concurrency, timeout, steps, h, i, j, e);
  }

  // ----- The assumptions are needed -----

  lemma Extend(init: State, steps: seq<Step>, step: Step)
    requires Legal(init, steps) && Enabled(After(init, steps), step)
    ensures Legal(init, steps + [step]) && After(init, steps + [step]) == Apply(After(init, steps), step)
  {
    assert (steps + [step])[..|steps|] == steps;
  }

  lemma CountsOf(table: seq<Session>)
    ensures |table| == 0 ==> Counts(table) == []
    ensures |table| == 1 ==> Counts(table) == [table[0].streams]
    ensures |table| == 2 ==> Counts(table) == [table[0].streams, table[1].streams]
  {
  }

  lemma SumOnes()
    ensures Sum([1]) == 1 && Sum([1, 1]) == 2
  {
    SumSnoc([], 1);
    SumSnoc([1], 1);
    assert [] + [1] == [1] && [1] + [1] == [1, 1];
  }

  /** A dial that finds the pool empty. */
  lemma FirstScan(concurrency: uint, timeout: nat) returns (steps: seq<Step>)
    ensures Legal(Init(concurrency, timeout), steps)
    ensures After(Init(concurrency, timeout), steps) ==
      State(concurrency, timeout, 0, [], map[], Dialling, false, 0, [])
  {
    var init := Init(concurrency, timeout);
    assert Legal(init, []) && After(init, []) == init == State(concurrency, timeout, 0, [], map[], Free, false, 0, []);
    hide *;
    LockTurn(init);
    Extend(init, [], LockDial);
    CountsOf([]);
    var s := init.(pc := Scanning({}), atLock := []);
    assert init.pool.Keys == {};
    UnlockTurn(s);
    Extend(init, [] + [LockDial], ScanDone);
    steps := [] + [LockDial] + [ScanDone];
  }

  /** A dial that has found no room takes the id for a session of its own and opens a stream on it. */
  lemma OwnSession(init: State, steps: seq<Step>, id: MuxId) returns (longer: seq<Step>)
    requires Legal(init, steps) && After(init, steps).pc == Dialling
    ensures Legal(init, longer)
    ensures var s, t := After(init, steps), After(init, longer);
      t == s.(table := s.table + [Session(id, 1, false, s.now)], pool := s.pool[id := |s.table|], pc := Free,
              peak := if Sum(Counts(t.table)) > s.peak then Sum(Counts(t.table)) else s.peak)
  {
    hide Legal, After, Enabled, Apply, Sum, Counts;
    var s := After(init, steps);
    InsertTurn(s, id);
    Extend(init, steps, Insert(id));
    var t := After(init, steps + [Insert(id)]);
    assert t.table[|s.table|] == Session(id, 0, false, 0);
    OpenTurn(t, id);
    Extend(init, steps + [Insert(id)], OpenOk);
    longer := steps + [Insert(id)] + [OpenOk];
    assert t.table[|s.table| := Session(id, 1, false, s.now)] == s.table + [Session(id, 1, false, s.now)];
  }

  /** The first session. */
  lemma FirstDial(concurrency: uint, timeout: nat, a: MuxId) returns (steps: seq<Step>)
    ensures Legal(Init(concurrency, timeout), steps)
    ensures After(Init(concurrency, timeout), steps) ==
      State(concurrency, timeout, 0, [Session(a, 1, false, 0)], map[a := 0], Free, false, 1, [])
  {
    hide *;
    var scanned := FirstScan(concurrency, timeout);
    steps := OwnSession(Init(concurrency, timeout), scanned, a);
    SumOnes();
    CountsOf([Session(a, 1, false, 0)]);
    assert [] + [Session(a, 1, false, 0)] == [Session(a, 1, false, 0)] && map[][a := 0] == map[a := 0];
  }

  /** A second dial that scans the first session and finds no room. */
  lemma SecondScan(concurrency: uint, timeout: nat, a: MuxId) returns (steps: seq<Step>)
    requires !HasRoom(concurrency, 1)
    ensures Legal(Init(concurrency, timeout), steps)
    ensures After(Init(concurrency, timeout), steps) ==
      State(concurrency, timeout, 0, [Session(a, 1, false, 0)], map[a := 0], Dialling, false, 1, [1])
  {
    hide Legal, After, Enabled, Apply, Init, Counts, HasRoom;
    var init := Init(concurrency, timeout);
    var first := FirstDial(concurrency, timeout, a);
    var s := After(init, first);
    CountsOf(s.table);
    LockTurn(s);
    Extend(init, first, LockDial);
    var s1 := s.(pc := Scanning({a}), atLock := [1]);
    assert s.pool.Keys == {a};
    ScanTurn(s1, a, {a});
    Extend(init, first + [LockDial], ScanAlive(a));
    var s2 := s1.(pc := Checked(a, {}));
    assert {a} - {a} == {};
    RoomTurn(s2, a, {});
    Extend(init, first + [LockDial] + [ScanAlive(a)], ScanFull);
    var s3 := s2.(pc := Scanning({}));
    UnlockTurn(s3);
    Extend(init, first + [LockDial] + [ScanAlive(a)] + [ScanFull], ScanDone);
    steps := first + [LockDial] + [ScanAlive(a)] + [ScanFull] + [ScanDone];
  }

  /** It then takes the id b for a session of its own. */
  lemma SecondDial(concurrency: uint, timeout: nat, a: MuxId, b: MuxId) returns (steps: seq<Step>)
    requires !HasRoom(concurrency, 1)
    ensures Legal(Init(concurrency, timeout), steps)
    ensures var s := After(Init(concurrency, timeout), steps);
      && s.table == [Session(a, 1, false, 0), Session(b, 1, false, 0)]
      && s.pool == map[a := 0][b := 1] && s.pc == Free && s.peak == 2
  {
    hide *;
    var scanned := SecondScan(concurrency, timeout, a);
    steps := OwnSession(Init(concurrency, timeout), scanned, b);
    SumOnes();
    var table := [Session(a, 1, false, 0), Session(b, 1, false, 0)];
    CountsOf(table);
    assert [Session(a, 1, false, 0)] + [Session(b, 1, false, 0)] == table;
  }

  ghost predicate BoundHolds(concurrency: uint, timeout: nat, steps: seq<Step>)
    requires Legal(Init(concurrency, timeout), steps)
  {
    var s := After(Init(concurrency, timeout), steps);
    (|s.pool| - 1) * concurrency <= s.peak
  }

  /** For a concurrency above zero, the session bound holds of every run exactly when it fits an int: above that, int()
      turns it negative, no session ever has room, and every dial opens a new one. */
  lemma BoundIffFits(concurrency: uint, timeout: nat)
    requires concurrency > 0
    ensures (forall steps | Legal(Init(concurrency, timeout), steps) :: BoundHolds(concurrency, timeout, steps))
            <==> concurrency < 0x8000_0000_0000_0000
  {
    if concurrency == IntOfUint(concurrency) {
      forall steps | Legal(Init(concurrency, timeout), steps)
        ensures BoundHolds(concurrency, timeout, steps)
      {
        SessionBound(concurrency, timeout, steps);
      }
    } else {
      var steps := SecondDial(concurrency, timeout, 1, 2);
      assert !BoundHolds(concurrency, timeout, steps) by {
        var s := After(Init(concurrency, timeout), steps);
        assert s.pool == map[1 := 0, 2 := 1];
        assert s.pool.Keys == {1, 2};
      }
    }
  }

  /** If the random id collides, the overwritten session is neither in the map nor closed. */
  lemma CollisionLosesSession(timeout: nat, a: MuxId) returns (steps: seq<Step>)
    ensures Legal(Init(1, timeout), steps) && !Custody(After(Init(1, timeout), steps))
  {
    steps := SecondDial(1, timeout, a, a);
    var s := After(Init(1, timeout), steps);
    assert !s.table[0].closed && s.table[0].id == a && s.pool[a] == 1;
  }
}
