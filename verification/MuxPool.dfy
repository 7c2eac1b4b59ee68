/** mux/mux.go as code: DialMux, one tick of cleanLoop and its cancel branch over a mutable session map. While a method
    holds the lock only streams closing, sessions dying and time passing can interfere, and they can do so between any
    two of its actions. Each method starts when it has acquired the lock; what it records in `trace` is a run of the
    step system of module SessionPool, so the results about runs hold of this code. */
module MuxPool {
  import opened Bytes
  import opened SessionPool

  datatype DialResult = Stream(h: Handle) | Failed

  // ----- What other goroutines can do -----

  ghost predicate Emptier(a: seq<Session>, b: seq<Session>) {
    |b| == |a| && forall h | 0 <= h < |a| ::
      && b[h].id == a[h].id && b[h].lastActive == a[h].lastActive
      && b[h].streams <= a[h].streams && (a[h].closed ==> b[h].closed)
  }

  /** Among these steps h loses a stream or dies. */
  predicate Disturbs(steps: seq<Step>, h: Handle) {
    StreamClosed(h) in steps || Died(h) in steps
  }

  /** A session closes only by dying, and one that is not disturbed stays exactly as it was. */
  ghost predicate Untouched(a: seq<Session>, b: seq<Session>, steps: seq<Step>) {
    |b| == |a| && forall h | 0 <= h < |a| ::
      && (!Disturbs(steps, h) ==> b[h] == a[h])
      && (Died(h) !in steps ==> b[h].closed == a[h].closed)
      && (a[h].closed ==> b[h].closed)
  }

  /** What can happen in these steps while one goroutine holds the lock: the map stays, sessions only get emptier. */
  ghost predicate Drifts(a: State, b: State, steps: seq<Step>) {
    && b.concurrency == a.concurrency && b.timeout == a.timeout && b.now >= a.now
    && b.pool == a.pool && b.pc == a.pc && b.cancelled == a.cancelled && b.peak == a.peak && b.atLock == a.atLock
    && Emptier(a.table, b.table) && Untouched(a.table, b.table, steps)
  }

  /** Session h is in the map and alive. */
  ghost predicate Alive(s: State, h: Handle) {
    h < |s.table| && s.table[h].id in s.pool && s.pool[s.table[h].id] == h && !s.table[h].closed
  }

  /** A live session is left in the map and alive if nobody else disturbs it and it has open streams, or if it does not die
      by itself and has not been inactive for longer than the timeout. */
  ghost predicate Spares(a: State, b: State, steps: seq<Step>) {
    && b.now >= a.now && b.timeout == a.timeout
    && (forall h: Handle | Alive(a, h) && a.table[h].streams > 0 && !Disturbs(steps, h) ::
      Alive(b, h) && b.table[h] == a.table[h])
    && (forall h: Handle | Alive(a, h) && Died(h) !in steps && b.now - a.table[h].lastActive <= a.timeout ::
      Alive(b, h) && b.table[h].lastActive == a.table[h].lastActive)
  }

  /** The steps that do not need the lock. */
  predicate LockFree(step: Step) {
    step.StreamClosed? || step.Died? || step.Tick?
  }

  lemma DriftStep(s: State, step: Step)
    requires Enabled(s, step) && LockFree(step)
    ensures Drifts(s, Apply(s, step), [step])
  {
  }

  lemma UntouchedTrans(a: seq<Session>, b: seq<Session>, c: seq<Session>, steps: seq<Step>, more: seq<Step>)
    requires Untouched(a, b, steps) && Untouched(b, c, more)
    ensures Untouched(a, c, steps + more)
  {
  }

  lemma DriftsTrans(a: State, b: State, c: State, steps: seq<Step>, more: seq<Step>)
    requires Drifts(a, b, steps) && Drifts(b, c, more)
    ensures Drifts(a, c, steps + more)
  {
    UntouchedTrans(a.table, b.table, c.table, steps, more);
    hide Untouched;
  }

  lemma SparesTrans(a: State, b: State, c: State, steps: seq<Step>, more: seq<Step>)
    requires Spares(a, b, steps) && Spares(b, c, more)
    ensures Spares(a, c, steps + more)
  {
    hide Alive;
  }

  lemma SparesDrift(a: State, b: State, steps: seq<Step>)
    requires Drifts(a, b, steps)
    ensures Spares(a, b, steps)
  {
  }

  lemma NothingDrifts(s: State)
    ensures Drifts(s, s, [])
  {
  }

  /** What the holder of the lock is promised is true of every run of steps that do not need it. */
  lemma {:induction false} DriftCovers(init: State, before: seq<Step>, more: seq<Step>)
    requires Legal(init, before) && Legal(init, before + more) && forall i | 0 <= i < |more| :: LockFree(more[i])
    ensures Drifts(After(init, before), After(init, before + more), more)
  {
    hide *;
    if more == [] {
      assert before + more == before;
      NothingDrifts(After(init, before));
    } else {
      var front, last := more[..|more| - 1], more[|more| - 1];
      LastStep(init, before + more);
      assert (before + more)[..|before + more| - 1] == before + front;
      var a, b, c := After(init, before), After(init, before + front), After(init, before + more);
      DriftCovers(init, before, front);
      DriftStep(b, last);
      DriftsTrans(a, b, c, front, [last]);
      assert front + [last] == more;
    }
  }

  // ----- What one walk over the map does -----

  /** What holds between two moments of one walk: sessions only leave the map, and only get emptier. */
  ghost predicate Narrows(a: State, b: State) {
    && b.now >= a.now && b.atLock == a.atLock && b.cancelled == a.cancelled && Emptier(a.table, b.table)
    && forall id | id in b.pool :: id in a.pool && b.pool[id] == a.pool[id]
  }

  lemma NarrowsTrans(a: State, b: State, c: State)
    requires Narrows(a, b) && Narrows(b, c)
    ensures Narrows(a, c)
  {
  }

  lemma NarrowsSize(a: State, b: State)
    requires Narrows(a, b)
    ensures |b.table| == |a.table|
  {
  }

  lemma NarrowsDrift(a: State, b: State, steps: seq<Step>)
    requires Drifts(a, b, steps)
    ensures Narrows(a, b)
  {
    hide Emptier, Untouched;
  }

  lemma NarrowsOne(s: State, id: MuxId, pc: Pc)
    ensures Narrows(s, s.(pc := pc)) && Narrows(s, s.(pool := s.pool - {id}, pc := pc))
    ensures Pooled(s, id) ==> Narrows(s, Remove(s, id).(pc := pc))
  {
  }

  /** A session a tick pass has to reap. */
  predicate Expired(s: State, id: MuxId)
    requires Pooled(s, id)
  {
    At(s, id).closed || (At(s, id).streams == 0 && s.now - At(s, id).lastActive > s.timeout)
  }

  /** Closing and removing an expired session, or only moving on, touches no session that has to be spared. */
  lemma SparesOne(s: State, id: MuxId, pc: Pc, steps: seq<Step>)
    requires MapInv(s)
    ensures Spares(s, s.(pc := pc), steps)
    ensures Pooled(s, id) && Expired(s, id) ==> Spares(s, Remove(s, id).(pc := pc), steps)
  {
  }

  /** What the invariant says about the map and about the id that the holder of the lock is looking at. */
  lemma Known(s: State)
    requires Inv(s)
    ensures MapInv(s) && forall id | id in s.pool :: Pooled(s, id) && At(s, id).id == id
    ensures s.pc.Checked? || s.pc.CleanChecked? || s.pc.CleanIdle? || s.pc.Opening? ==> Pooled(s, s.pc.id)
    ensures s.pc.CleanIdle? ==> At(s, s.pc.id).streams == 0
    ensures s.pc.Scanning? || s.pc.Cleaning? ==> s.pc.todo <= s.pool.Keys
    ensures s.pc.Cancelling? ==> s.pc.todo == s.pool.Keys
  {
    hide CapInv, PeakInv, ScanInv, BoundInv;
  }

  /** Whatever has left the map since a is closed. */
  ghost predicate GoneClosed(a: State, b: State) {
    forall id | id in a.pool && id !in b.pool :: a.pool[id] < |b.table| && b.table[a.pool[id]].closed
  }

  /** What a dial's scan leaves: sessions only left the map dead, and nothing but others has touched any. */
  ghost predicate Scanned(a: State, b: State, steps: seq<Step>) {
    Narrows(a, b) && Untouched(a.table, b.table, steps) && GoneClosed(a, b)
  }

  lemma GoneClosedMore(a: State, b: State, c: State)
    requires GoneClosed(a, b) && GoneClosed(b, c) && Narrows(a, b) && Narrows(b, c)
    ensures GoneClosed(a, c)
  {
  }

  lemma ScannedTrans(a: State, b: State, c: State, steps: seq<Step>, more: seq<Step>)
    requires Scanned(a, b, steps) && Scanned(b, c, more)
    ensures Scanned(a, c, steps + more)
  {
    NarrowsTrans(a, b, c);
    UntouchedTrans(a.table, b.table, c.table, steps, more);
    GoneClosedMore(a, b, c);
    hide Narrows, Untouched, GoneClosed;
  }

  lemma ScannedDrift(a: State, b: State, steps: seq<Step>)
    requires Drifts(a, b, steps)
    ensures Scanned(a, b, steps)
  {
    NarrowsDrift(a, b, steps);
    hide Narrows, Untouched, Emptier;
  }

  lemma ScannedOne(s: State, id: MuxId, pc: Pc, step: Step)
    ensures Scanned(s, s.(pc := pc), [step])
    ensures Pooled(s, id) && At(s, id).closed ==> Scanned(s, s.(pool := s.pool - {id}, pc := pc), [step])
  {
    NarrowsOne(s, id, pc);
    hide Narrows;
  }

  lemma StaysAlive(a: State, b: State, steps: seq<Step>, id: MuxId)
    requires Scanned(a, b, steps) && Pooled(a, id)
    ensures a.pool[id] < |b.table| && (Died(a.pool[id]) !in steps ==> b.table[a.pool[id]].closed == At(a, id).closed)
  {
    hide Narrows, GoneClosed, Disturbs;
  }

  /** Every session the scan has left in the map was full when the lock was taken. */
  lemma AllFull(before: State, s: State, steps: seq<Step>)
    requires Inv(s) && s.pc == Dialling && Scanned(before.(atLock := Counts(before.table)), s, steps)
    ensures forall id | id in s.pool ::
      && id in before.pool && s.pool[id] == before.pool[id] < |before.table|
      && s.concurrency > 0 && before.table[s.pool[id]].streams >= IntOfUint(s.concurrency)
    ensures forall id | id in before.pool && id !in s.pool ::
      before.pool[id] < |s.table| && s.table[before.pool[id]].closed
  {
    hide CapInv, PeakInv, BoundInv, Sum;
  }

  /** The sessions that a dial does not hand out, when it opens its stream on session h after a scan. */
  lemma OthersKept(a: seq<Session>, b: seq<Session>, c: seq<Session>, scan: seq<Step>, open: seq<Step>, steps: seq<Step>,
                   h: Handle)
    requires Untouched(a, b, scan) && h < |b| == |c| && Untouched(b, c[h := b[h]], open) && steps == scan + open
    ensures forall g: Handle | g < |a| && g != h && !Disturbs(steps, g) :: c[g] == a[g]
    ensures forall g: Handle | g < |a| && g != h && b[g].closed :: c[g].closed
    ensures !Disturbs(steps, h) ==> b[h] == a[h]
    ensures Died(h) !in steps ==> b[h].closed == a[h].closed
    ensures !Disturbs(steps, h) ==> Died(h) !in scan && Died(h) !in open && !Disturbs(open, h)
  {
    assert forall g: Handle | g < |b| && g != h :: c[h := b[h]][g] == c[g];
  }

  /** What one turn of the cleaner's loop has done about session id. */
  ghost predicate Swept(a: State, b: State, id: MuxId, steps: seq<Step>) {
    && Narrows(a, b) && Spares(a, b, steps) && b.timeout == a.timeout
    && (b.pool == a.pool || b.pool == a.pool - {id})
    && (id in a.pool && id !in b.pool ==> a.pool[id] < |b.table| && b.table[a.pool[id]].closed)
  }

  lemma SweptDrift(a: State, b: State, c: State, id: MuxId, steps: seq<Step>, more: seq<Step>)
    requires Drifts(a, b, steps) && Swept(b, c, id, more)
    ensures Swept(a, c, id, steps + more)
  {
    NarrowsDrift(a, b, steps);
    SparesDrift(a, b, steps);
    NarrowsTrans(a, b, c);
    SparesTrans(a, b, c, steps, more);
    hide Narrows, Spares, Emptier, Untouched;
  }

  lemma SweptSame(s: State, pc: Pc, id: MuxId, step: Step)
    requires MapInv(s)
    ensures Swept(s, s.(pc := pc), id, [step])
  {
    NarrowsOne(s, id, pc);
    SparesOne(s, id, pc, [step]);
    hide Narrows, Spares, MapInv;
  }

  lemma SweptRemove(s: State, pc: Pc, id: MuxId, step: Step)
    requires MapInv(s) && Pooled(s, id) && Expired(s, id)
    ensures Swept(s, Remove(s, id).(pc := pc), id, [step])
  {
    NarrowsOne(s, id, pc);
    SparesOne(s, id, pc, [step]);
    hide Narrows, Spares, MapInv;
  }

  lemma SweptMore(a: State, b: State, c: State, id: MuxId, steps: seq<Step>, more: seq<Step>)
    requires Swept(a, b, id, steps) && b.pool == a.pool && Swept(b, c, id, more)
    ensures Swept(a, c, id, steps + more)
  {
    NarrowsTrans(a, b, c);
    SparesTrans(a, b, c, steps, more);
    hide Narrows, Spares;
  }

  /** What a pass of the cleaner has achieved since a, when `todo` is still to be visited. */
  ghost predicate Sweeping(a: State, b: State, todo: set<MuxId>, steps: seq<Step>) {
    && Narrows(a, b) && Spares(a, b, steps) && GoneClosed(a, b) && b.timeout == a.timeout && todo <= b.pool.Keys
    && forall id | id in b.pool && id !in todo :: Pooled(a, id) && !Expired(a, id)
  }

  lemma SweepStarts(s: State, pc: Pc, step: Step)
    requires MapInv(s)
    ensures Sweeping(s, s.(pc := pc), s.pool.Keys, [step])
  {
    SweptSame(s, pc, 0, step);
    hide Narrows, Spares, MapInv;
  }

  lemma ExpiredLater(a: State, b: State, id: MuxId)
    requires Narrows(a, b) && Pooled(a, id) && Expired(a, id) && b.timeout == a.timeout && id in b.pool
    ensures Pooled(b, id) && Expired(b, id)
  {
  }

  lemma SweepTurn(a: State, b: State, c: State, id: MuxId, todo: set<MuxId>, steps: seq<Step>, more: seq<Step>)
    requires MapInv(a) && Sweeping(a, b, todo, steps) && id in todo && Swept(b, c, id, more)
    requires Pooled(b, id) && (id in c.pool ==> !Expired(b, id))
    ensures Sweeping(a, c, todo - {id}, steps + more)
  {
    NarrowsTrans(a, b, c);
    SparesTrans(a, b, c, steps, more);
    GoneClosedMore(a, b, c);
    assert id in a.pool && Pooled(a, id);
    if Expired(a, id) {
      ExpiredLater(a, b, id);
    }
    hide Narrows, Spares, Expired, GoneClosed, MapInv;
  }

  lemma SweepEnds(a: State, b: State, steps: seq<Step>)
    requires MapInv(b) && Sweeping(a, b, {}, steps)
    ensures Sweeping(a, b.(pc := Free), {}, steps + [CleanDone])
  {
    SweptSame(b, Free, 0, CleanDone);
    NarrowsTrans(a, b, b.(pc := Free));
    SparesTrans(a, b, b.(pc := Free), steps, [CleanDone]);
    hide Narrows, Spares, MapInv;
  }

  lemma SweepMeans(a: State, b: State, steps: seq<Step>)
    requires Sweeping(a, b, {}, steps)
    ensures |b.table| == |a.table|
    ensures forall id | id in b.pool :: id in a.pool && b.pool[id] == a.pool[id]
    ensures forall id | id in b.pool ::
      && b.pool[id] < |a.table| && !a.table[b.pool[id]].closed
      && (a.table[b.pool[id]].streams > 0 || a.now - a.table[b.pool[id]].lastActive <= a.timeout)
    ensures forall id | id in a.pool && id !in b.pool :: a.pool[id] < |b.table| && b.table[a.pool[id]].closed
    ensures Spares(a, b, steps)
  {
    NarrowsSize(a, b);
    hide Emptier, Spares;
  }

  lemma CancelStarts(s: State, pc: Pc)
    ensures Narrows(s, s.(pc := pc)) && GoneClosed(s, s.(pc := pc))
  {
  }

  lemma CancelRemoves(a: State, s: State, id: MuxId, pc: Pc)
    requires a.pool == s.pool && Pooled(s, id)
    ensures var t := Remove(s, id).(pc := pc); Narrows(s, t) && GoneClosed(a, t) && t.pool == s.pool - {id}
  {
    NarrowsOne(s, id, pc);
    hide Narrows;
  }

  lemma AllGone(a: State, b: State)
    requires GoneClosed(a, b) && b.pool.Keys == {}
    ensures b.pool == map[] && forall id | id in a.pool :: a.pool[id] < |b.table| && b.table[a.pool[id]].closed
  {
    assert forall id :: id !in b.pool;
  }

  /** What a drift leaves of the id that the holder of the lock is looking at. */
  lemma DriftKeeps(a: State, b: State, id: MuxId, steps: seq<Step>)
    requires Drifts(a, b, steps) && Pooled(a, id)
    ensures Pooled(b, id) && b.pc == a.pc && b.pool == a.pool && b.timeout == a.timeout && b.now >= a.now
    ensures |b.table| == |a.table|
    ensures At(b, id).id == At(a, id).id && At(b, id).lastActive == At(a, id).lastActive
    ensures At(b, id).streams <= At(a, id).streams && (At(a, id).closed ==> At(b, id).closed)
    ensures Untouched(a.table, b.table, steps)
  {
    hide Untouched;
  }

  /** A drift from a to b followed by one action of the holder of the lock that replaces session h. */
  lemma OneReplaced(a: seq<Session>, b: seq<Session>, drift: seq<Step>, step: Step, h: Handle, x: Session)
    requires Untouched(a, b, drift) && h < |a| && !LockFree(step)
    ensures Untouched(a, b[h := x][h := a[h]], drift + [step])
    ensures !Disturbs(drift + [step], h) ==> b[h] == a[h]
    ensures Died(h) !in drift + [step] ==> b[h].closed == a[h].closed
  {
    assert forall g :: Disturbs(drift + [step], g) == Disturbs(drift, g);
  }

  lemma Appended(before: seq<Step>, mid: seq<Step>, step: Step)
    requires before <= mid
    ensures (mid + [step])[|before|..] == mid[|before|..] + [step]
  {
  }

  lemma Sliced(before: seq<Step>, mid: seq<Step>, after: seq<Step>)
    requires before <= mid <= after
    ensures after[|before|..] == mid[|before|..] + after[|mid|..]
  {
  }

  lemma ScannedMeans(a: State, b: State, steps: seq<Step>)
    requires Scanned(a, b, steps)
    ensures |b.table| == |a.table| && Untouched(a.table, b.table, steps)
    ensures forall id | id in b.pool :: id in a.pool && b.pool[id] == a.pool[id]
    ensures forall id | id in a.pool && id !in b.pool :: a.pool[id] < |b.table| && b.table[a.pool[id]].closed
  {
    hide Untouched;
  }

  lemma UntouchedMeans(a: seq<Session>, b: seq<Session>, steps: seq<Step>)
    requires Untouched(a, b, steps)
    ensures forall h: Handle | h < |a| && !Disturbs(steps, h) :: b[h] == a[h]
    ensures forall h: Handle | h < |a| && a[h].closed :: b[h].closed
  {
    hide Disturbs;
  }

  lemma DisturbsMore(steps: seq<Step>, more: seq<Step>, h: Handle)
    ensures Disturbs(more, h) ==> Disturbs(steps + more, h)
  {
  }

  lemma UntouchedMore(a: seq<Session>, b: seq<Session>, steps: seq<Step>, more: seq<Step>)
    requires Untouched(a, b, steps) && forall step | step in more :: !LockFree(step)
    ensures Untouched(a, b, steps + more)
  {
  }

  /** A session added behind a and then replaced, while others may disturb any. */
  lemma AddedLast(a: seq<Session>, b: seq<Session>, c: seq<Session>, insert: Step, open: seq<Step>)
    requires |b| == |a| + 1 == |c| && b[..|a|] == a && Untouched(b, c[|a| := b[|a|]], open) && !LockFree(insert)
    ensures Untouched(a, c[..|a|], [insert] + open)
    ensures Disturbs([insert] + open, |a|) == Disturbs(open, |a|)
    ensures Died(|a|) in [insert] + open <==> Died(|a|) in open
  {
    assert forall g: Handle :: Disturbs([insert] + open, g) == Disturbs(open, g);
    assert forall g | 0 <= g < |a| :: c[|a| := b[|a|]][g] == c[g] && b[g] == a[g];
  }

  /** What a dial with result r does to the sessions there were before, those that nobody else disturbs: it opens a stream
      on at most one, and only a stream that cannot be opened closes one. */
  ghost predicate OthersSame(a: seq<Session>, b: seq<Session>, now: nat, steps: seq<Step>, r: DialResult, openOk: bool) {
    |a| <= |b| && forall h: Handle | h < |a| && !Disturbs(steps, h) ::
      || b[h] == a[h]
      || (r == Stream(h) && b[h] == a[h].(streams := a[h].streams + 1, lastActive := now))
      || (r.Failed? && !openOk && b[h].closed)
  }

  lemma OpenedFound(a: seq<Session>, b: seq<Session>, c: seq<Session>, now: nat, scan: seq<Step>, open: seq<Step>,
                    h: Handle, r: DialResult, openOk: bool)
    requires Untouched(a, b, scan) && h < |b| == |c| && Untouched(b, c[h := b[h]], open)
    requires r == Failed || r == Stream(h)
    requires Died(h) !in scan ==> !b[h].closed
    requires openOk && !b[h].closed && Died(h) !in open ==> r.Stream?
    requires r.Failed? ==> c[h].closed
    requires r.Stream? && !Disturbs(open, h) ==> c[h] == b[h].(streams := b[h].streams + 1, lastActive := now)
    ensures OthersSame(a, c, now, scan + open, r, openOk)
    ensures forall g: Handle | g < |a| && g != h && b[g].closed :: c[g].closed
  {
    OthersKept(a, b, c, scan, open, scan + open, h);
    hide Untouched, Disturbs;
  }

  lemma NothingOpened(a: seq<Session>, b: seq<Session>, now: nat, scan: seq<Step>, more: seq<Step>, openOk: bool)
    requires Untouched(a, b, scan) && forall step | step in more :: !LockFree(step)
    ensures OthersSame(a, b, now, scan + more, Failed, openOk)
  {
    UntouchedMore(a, b, scan, more);
    UntouchedMeans(a, b, scan + more);
    hide Untouched, Disturbs;
  }

  lemma OpenedNew(a: seq<Session>, b: seq<Session>, c: seq<Session>, now: nat, scan: seq<Step>, open: seq<Step>,
                  r: DialResult, openOk: bool)
    requires Untouched(a, b, scan) && |b| <= |c| && Untouched(b, c[..|b|], open)
    ensures OthersSame(a, c, now, scan + open, r, openOk)
    ensures forall g: Handle | g < |b| && b[g].closed :: c[g].closed
    ensures Disturbs(open, |a|) ==> Disturbs(scan + open, |a|)
  {
    UntouchedTrans(a, b, c[..|b|], scan, open);
    UntouchedMeans(a, c[..|b|], scan + open);
    UntouchedMeans(b, c[..|b|], open);
    DisturbsMore(scan, open, |a|);
    hide Untouched, Disturbs;
    assert forall g: Handle | g < |b| :: c[..|b|][g] == c[g];
  }

  /** A live session with room for another stream. */
  ghost predicate RoomAt(s: State, id: MuxId) {
    && id in s.pool && s.pool[id] < |s.table| && !s.table[s.pool[id]].closed
    && (s.table[s.pool[id]].streams < IntOfUint(s.concurrency) || s.concurrency == 0)
  }

  /** A scan that finds nothing has met no live session with room, unless it died meanwhile. */
  lemma NoRoom(before: State, s: State, steps: seq<Step>)
    requires Inv(s) && s.pc == Dialling && Scanned(before.(atLock := Counts(before.table)), s, steps)
    requires s.concurrency == before.concurrency
    ensures forall id | RoomAt(before, id) :: Died(before.pool[id]) in steps
  {
    AllFull(before, s, steps);
    hide Inv, Narrows, GoneClosed, Disturbs;
  }

  class MuxPool {
    const concurrency: uint
    const timeout: nat
    var sessions: map<MuxId, Handle>
    var table: seq<Session>   // the session objects
    var now: nat              // the clock
    ghost var sys: State
    ghost var trace: seq<Step>

    ghost predicate Valid()
      reads this
    {
      && Legal(Init(concurrency, timeout), trace) && After(Init(concurrency, timeout), trace) == sys
      && sessions == sys.pool && table == sys.table && now == sys.now
      && Inv(sys) && sys.concurrency == concurrency && sys.timeout == timeout
    }

    constructor (concurrency: uint, timeout: nat)
      ensures Valid() && sys == Init(concurrency, timeout)
      ensures this.concurrency == concurrency && this.timeout == timeout
    {
      this.concurrency, this.timeout := concurrency, timeout;
      sessions, table, now := map[], [], 0;
      sys, trace := Init(concurrency, timeout), [];
      new;
      Always(concurrency, timeout, trace);
    }

    /** One action of the running goroutine, as seen by the step system. */
    ghost method Perform(step: Step)
      requires Legal(Init(concurrency, timeout), trace) && After(Init(concurrency, timeout), trace) == sys
      requires Inv(sys) && sys.concurrency == concurrency && sys.timeout == timeout && Enabled(sys, step)
      requires !LockFree(step)   // those are never this goroutine's doing
      modifies this`sys, this`trace
      ensures Legal(Init(concurrency, timeout), trace) && After(Init(concurrency, timeout), trace) == sys
      ensures trace == old(trace) + [step] && sys == Apply(old(sys), step)
      ensures Inv(sys) && sys.concurrency == concurrency && sys.timeout == timeout
    {
      StepInv(sys, step);
      ConstantSettings(sys, step);
      hide Inv, Enabled, Apply;
      assert (trace + [step])[..|trace|] == trace;
      trace := trace + [step];
      sys := Apply(sys, step);
    }

    /** An action that touches no field, such as a check or taking and releasing the lock. */
    ghost method Advance(step: Step)
      requires Valid() && Enabled(sys, step) && !LockFree(step)
      requires var t := Apply(sys, step); t.pool == sys.pool && t.table == sys.table && t.now == sys.now
      modifies this`sys, this`trace
      ensures Valid() && trace == old(trace) + [step] && sys == Apply(old(sys), step)
    {
      hide Legal, After, Enabled, Apply, Inv;
      Perform(step);
    }

    /** Streams close, sessions die, time passes: the caller learns only what the contract says. */
    method Drift()
      requires Valid()
      modifies this
      ensures Valid() && old(trace) <= trace && Drifts(old(sys), sys, trace[|old(trace)|..])
    {
    }

    method Shutdown(h: Handle)
      requires h < |table|
      modifies this`table
      ensures table == old(table)[h := Shut(old(table)[h])]
    {
      table := table[h := table[h].(closed := true, streams := 0)];
    }

    /** Close a session and take it out of the map. */
    method CloseAndDelete(id: MuxId)
      requires id in sessions && sessions[id] < |table|
      modifies this`table, this`sessions
      ensures table == old(table)[old(sessions)[id] := Shut(old(table)[old(sessions)[id]])]
      ensures sessions == old(sessions) - {id}
    {
      Shutdown(sessions[id]);
      sessions := sessions - {id};
    }

    // ----- DialMux -----

    /** session.OpenNewStream and what follows it, without interference. */
    method OpenHere(id: MuxId, openOk: bool) returns (r: DialResult, ghost step: Step)
      requires Valid() && sys.pc == Opening(id) && Pooled(sys, id)
      modifies this
      ensures Valid() && sys.pc == Free && trace == old(trace) + [step] && !LockFree(step) && now == old(now)
      ensures var h := old(sessions)[id];
        if openOk && !old(table)[h].closed then
          && r == Stream(h) && sessions == old(sessions)
          && table == old(table)[h := old(table)[h].(streams := old(table)[h].streams + 1, lastActive := now)]
        else
          && r == Failed && sessions == old(sessions) - {id}
          && table == old(table)[h := old(table)[h].(closed := true, streams := 0, lastActive := now)]
    {
      hide Legal, After, Enabled, Apply, Inv;
      OpenTurn(sys, id);
      var h := sessions[id];
      table := table[h := table[h].(lastActive := now)];
      if openOk && !table[h].closed {
        table := table[h := table[h].(streams := table[h].streams + 1)];
        step := OpenOk;
        Perform(OpenOk);
        r := Stream(h);
      } else {
        Shutdown(h);
        sessions := sessions - {id};
        step := OpenFailed;
        Perform(OpenFailed);
        r := Failed;
      }
    }

    method OpenNewStream(id: MuxId, openOk: bool) returns (r: DialResult)
      requires Valid() && sys.pc == Opening(id)
      modifies this
      ensures Valid() && sys.pc == Free && old(trace) <= trace && |table| == |old(table)|
      ensures id in old(sessions) && old(sessions)[id] < |table| && (r == Failed || r == Stream(old(sessions)[id]))
      ensures r.Stream? ==> sessions == old(sessions) && table[r.h].id == id
      ensures r.Stream? ==> !table[r.h].closed && table[r.h].streams > 0 && table[r.h].lastActive == now
      ensures r.Failed? ==> sessions == old(sessions) - {id} && table[old(sessions)[id]].closed
      ensures old(sessions)[id] < |old(table)|
      // it fails exactly when opening does or the session is dead
      ensures r.Stream? ==> openOk && !old(table)[old(sessions)[id]].closed
      ensures openOk && !old(table)[old(sessions)[id]].closed && Died(old(sessions)[id]) !in trace[|old(trace)|..] ==> r.Stream?
      ensures r.Stream? && !Disturbs(trace[|old(trace)|..], r.h) ==>
        table[r.h] == old(table)[r.h].(streams := old(table)[r.h].streams + 1, lastActive := now)
      ensures Untouched(old(table), table[old(sessions)[id] := old(table)[old(sessions)[id]]], trace[|old(trace)|..])
    {
      hide Legal, After, Enabled, Apply, Inv, Spares, Drifts, Untouched, Disturbs;
      Known(sys);
      hide MapInv;
      Drift();
      ghost var drift, t, b := trace[|old(trace)|..], trace, table;
      DriftKeeps(old(sys), sys, id, drift);
      ghost var step;
      r, step := OpenHere(id, openOk);
      Appended(old(trace), t, step);
      OneReplaced(old(table), b, drift, step, old(sessions)[id], table[old(sessions)[id]]);
    }

    method HasRoomNow(id: MuxId, ghost todo: set<MuxId>) returns (room: bool)
      requires Valid() && sys.pc == Checked(id, todo)
      modifies this
      ensures Valid() && old(trace) <= trace && Scanned(old(sys), sys, trace[|old(trace)|..])
      ensures sys.pc == (if room then Opening(id) else Scanning(todo)) && sessions == old(sessions)
    {
      hide Legal, After, Enabled, Apply, Inv, Spares, Drifts, Untouched, Scanned, MapInv;
      Known(sys);
      Drift();
      ghost var b, t := sys, trace;
      DriftKeeps(old(sys), b, id, t[|old(trace)|..]);
      ScannedDrift(old(sys), b, t[|old(trace)|..]);
      RoomTurn(b, id, todo);
      room := table[sessions[id]].streams < IntOfUint(concurrency) || concurrency <= 0;
      if room {
        ScannedOne(b, id, Opening(id), ScanRoom);
        Advance(ScanRoom);
      } else {
        ScannedOne(b, id, Scanning(todo), ScanFull);
        Advance(ScanFull);
      }
      ScannedTrans(old(sys), b, sys, t[|old(trace)|..], trace[|t|..]);
      Sliced(old(trace), t, trace);
    }

    /** One turn of DialMux's loop: purge a dead session, pass a full one, or settle on one with room. */
    method ScanOne(id: MuxId, ghost todo: set<MuxId>) returns (room: bool)
      requires Valid() && sys.pc == Scanning(todo) && id in todo
      modifies this
      ensures Valid() && old(trace) <= trace && Scanned(old(sys), sys, trace[|old(trace)|..])
      ensures sys.pc == if room then Opening(id) else Scanning(todo - {id})
      ensures room ==> id in sessions && sessions[id] < |table|
      ensures room && Died(sessions[id]) !in trace[|old(trace)|..] ==> !table[sessions[id]].closed
    {
      hide Legal, After, Enabled, Apply, Inv, Spares, Drifts, Untouched, Scanned, MapInv;
      Known(sys);
      Drift();
      ghost var b, t := sys, trace;
      DriftKeeps(old(sys), b, id, t[|old(trace)|..]);
      ScannedDrift(old(sys), b, t[|old(trace)|..]);
      ScanTurn(b, id, todo);
      if table[sessions[id]].closed {
        ScannedOne(b, id, Scanning(todo - {id}), ScanClosed(id));
        sessions := sessions - {id};
        Perform(ScanClosed(id));
        room := false;
      } else {
        ScannedOne(b, id, Checked(id, todo - {id}), ScanAlive(id));
        Advance(ScanAlive(id));
        ghost var c, u := sys, trace;
        room := HasRoomNow(id, todo - {id});
        StaysAlive(c, sys, trace[|u|..], id);
        ScannedTrans(b, c, sys, [ScanAlive(id)], trace[|u|..]);
        Sliced(t, u, trace);
      }
      ScannedTrans(old(sys), b, sys, t[|old(trace)|..], trace[|t|..]);
      Sliced(old(trace), t, trace);
    }

    method InsertSession(id: MuxId)
      requires Valid() && sys.pc == Dialling
      modifies this
      ensures Valid() && sys.pc == Opening(id) && trace == old(trace) + [Insert(id)]
      ensures sessions == old(sessions)[id := |old(table)|] && |table| == |old(table)| + 1 && table[|old(table)|].id == id
      ensures table == old(table) + [Session(id, 0, false, 0)]
    {
      hide Legal, After, Enabled, Apply, Inv;
      InsertTurn(sys, id);
      table := table + [Session(id, 0, false, 0)];
      sessions := sessions[id := |table| - 1];
      Perform(Insert(id));
    }

    /** The loop over the sessions. */
    method ScanAll() returns (found: Option<MuxId>)
      requires Valid() && sys.pc == Free
      modifies this
      ensures Valid() && old(trace) <= trace
      ensures sys.pc == if found.Some? then Opening(found.value) else Dialling
      ensures Scanned(old(sys).(atLock := Counts(old(sys).table)), sys, trace[|old(trace)|..])
      ensures found.Some? ==> found.value in sessions && sessions[found.value] < |table|
      ensures found.Some? && Died(sessions[found.value]) !in trace[|old(trace)|..] ==> !table[sessions[found.value]].closed
    {
      hide Legal, After, Enabled, Apply, Inv, Scanned, Counts;
      ghost var before := sys.(atLock := Counts(sys.table));
      LockTurn(sys);
      ScannedOne(before, 0, Scanning(sessions.Keys), LockDial);
      Advance(LockDial);
      assert trace[|old(trace)|..] == [LockDial];
      var todo := sessions.Keys;
      while todo != {}
        invariant Valid() && sys.pc == Scanning(todo) && old(trace) <= trace
        invariant Scanned(before, sys, trace[|old(trace)|..])
      {
        var id :| id in todo;
        ghost var b, t := sys, trace;
        var room := ScanOne(id, todo);
        ScannedTrans(before, b, sys, t[|old(trace)|..], trace[|t|..]);
        Sliced(old(trace), t, trace);
        if room {
          return Some(id);
        }
        todo := todo - {id};
      }
      UnlockTurn(sys);
      ghost var b, t := sys, trace;
      ScannedOne(b, 0, Dialling, ScanDone);
      Advance(ScanDone);
      assert trace[|t|..] == [ScanDone];
      ScannedTrans(before, b, sys, t[|old(trace)|..], [ScanDone]);
      Sliced(old(trace), t, trace);
      found := None;
    }

    /** A session of its own for a dial that has found no room. */
    method DialNew(freshId: MuxId, openOk: bool) returns (r: DialResult)
      requires Valid() && sys.pc == Dialling
      modifies this
      ensures Valid() && sys.pc == Free && old(trace) <= trace && |table| == |old(table)| + 1
      ensures Untouched(old(table), table[..|old(table)|], trace[|old(trace)|..])
      ensures r == Failed || r == Stream(|old(table)|)
      ensures r.Stream? ==> openOk
      ensures openOk && Died(|old(table)|) !in trace[|old(trace)|..] ==> r.Stream?
      ensures r.Stream? ==> sessions == old(sessions)[freshId := |old(table)|] && table[r.h].id == freshId
      ensures r.Stream? ==> !table[r.h].closed && table[r.h].streams > 0 && table[r.h].lastActive == now
      ensures r.Stream? && !Disturbs(trace[|old(trace)|..], r.h) ==> table[r.h] == Session(freshId, 1, false, now)
      ensures r.Failed? ==> sessions == old(sessions)[freshId := |old(table)|] - {freshId}
    {
      hide Legal, After, Enabled, Apply, Inv, Untouched, Disturbs;
      var h := |table|;
      InsertSession(freshId);
      ghost var b, t := table, trace;
      r := OpenNewStream(freshId, openOk);
      Sliced(old(trace), t, trace);
      assert t[|old(trace)|..] == [Insert(freshId)];
      AddedLast(old(table), b, table, Insert(freshId), trace[|t|..]);
    }

    /** `freshId` is the random id, `dialOk` and `openOk` say whether newConn and OpenNewStream succeed. A new session is
        created only when every session kept in the map was full at the moment the lock was taken, and a dial fails only
        when opening fails, when there is no room and newConn fails, or when the session dies in the meantime. */
    method DialMux(dialOk: bool, freshId: MuxId, openOk: bool) returns (r: DialResult)
      requires Valid() && sys.pc == Free
      modifies this
      ensures Valid() && sys.pc == Free && old(trace) <= trace
      ensures r.Stream? ==> r.h < |table| && !table[r.h].closed && table[r.h].streams > 0 && table[r.h].lastActive == now
      ensures r.Stream? ==> table[r.h].id in sessions && sessions[table[r.h].id] == r.h
      ensures |old(table)| <= |table| <= |old(table)| + 1
      ensures |table| > |old(table)| ==> dialOk && (r.Stream? ==> r.h == |old(table)| && table[r.h].id == freshId)
      ensures |table| > |old(table)| ==> forall id | id in sessions && id != freshId ::
        && id in old(sessions) && sessions[id] == old(sessions)[id] < |old(table)|
        && concurrency > 0 && old(table)[sessions[id]].streams >= IntOfUint(concurrency)
      ensures |table| == |old(table)| ==> forall id | id in sessions :: id in old(sessions) && sessions[id] == old(sessions)[id]
      // success and failure
      ensures !openOk ==> r.Failed?
      ensures dialOk && openOk && (forall h: Handle :: Died(h) !in trace[|old(trace)|..]) ==> r.Stream?
      ensures forall id | RoomAt(old(sys), id) && Died(old(sessions)[id]) !in trace[|old(trace)|..] :: |table| == |old(table)|
      ensures openOk && (exists id :: RoomAt(old(sys), id)) && (forall h: Handle :: Died(h) !in trace[|old(trace)|..]) ==>
        r.Stream?
      // nothing else changes, unless others disturb it
      ensures OthersSame(old(table), table, now, trace[|old(trace)|..], r, openOk)
      ensures |table| > |old(table)| && r.Stream? && !Disturbs(trace[|old(trace)|..], r.h) ==>
        table[r.h] == Session(freshId, 1, false, now)
      ensures forall id | id in old(sessions) && id !in sessions && (|table| > |old(table)| ==> id != freshId) ::
        old(sessions)[id] < |table| && table[old(sessions)[id]].closed
    {
      hide Legal, After, Enabled, Apply, Inv, Counts, Scanned, Untouched, Disturbs, RoomAt, OthersSame;
      var found := ScanAll();
      ghost var before, mid, t, scan := old(sys).(atLock := Counts(old(sys).table)), sys, trace, trace[|old(trace)|..];
      ScannedMeans(before, mid, scan);
      if found.Some? {
        r := OpenNewStream(found.value, openOk);
        Sliced(old(trace), t, trace);
        OpenedFound(old(table), mid.table, table, now, scan, trace[|t|..], mid.pool[found.value], r, openOk);
        return;
      }
      NoRoom(old(sys), mid, scan);
      if !dialOk {
        UnlockTurn(sys);
        Advance(NewConnFailed);
        Sliced(old(trace), t, trace);
        NothingOpened(old(table), table, now, scan, trace[|t|..], openOk);
        return Failed;
      }
      AllFull(old(sys), sys, scan);
      r := DialNew(freshId, openOk);
      Sliced(old(trace), t, trace);
      OpenedNew(old(table), mid.table, table, now, scan, trace[|t|..], r, openOk);
    }

    // ----- cleanLoop -----

    method CleanIdleOne(id: MuxId, ghost todo: set<MuxId>)
      requires Valid() && sys.pc == CleanIdle(id, todo)
      modifies this
      ensures Valid() && old(trace) <= trace && sys.pc == Cleaning(todo)
      ensures Swept(old(sys), sys, id, trace[|old(trace)|..]) && Pooled(old(sys), id)
      ensures id in sessions ==> old(now) - At(old(sys), id).lastActive <= timeout
    {
      hide Legal, After, Enabled, Apply, Inv, Spares, Drifts, Narrows, Swept;
      Known(sys);
      Drift();
      Known(sys);
      hide MapInv;
      DriftKeeps(old(sys), sys, id, trace[|old(trace)|..]);
      CleanIdleTurn(sys, id, todo);
      ghost var b, t := sys, trace;
      if now - table[sessions[id]].lastActive > timeout {
        SweptRemove(sys, Cleaning(todo), id, CleanReap);
        CloseAndDelete(id);
        Perform(CleanReap);
      } else {
        SweptSame(sys, Cleaning(todo), id, CleanRecent);
        Advance(CleanRecent);
      }
      SweptDrift(old(sys), b, sys, id, t[|old(trace)|..], trace[|t|..]);
      Sliced(old(trace), t, trace);
    }

    method CleanAliveOne(id: MuxId, ghost todo: set<MuxId>)
      requires Valid() && sys.pc == CleanChecked(id, todo)
      modifies this
      ensures Valid() && old(trace) <= trace && sys.pc == Cleaning(todo)
      ensures Swept(old(sys), sys, id, trace[|old(trace)|..]) && Pooled(old(sys), id)
      ensures id in sessions ==> At(old(sys), id).streams > 0 || old(now) - At(old(sys), id).lastActive <= timeout
    {
      hide Legal, After, Enabled, Apply, Inv, Spares, Drifts, Narrows, Swept;
      Known(sys);
      Drift();
      Known(sys);
      hide MapInv;
      DriftKeeps(old(sys), sys, id, trace[|old(trace)|..]);
      CleanCheckedTurn(sys, id, todo);
      ghost var b, t := sys, trace;
      if table[sessions[id]].streams != 0 {
        SweptSame(sys, Cleaning(todo), id, CleanBusy);
        Advance(CleanBusy);
      } else {
        SweptSame(sys, CleanIdle(id, todo), id, CleanZero);
        Advance(CleanZero);
        ghost var c, u := sys, trace;
        CleanIdleOne(id, todo);
        SweptMore(b, c, sys, id, [CleanZero], trace[|u|..]);
        Sliced(t, u, trace);
      }
      SweptDrift(old(sys), b, sys, id, t[|old(trace)|..], trace[|t|..]);
      Sliced(old(trace), t, trace);
    }

    method CleanOne(id: MuxId, ghost todo: set<MuxId>)
      requires Valid() && sys.pc == Cleaning(todo) && id in todo
      modifies this
      ensures Valid() && old(trace) <= trace && sys.pc == Cleaning(todo - {id})
      ensures Swept(old(sys), sys, id, trace[|old(trace)|..])
      ensures Pooled(old(sys), id) && (id in sessions ==> !Expired(old(sys), id))
    {
      hide Legal, After, Enabled, Apply, Inv, Spares, Drifts, Narrows, Swept;
      Known(sys);
      Drift();
      Known(sys);
      hide MapInv;
      DriftKeeps(old(sys), sys, id, trace[|old(trace)|..]);
      CleanTurn(sys, id, todo);
      ghost var b, t := sys, trace;
      if table[sessions[id]].closed {
        SweptRemove(sys, Cleaning(todo - {id}), id, CleanClosed(id));
        CloseAndDelete(id);
        Perform(CleanClosed(id));
      } else {
        SweptSame(sys, CleanChecked(id, todo - {id}), id, CleanAlive(id));
        Advance(CleanAlive(id));
        ghost var c, u := sys, trace;
        CleanAliveOne(id, todo - {id});
        SweptMore(b, c, sys, id, [CleanAlive(id)], trace[|u|..]);
        Sliced(t, u, trace);
      }
      SweptDrift(old(sys), b, sys, id, t[|old(trace)|..], trace[|t|..]);
      Sliced(old(trace), t, trace);
    }

    /** One tick: what was dead or expired when the pass began is gone, and whatever went is closed. A live session stays if
        it has open streams and loses none of them, or if it has been active recently; unless it dies by itself. */
    method CleanPass()
      requires Valid() && sys.pc == Free && !sys.cancelled
      modifies this
      ensures Valid() && sys.pc == Free && old(trace) <= trace && |table| == |old(table)|
      ensures forall id | id in sessions :: id in old(sessions) && sessions[id] == old(sessions)[id]
      ensures forall id | id in sessions ::
        && sessions[id] < |old(table)| && !old(table)[sessions[id]].closed
        && (old(table)[sessions[id]].streams > 0 || old(now) - old(table)[sessions[id]].lastActive <= timeout)
      ensures forall id | id in old(sessions) && id !in sessions :: old(sessions)[id] < |table| && table[old(sessions)[id]].closed
      ensures forall h: Handle | Alive(old(sys), h) && old(table)[h].streams > 0 && !Disturbs(trace[|old(trace)|..], h) ::
        Alive(sys, h) && table[h] == old(table)[h]
      ensures forall h: Handle | Alive(old(sys), h) && Died(h) !in trace[|old(trace)|..] &&
                                 now - old(table)[h].lastActive <= timeout :: Alive(sys, h)
    {
      hide Legal, After, Enabled, Apply, Inv, Sweeping, Swept, MapInv;
      LockTurn(sys);
      Known(sys);
      SweepStarts(sys, Cleaning(sessions.Keys), LockClean);
      Advance(LockClean);
      assert trace[|old(trace)|..] == [LockClean];
      var todo := sessions.Keys;
      while todo != {}
        invariant Valid() && sys.pc == Cleaning(todo) && old(trace) <= trace
        invariant Sweeping(old(sys), sys, todo, trace[|old(trace)|..])
      {
        var id :| id in todo;
        ghost var b, t := sys, trace;
        CleanOne(id, todo);
        Sliced(old(trace), t, trace);
        SweepTurn(old(sys), b, sys, id, todo, t[|old(trace)|..], trace[|t|..]);
        todo := todo - {id};
      }
      Known(sys);
      UnlockTurn(sys);
      SweepEnds(old(sys), sys, trace[|old(trace)|..]);
      ghost var t := trace;
      Advance(CleanDone);
      Sliced(old(trace), t, trace);
      assert trace[|t|..] == [CleanDone];
      SweepMeans(old(sys), sys, trace[|old(trace)|..]);
    }

    method CancelOneSession(id: MuxId, ghost todo: set<MuxId>)
      requires Valid() && sys.pc == Cancelling(todo) && id in todo
      modifies this
      ensures Valid() && old(trace) <= trace && sys.pc == Cancelling(todo - {id}) && sessions == old(sessions) - {id}
      ensures Narrows(old(sys), sys) && GoneClosed(old(sys), sys)
    {
      hide Legal, After, Enabled, Apply, Inv, Narrows, Spares, Drifts, GoneClosed, MapInv;
      Known(sys);
      Drift();
      DriftKeeps(old(sys), sys, id, trace[|old(trace)|..]);
      NarrowsDrift(old(sys), sys, trace[|old(trace)|..]);
      CancelTurn(sys, id, todo);
      ghost var b := sys;
      CancelRemoves(old(sys), b, id, Cancelling(todo - {id}));
      CloseAndDelete(id);
      Perform(CancelOne(id));
      NarrowsTrans(old(sys), b, sys);
    }

    method CancelPass()
      requires Valid() && sys.pc == Free && !sys.cancelled
      modifies this
      ensures Valid() && sys.pc == Free && sys.cancelled && old(trace) <= trace && |table| == |old(table)|
      ensures sessions == map[]
      ensures forall id | id in old(sessions) :: old(sessions)[id] < |table| && table[old(sessions)[id]].closed
    {
      hide Legal, After, Enabled, Apply, Inv, Narrows, GoneClosed, MapInv, Emptier;
      LockTurn(sys);
      Known(sys);
      ghost var before := sys;
      CancelStarts(before, Cancelling(sessions.Keys));
      Advance(LockCancel);
      var todo := sessions.Keys;
      while todo != {}
        invariant Valid() && sys.pc == Cancelling(todo) && old(trace) <= trace && todo == sessions.Keys
        invariant Narrows(before, sys) && GoneClosed(before, sys)
      {
        var id :| id in todo;
        ghost var b := sys;
        CancelOneSession(id, todo);
        NarrowsTrans(before, b, sys);
        GoneClosedMore(before, b, sys);
        todo := todo - {id};
      }
      NarrowsSize(before, sys);
      AllGone(before, sys);
      UnlockTurn(sys);
      Perform(CancelDone);
    }
  }
}
