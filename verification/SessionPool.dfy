/** mux/mux.go as a step system: dials, cleaner passes and cancellation each hold the lock while they walk over the
    session map, but streams close, sessions die and time passes at any moment, also in the middle of a walk.
    Sessions are numbered in the order of their creation (their handle); the pool maps random ids to handles. */
module SessionPool {
  import opened Bytes

  type MuxId = nat
  type Handle = nat

  datatype Session = Session(id: MuxId, streams: nat, closed: bool, lastActive: nat)

  /** Who holds the lock, and where it is. `todo` is the part of the session map the walk has not reached. */
  datatype Pc =
    | Free
    | Scanning(todo: set<MuxId>)
    | Checked(id: MuxId, todo: set<MuxId>)        // IsClosed() has returned false
    | Opening(id: MuxId)                          // about to call OpenNewStream
    | Dialling                                    // the scan found no room
    | Cleaning(todo: set<MuxId>)
    | CleanChecked(id: MuxId, todo: set<MuxId>)   // IsClosed() has returned false
    | CleanIdle(id: MuxId, todo: set<MuxId>)      // NumStreams() has returned 0
    | Cancelling(todo: set<MuxId>)

  datatype State = State(
    concurrency: uint,
    timeout: nat,
    now: nat,
    table: seq<Session>,          // every session ever created
    pool: map<MuxId, Handle>,
    pc: Pc,
    cancelled: bool,
    peak: nat,                    // the largest number of streams open at once so far
    atLock: seq<nat>)             // the stream counts when the lock was last taken by a dial

  function Init(concurrency: uint, timeout: nat): State {
    State(concurrency, timeout, 0, [], map[], Free, false, 0, [])
  }

  datatype Step =
    | StreamClosed(h: Handle)
    | Died(h: Handle)
    | Tick(d: nat)
    | LockDial
    | ScanClosed(id: MuxId)
    | ScanAlive(id: MuxId)
    | ScanFull
    | ScanRoom
    | ScanDone
    | NewConnFailed
    | Insert(id: MuxId)
    | OpenOk
    | OpenFailed
    | LockClean
    | CleanClosed(id: MuxId)
    | CleanAlive(id: MuxId)
    | CleanBusy
    | CleanZero
    | CleanRecent
    | CleanReap
    | CleanDone
    | LockCancel
    | CancelOne(id: MuxId)
    | CancelDone

  function Counts(table: seq<Session>): seq<nat> {
    seq(|table|, h requires 0 <= h < |table| => table[h].streams)
  }

  function Sum(xs: seq<nat>): nat {
    if xs == [] then 0 else Sum(xs[..|xs| - 1]) + xs[|xs| - 1]
  }

  /** NumStreams() < int(p.concurrency) || p.concurrency <= 0 */
  predicate HasRoom(concurrency: uint, streams: nat) {
    streams < IntOfUint(concurrency) || concurrency == 0
  }

  predicate Pooled(s: State, id: MuxId) {
    id in s.pool && s.pool[id] < |s.table|
  }

  function At(s: State, id: MuxId): Session
    requires Pooled(s, id)
  {
    s.table[s.pool[id]]
  }

  predicate Enabled(s: State, step: Step) {
    match step
    case StreamClosed(h) => h < |s.table| && s.table[h].streams > 0
    case Died(h) => h < |s.table|
    case Tick(_) => true
    case LockDial => s.pc == Free
    case ScanClosed(id) => s.pc.Scanning? && id in s.pc.todo && Pooled(s, id) && At(s, id).closed
    case ScanAlive(id) => s.pc.Scanning? && id in s.pc.todo && Pooled(s, id) && !At(s, id).closed
    case ScanFull => s.pc.Checked? && Pooled(s, s.pc.id) && !HasRoom(s.concurrency, At(s, s.pc.id).streams)
    case ScanRoom => s.pc.Checked? && Pooled(s, s.pc.id) && HasRoom(s.concurrency, At(s, s.pc.id).streams)
    case ScanDone => s.pc == Scanning({})
    case NewConnFailed => s.pc == Dialling
    case Insert(_) => s.pc == Dialling
    case OpenOk => s.pc.Opening? && Pooled(s, s.pc.id) && !At(s, s.pc.id).closed
    case OpenFailed => s.pc.Opening? && Pooled(s, s.pc.id)
    case LockClean => s.pc == Free && !s.cancelled
    case CleanClosed(id) => s.pc.Cleaning? && id in s.pc.todo && Pooled(s, id) && At(s, id).closed
    case CleanAlive(id) => s.pc.Cleaning? && id in s.pc.todo && Pooled(s, id) && !At(s, id).closed
    case CleanBusy => s.pc.CleanChecked? && Pooled(s, s.pc.id) && At(s, s.pc.id).streams != 0
    case CleanZero => s.pc.CleanChecked? && Pooled(s, s.pc.id) && At(s, s.pc.id).streams == 0
    case CleanRecent => s.pc.CleanIdle? && Pooled(s, s.pc.id) && s.now - At(s, s.pc.id).lastActive <= s.timeout
    case CleanReap => s.pc.CleanIdle? && Pooled(s, s.pc.id) && s.now - At(s, s.pc.id).lastActive > s.timeout
    case CleanDone => s.pc == Cleaning({})
    case LockCancel => s.pc == Free && !s.cancelled
    case CancelOne(id) => s.pc.Cancelling? && id in s.pc.todo && Pooled(s, id)
    case CancelDone => s.pc == Cancelling({})
  }

  function SetSession(s: State, h: Handle, session: Session): State
    requires h < |s.table|
  {
    s.(table := s.table[h := session])
  }

  /** Closing the smux client and the connection under it: its streams are gone. */
  function Shut(session: Session): Session {
    session.(closed := true, streams := 0)
  }

  /** Close the session with this id and delete it from the map. */
  function Remove(s: State, id: MuxId): State
    requires Pooled(s, id)
  {
    SetSession(s, s.pool[id], Shut(At(s, id))).(pool := s.pool - {id})
  }

  function Apply(s: State, step: Step): State
    requires Enabled(s, step)
  {
    match step
    case StreamClosed(h) => SetSession(s, h, s.table[h].(streams := s.table[h].streams - 1))
    case Died(h) => SetSession(s, h, Shut(s.table[h]))
    case Tick(d) => s.(now := s.now + d)
    case LockDial => s.(pc := Scanning(s.pool.Keys), atLock := Counts(s.table))
    case ScanClosed(id) => s.(pool := s.pool - {id}, pc := Scanning(s.pc.todo - {id}))
    case ScanAlive(id) => s.(pc := Checked(id, s.pc.todo - {id}))
    case ScanFull => s.(pc := Scanning(s.pc.todo))
    case ScanRoom => s.(pc := Opening(s.pc.id))
    case ScanDone => s.(pc := Dialling)
    case NewConnFailed => s.(pc := Free)
    case Insert(id) =>
      s.(table := s.table + [Session(id, 0, false, 0)], pool := s.pool[id := |s.table|], pc := Opening(id))
    case OpenOk =>
      var h := s.pool[s.pc.id];
      var t := SetSession(s, h, s.table[h].(streams := s.table[h].streams + 1, lastActive := s.now));
      t.(pc := Free, peak := if Sum(Counts(t.table)) > s.peak then Sum(Counts(t.table)) else s.peak)
    case OpenFailed =>
      Remove(SetSession(s, s.pool[s.pc.id], At(s, s.pc.id).(lastActive := s.now)), s.pc.id).(pc := Free)
    case LockClean => s.(pc := Cleaning(s.pool.Keys))
    case CleanClosed(id) => Remove(s, id).(pc := Cleaning(s.pc.todo - {id}))
    case CleanAlive(id) => s.(pc := CleanChecked(id, s.pc.todo - {id}))
    case CleanBusy => s.(pc := Cleaning(s.pc.todo))
    case CleanZero => s.(pc := CleanIdle(s.pc.id, s.pc.todo))
    case CleanRecent => s.(pc := Cleaning(s.pc.todo))
    case CleanReap => Remove(s, s.pc.id).(pc := Cleaning(s.pc.todo))
    case CleanDone => s.(pc := Free)
    case LockCancel => s.(pc := Cancelling(s.pool.Keys))
    case CancelOne(id) => Remove(s, id).(pc := Cancelling(s.pc.todo - {id}))
    case CancelDone => s.(pc := Free, cancelled := true)
  }

  // ----- The steps of the holder of the lock -----

  lemma LockTurn(s: State)
    requires s.pc == Free
    ensures Enabled(s, LockDial) && Apply(s, LockDial) == s.(pc := Scanning(s.pool.Keys), atLock := Counts(s.table))
    ensures !s.cancelled ==> Enabled(s, LockClean) && Apply(s, LockClean) == s.(pc := Cleaning(s.pool.Keys))
    ensures !s.cancelled ==> Enabled(s, LockCancel) && Apply(s, LockCancel) == s.(pc := Cancelling(s.pool.Keys))
  {
  }

  lemma UnlockTurn(s: State)
    ensures s.pc == Scanning({}) ==> Enabled(s, ScanDone) && Apply(s, ScanDone) == s.(pc := Dialling)
    ensures s.pc == Dialling ==> Enabled(s, NewConnFailed) && Apply(s, NewConnFailed) == s.(pc := Free)
    ensures s.pc == Cleaning({}) ==> Enabled(s, CleanDone) && Apply(s, CleanDone) == s.(pc := Free)
    ensures s.pc == Cancelling({}) ==> Enabled(s, CancelDone) && Apply(s, CancelDone) == s.(pc := Free, cancelled := true)
  {
  }

  lemma ScanTurn(s: State, id: MuxId, todo: set<MuxId>)
    requires s.pc == Scanning(todo) && id in todo && Pooled(s, id)
    ensures At(s, id).closed ==>
      Enabled(s, ScanClosed(id)) && Apply(s, ScanClosed(id)) == s.(pool := s.pool - {id}, pc := Scanning(todo - {id}))
    ensures !At(s, id).closed ==> Enabled(s, ScanAlive(id)) && Apply(s, ScanAlive(id)) == s.(pc := Checked(id, todo - {id}))
  {
  }

  lemma RoomTurn(s: State, id: MuxId, todo: set<MuxId>)
    requires s.pc == Checked(id, todo) && Pooled(s, id)
    ensures HasRoom(s.concurrency, At(s, id).streams) ==> Enabled(s, ScanRoom) && Apply(s, ScanRoom) == s.(pc := Opening(id))
    ensures !HasRoom(s.concurrency, At(s, id).streams) ==>
      Enabled(s, ScanFull) && Apply(s, ScanFull) == s.(pc := Scanning(todo))
  {
  }

  lemma OpenTurn(s: State, id: MuxId)
    requires s.pc == Opening(id) && Pooled(s, id)
    ensures !At(s, id).closed ==> Enabled(s, OpenOk)
    ensures !At(s, id).closed ==>
      var h, t := s.pool[id], Apply(s, OpenOk);
      t == s.(table := s.table[h := s.table[h].(streams := s.table[h].streams + 1, lastActive := s.now)], pc := Free,
              peak := if Sum(Counts(t.table)) > s.peak then Sum(Counts(t.table)) else s.peak)
    ensures Enabled(s, OpenFailed)
    ensures var h, t := s.pool[id], Apply(s, OpenFailed);
      && t.table == s.table[h := Shut(s.table[h].(lastActive := s.now))]
      && t.pool == s.pool - {id} && t.pc == Free && t.now == s.now
  {
    hide Sum, Counts;
  }

  lemma InsertTurn(s: State, id: MuxId)
    requires s.pc == Dialling
    ensures Enabled(s, Insert(id)) && Apply(s, Insert(id)) ==
      s.(table := s.table + [Session(id, 0, false, 0)], pool := s.pool[id := |s.table|], pc := Opening(id))
  {
  }

  lemma CleanTurn(s: State, id: MuxId, todo: set<MuxId>)
    requires s.pc == Cleaning(todo) && id in todo && Pooled(s, id)
    ensures At(s, id).closed ==>
      Enabled(s, CleanClosed(id)) && Apply(s, CleanClosed(id)) == Remove(s, id).(pc := Cleaning(todo - {id}))
    ensures !At(s, id).closed ==>
      Enabled(s, CleanAlive(id)) && Apply(s, CleanAlive(id)) == s.(pc := CleanChecked(id, todo - {id}))
  {
    hide Remove;
  }

  lemma CleanCheckedTurn(s: State, id: MuxId, todo: set<MuxId>)
    requires s.pc == CleanChecked(id, todo) && Pooled(s, id)
    ensures At(s, id).streams != 0 ==> Enabled(s, CleanBusy) && Apply(s, CleanBusy) == s.(pc := Cleaning(todo))
    ensures At(s, id).streams == 0 ==> Enabled(s, CleanZero) && Apply(s, CleanZero) == s.(pc := CleanIdle(id, todo))
  {
  }

  lemma CleanIdleTurn(s: State, id: MuxId, todo: set<MuxId>)
    requires s.pc == CleanIdle(id, todo) && Pooled(s, id)
    ensures s.now - At(s, id).lastActive <= s.timeout ==>
      Enabled(s, CleanRecent) && Apply(s, CleanRecent) == s.(pc := Cleaning(todo))
    ensures s.now - At(s, id).lastActive > s.timeout ==>
      Enabled(s, CleanReap) && Apply(s, CleanReap) == Remove(s, id).(pc := Cleaning(todo))
  {
    hide Remove;
  }

  lemma CancelTurn(s: State, id: MuxId, todo: set<MuxId>)
    requires s.pc == Cancelling(todo) && id in todo && Pooled(s, id)
    ensures Enabled(s, CancelOne(id)) && Apply(s, CancelOne(id)) == Remove(s, id).(pc := Cancelling(todo - {id}))
  {
    hide Remove;
  }

  // ----- The session map -----

  /** The part of PoolInv that does not depend on who holds the lock. */
  ghost predicate MapInv(s: State) {
    && (forall id | id in s.pool :: s.pool[id] < |s.table| && s.table[s.pool[id]].id == id)
    && (forall h | 0 <= h < |s.table| && s.table[h].closed :: s.table[h].streams == 0)
  }

  /** The id that the holder of the lock is looking at is in the map, and what it has still to visit is part of it. */
  ghost predicate PcInv(s: State) {
    match s.pc
    case Free => true
    case Dialling => true
    case Opening(id) => id in s.pool
    case Scanning(todo) => todo <= s.pool.Keys
    case Cleaning(todo) => todo <= s.pool.Keys
    case Checked(id, todo) => id in s.pool && todo <= s.pool.Keys && id !in todo
    case CleanChecked(id, todo) => id in s.pool && todo <= s.pool.Keys && id !in todo
    case CleanIdle(id, todo) =>
      id in s.pool && todo <= s.pool.Keys && id !in todo && Pooled(s, id) && At(s, id).streams == 0
    case Cancelling(todo) => todo == s.pool.Keys
  }

  ghost predicate PoolInv(s: State) {
    MapInv(s) && PcInv(s)
  }

  /** The steps with which the holder of the lock only moves on, and the ticks of the clock. */
  predicate MovesOn(step: Step) {
    step.Tick? || step.LockDial? || step.ScanAlive? || step.ScanFull? || step.ScanRoom? || step.ScanDone? ||
    step.NewConnFailed? || step.LockClean? || step.CleanAlive? || step.CleanBusy? || step.CleanZero? ||
    step.CleanRecent? || step.CleanDone? || step.LockCancel? || step.CancelDone?
  }

  lemma MovesOnly(s: State, step: Step)
    requires Enabled(s, step) && MovesOn(step)
    ensures var t := Apply(s, step); t.table == s.table && t.pool == s.pool && t.peak == s.peak
  {
    hide Enabled, Counts, Sum, Remove, SetSession;
  }

  lemma InsertPool(s: State, id: MuxId)
    requires Enabled(s, Insert(id)) && PoolInv(s)
    ensures PoolInv(Apply(s, Insert(id)))
  {
  }

  lemma OpenPool(s: State, step: Step)
    requires Enabled(s, step) && PoolInv(s) && (step.OpenOk? || step.OpenFailed?)
    ensures PoolInv(Apply(s, step))
  {
  }

  lemma RemovePool(s: State, id: MuxId)
    requires PoolInv(s) && Pooled(s, id)
    ensures MapInv(Remove(s, id))
  {
  }

  lemma RemovedPool(s: State, step: Step)
    requires Enabled(s, step) && PoolInv(s)
    requires step.ScanClosed? || step.CleanClosed? || step.CleanReap? || step.CancelOne?
    ensures PoolInv(Apply(s, step))
  {
    var id := if step.CleanReap? then s.pc.id else step.id;
    RemovePool(s, id);
  }

  lemma MovesPool(s: State, step: Step)
    requires Enabled(s, step) && PoolInv(s) && MovesOn(step)
    ensures PoolInv(Apply(s, step))
  {
    MovesOnly(s, step);
    assert MapInv(Apply(s, step));
    hide MapInv, Counts;
  }

  lemma EmptierPool(s: State, step: Step)
    requires Enabled(s, step) && PoolInv(s) && (step.StreamClosed? || step.Died?)
    ensures PoolInv(Apply(s, step))
  {
  }

  lemma StepPool(s: State, step: Step)
    requires Enabled(s, step) && PoolInv(s)
    ensures PoolInv(Apply(s, step))
  {
    hide Enabled, Apply, PoolInv;
    if MovesOn(step) {
      MovesPool(s, step);
    } else {
      match step
      case Insert(id) => InsertPool(s, id);
      case OpenOk => OpenPool(s, step);
      case OpenFailed => OpenPool(s, step);
      case StreamClosed(_) => EmptierPool(s, step);
      case Died(_) => EmptierPool(s, step);
      case _ => RemovedPool(s, step);
    }
  }

  // ----- Stream cap -----

  /** With concurrency above zero no session has more streams than that, and the one about to open another has room. */
  ghost predicate CapInv(s: State) {
    s.concurrency > 0 ==>
      && (forall h | 0 <= h < |s.table| :: s.table[h].streams <= s.concurrency)
      && (s.pc.Opening? ==> Pooled(s, s.pc.id) && At(s, s.pc.id).streams < s.concurrency)
  }

  lemma MovesCap(s: State, step: Step)
    requires Enabled(s, step) && CapInv(s) && MovesOn(step)
    ensures CapInv(Apply(s, step))
  {
    hide Counts, Sum;
  }

  lemma ChangesCap(s: State, step: Step)
    requires Enabled(s, step) && CapInv(s) && !MovesOn(step)
    ensures CapInv(Apply(s, step))
  {
    hide Counts, Sum;
  }

  lemma StepCap(s: State, step: Step)
    requires Enabled(s, step) && PoolInv(s) && CapInv(s)
    ensures CapInv(Apply(s, step))
  {
    hide *;
    if MovesOn(step) {
      MovesCap(s, step);
    } else {
      ChangesCap(s, step);
    }
  }

  // ----- Session bound -----

  lemma {:induction false} SumUpdate(xs: seq<nat>, h: nat, v: nat)
    requires h < |xs|
    ensures Sum(xs[h := v]) == Sum(xs) - xs[h] + v
  {
    var last := |xs| - 1;
    if h < last {
      SumUpdate(xs[..last], h, v);
      assert xs[h := v][..last] == xs[..last][h := v];
    } else {
      assert xs[h := v][..last] == xs[..last];
    }
  }

  lemma SumSnoc(xs: seq<nat>, v: nat)
    ensures Sum(xs + [v]) == Sum(xs) + v
  {
    assert (xs + [v])[..|xs|] == xs;
  }

  /** Some of the entries, each at least c. */
  lemma {:induction false} SumBound(xs: seq<nat>, some: set<nat>, c: nat)
    requires forall h | h in some :: h < |xs| && xs[h] >= c
    ensures |some| * c <= Sum(xs)
    decreases |xs|
  {
    if xs == [] {
      assert some == {};
    } else {
      var last := |xs| - 1;
      var rest := some - {last};
      SumBound(xs[..last], rest, c);
      if last in some {
        assert |some| == |rest| + 1;
        assert (|rest| + 1) * c == |rest| * c + c;
      } else {
        assert rest == some;
      }
    }
  }

  lemma {:induction false} InjectiveSize(pool: map<MuxId, Handle>)
    requires forall a, b | a in pool && b in pool && a != b :: pool[a] != pool[b]
    ensures |pool.Values| == |pool|
    decreases |pool|
  {
    if pool == map[] {
      assert pool.Values == {};
    } else {
      var a :| a in pool;
      var rest := pool - {a};
      InjectiveSize(rest);
      assert pool.Values == rest.Values + {pool[a]} by {
        forall v
          ensures v in pool.Values <==> v in rest.Values + {pool[a]}
        {
          if v in pool.Values && v != pool[a] {
            var b :| b in pool && pool[b] == v;
            assert rest[b] == v;
          }
        }
      }
      assert pool[a] !in rest.Values;
      assert pool.Keys == rest.Keys + {a};
    }
  }

  /** The ids a scan has not cleared yet. */
  function Unseen(pc: Pc): set<MuxId> {
    match pc case Scanning(todo) => todo case Checked(id, todo) => todo + {id} case _ => {}
  }

  predicate InScan(pc: Pc) {
    pc.Scanning? || pc.Checked? || pc.Dialling?
  }

  /** While a dial holds the lock, stream counts have only fallen since it was taken, and every session it has passed
      and left in the map was full at that moment already. */
  ghost predicate ScanInv(s: State) {
    InScan(s.pc) ==>
      && |s.atLock| == |s.table| && Sum(s.atLock) <= s.peak
      && (forall h | 0 <= h < |s.table| :: s.table[h].streams <= s.atLock[h])
      && (forall id | id in s.pool && id !in Unseen(s.pc) ::
        s.concurrency > 0 && Pooled(s, id) && s.atLock[s.pool[id]] >= IntOfUint(s.concurrency))
  }

  ghost predicate PeakInv(s: State) {
    Sum(Counts(s.table)) <= s.peak
  }

  ghost predicate BoundInv(s: State) {
    && (s.concurrency == 0 ==> |s.pool| <= 1)
    && (0 < s.concurrency == IntOfUint(s.concurrency) ==> (|s.pool| - 1) * s.concurrency <= s.peak)
  }

  lemma CountsUpdate(table: seq<Session>, h: Handle, session: Session)
    requires h < |table|
    ensures Counts(table[h := session]) == Counts(table)[h := session.streams]
  {
  }

  /** Every other step but the insertion replaces one session, and only opening a stream adds to the total. */
  lemma OneSession(s: State, step: Step) returns (h: Handle)
    requires Enabled(s, step) && !MovesOn(step) && !step.ScanClosed? && !step.Insert?
    ensures var t := Apply(s, step);
      && h < |s.table| && t.table == s.table[h := t.table[h]] && t.peak >= s.peak
      && (if step.OpenOk? then t.peak >= Sum(Counts(t.table)) else t.table[h].streams <= s.table[h].streams)
  {
    hide Sum, Counts;
    if step.StreamClosed? || step.Died? {
      h := step.h;
    } else {
      h := s.pool[if step.CleanClosed? || step.CancelOne? then step.id else s.pc.id];
    }
  }

  lemma StepPeak(s: State, step: Step)
    requires Enabled(s, step) && PoolInv(s) && PeakInv(s)
    ensures PeakInv(Apply(s, step)) && Apply(s, step).peak >= s.peak
  {
    hide PoolInv;
    if step.Insert? {
      assert Counts(Apply(s, step).table) == Counts(s.table) + [0];
      SumSnoc(Counts(s.table), 0);
    } else if MovesOn(step) || step.ScanClosed? {
      if MovesOn(step) {
        MovesOnly(s, step);
        hide Enabled, Apply;
      }
    } else {
      var h := OneSession(s, step);
      hide Enabled, Apply, Sum, Counts;
      var t := Apply(s, step);
      CountsUpdate(s.table, h, t.table[h]);
      SumUpdate(Counts(s.table), h, t.table[h].streams);
    }
  }

  /** The steps that leave a dial where it can still be scanning. */
  predicate KeepsScanning(step: Step) {
    step.LockDial? || step.ScanClosed? || step.ScanAlive? || step.ScanFull? || step.ScanDone? || step.Tick?
  }

  lemma ScanMoves(s: State, step: Step)
    requires Enabled(s, step) && PeakInv(s) && ScanInv(s) && KeepsScanning(step) && MapInv(s)
    ensures ScanInv(Apply(s, step))
  {
    hide Sum;
  }

  lemma ScanEmptier(s: State, step: Step)
    requires Enabled(s, step) && ScanInv(s) && (step.StreamClosed? || step.Died?)
    ensures ScanInv(Apply(s, step))
  {
    hide Sum;
  }

  lemma ScanOver(s: State, step: Step)
    requires Enabled(s, step) && !KeepsScanning(step) && !step.StreamClosed? && !step.Died?
    ensures !InScan(Apply(s, step).pc)
  {
    hide Sum, Counts;
  }

  lemma StepScan(s: State, step: Step)
    requires Enabled(s, step) && PoolInv(s) && PeakInv(s) && ScanInv(s)
    ensures ScanInv(Apply(s, step))
  {
    hide Enabled, Apply, MapInv, PcInv, PeakInv, Sum;
    if KeepsScanning(step) {
      ScanMoves(s, step);
    } else if step.StreamClosed? || step.Died? {
      ScanEmptier(s, step);
    } else {
      ScanOver(s, step);
    }
  }

  lemma PoolShrinks(s: State, step: Step)
    requires Enabled(s, step) && !step.Insert?
    ensures Apply(s, step).pool.Keys <= s.pool.Keys
  {
  }

  lemma SubsetSize(a: set<MuxId>, b: set<MuxId>)
    requires a <= b
    ensures |a| <= |b|
  {
    assert b == a + (b - a);
  }

  lemma Times(a: int, b: int, c: nat)
    requires a <= b
    ensures a * c <= b * c
  {
  }

  lemma AllWereFull(s: State)
    requires s.pc == Dialling && PoolInv(s) && ScanInv(s) && 0 < s.concurrency == IntOfUint(s.concurrency)
    ensures |s.pool| * s.concurrency <= s.peak
  {
    InjectiveSize(s.pool);
    SumBound(s.atLock, s.pool.Values, s.concurrency);
  }

  lemma InsertSize(s: State, id: MuxId)
    requires Enabled(s, Insert(id))
    ensures var t := Apply(s, Insert(id));
      |t.pool| <= |s.pool| + 1 && t.concurrency == s.concurrency && t.peak == s.peak
  {
    var t := Apply(s, Insert(id));
    assert t.pool.Keys == s.pool.Keys + {id};
  }

  lemma OneMore(n: nat, m: nat, c: nat, peak: nat)
    requires m <= n + 1 && n * c <= peak
    ensures (m - 1) * c <= peak
  {
    Times(m - 1, n, c);
  }

  lemma NoneSurvives(s: State)
    requires s.pc == Dialling && ScanInv(s) && s.concurrency == 0
    ensures |s.pool| == 0
  {
    assert forall id :: id !in s.pool;
    assert s.pool == map[];
  }

  /** A new session is added only when all sessions left in the map were full, at the same time. */
  lemma InsertBound(s: State, step: Step)
    requires Enabled(s, step) && step.Insert? && PoolInv(s) && ScanInv(s)
    ensures BoundInv(Apply(s, step))
  {
    assert s.pc == Dialling;
    InsertSize(s, step.id);
    hide Enabled, Apply, PoolInv, ScanInv;
    if s.concurrency == 0 {
      NoneSurvives(s);
    } else if s.concurrency == IntOfUint(s.concurrency) {
      AllWereFull(s);
      OneMore(|s.pool|, |Apply(s, step).pool|, s.concurrency, s.peak);
    }
  }

  lemma ConstantSettings(s: State, step: Step)
    requires Enabled(s, step)
    ensures Apply(s, step).concurrency == s.concurrency && Apply(s, step).timeout == s.timeout
    ensures Apply(s, step).now >= s.now && |Apply(s, step).table| >= |s.table|
  {
    hide Sum, Counts, HasRoom;
  }

  lemma StepBound(s: State, step: Step)
    requires Enabled(s, step) && PoolInv(s) && PeakInv(s) && ScanInv(s) && BoundInv(s)
    ensures BoundInv(Apply(s, step))
  {
    hide Apply, Enabled, PoolInv, PeakInv, ScanInv;
    if step.Insert? {
      InsertBound(s, step);
    } else {
      PoolShrinks(s, step);
      StepPeak(s, step);
      ConstantSettings(s, step);
      SubsetSize(Apply(s, step).pool.Keys, s.pool.Keys);
      Times(|Apply(s, step).pool| - 1, |s.pool| - 1, s.concurrency);
    }
  }

  // ----- Custody -----

  /** Every session ever created is in the map under its own id, or closed. */
  ghost predicate Custody(s: State) {
    forall h | 0 <= h < |s.table| :: s.table[h].closed || (s.table[h].id in s.pool && s.pool[s.table[h].id] == h)
  }

  /** What the source does not check when it takes a random id. */
  predicate FreshId(s: State, step: Step) {
    step.Insert? ==> step.id !in s.pool
  }

  lemma ChangesCustody(s: State, step: Step)
    requires Enabled(s, step) && MapInv(s) && Custody(s) && FreshId(s, step) && !MovesOn(step)
    ensures Custody(Apply(s, step))
  {
    hide Counts, Sum;
  }

  lemma StepCustody(s: State, step: Step)
    requires Enabled(s, step) && PoolInv(s) && Custody(s) && FreshId(s, step)
    ensures Custody(Apply(s, step))
  {
    assert MapInv(s);
    hide Enabled, Apply, PoolInv, MapInv;
    if MovesOn(step) {
      MovesOnly(s, step);
    } else {
      ChangesCustody(s, step);
    }
  }

  /** Inserting keeps custody exactly when the id is not in the map, or its old session is closed already. */
  lemma InsertCustody(s: State, id: MuxId)
    requires Enabled(s, Insert(id)) && PoolInv(s) && Custody(s)
    ensures Custody(Apply(s, Insert(id))) <==> id !in s.pool || At(s, id).closed
  {
    var t := Apply(s, Insert(id));
    if id in s.pool {
      assert t.table[s.pool[id]] == s.table[s.pool[id]];
      assert s.table[s.pool[id]].id == id;
    }
  }

  // ----- Runs -----

  predicate Legal(init: State, steps: seq<Step>)
    decreases |steps|, 0
  {
    steps == [] || (Legal(init, steps[..|steps| - 1]) && Enabled(After(init, steps[..|steps| - 1]), steps[|steps| - 1]))
  }

  function After(init: State, steps: seq<Step>): State
    requires Legal(init, steps)
    decreases |steps|, 1
  {
    if steps == [] then init else Apply(After(init, steps[..|steps| - 1]), steps[|steps| - 1])
  }

  lemma LastStep(init: State, steps: seq<Step>)
    requires Legal(init, steps) && steps != []
    ensures var front, last := steps[..|steps| - 1], steps[|steps| - 1];
      Legal(init, front) && Enabled(After(init, front), last) && After(init, steps) == Apply(After(init, front), last)
  {
    hide Enabled, Apply;
  }

  /** Every id taken for a new session is absent from the map at that moment. */
  ghost predicate FreshIds(init: State, steps: seq<Step>)
    requires Legal(init, steps)
    decreases |steps|
  {
    steps == [] ||
    (FreshIds(init, steps[..|steps| - 1]) && FreshId(After(init, steps[..|steps| - 1]), steps[|steps| - 1]))
  }

  ghost predicate Inv(s: State) {
    PoolInv(s) && CapInv(s) && PeakInv(s) && ScanInv(s) && BoundInv(s)
  }

  lemma StepInv(s: State, step: Step)
    requires Enabled(s, step) && Inv(s)
    ensures Inv(Apply(s, step))
  {
    hide Enabled, Apply, PoolInv, CapInv, PeakInv, ScanInv, BoundInv;
    StepPool(s, step);
    StepCap(s, step);
    StepPeak(s, step);
    StepScan(s, step);
    StepBound(s, step);
  }

  lemma {:induction false} Always(concurrency: uint, timeout: nat, steps: seq<Step>)
    requires Legal(Init(concurrency, timeout), steps)
    ensures Inv(After(Init(concurrency, timeout), steps))
    ensures After(Init(concurrency, timeout), steps).concurrency == concurrency
    ensures After(Init(concurrency, timeout), steps).timeout == timeout
    decreases |steps|
  {
    var init := Init(concurrency, timeout);
    if steps == [] {
      assert Counts(init.table) == [];
    } else {
      var before := After(init, steps[..|steps| - 1]);
      Always(concurrency, timeout, steps[..|steps| - 1]);
      StepInv(before, steps[|steps| - 1]);
      ConstantSettings(before, steps[|steps| - 1]);
      hide Inv, Enabled, Apply;
    }
  }

  /** Session bound: in every run, with a concurrency c above zero that fits an int, (sessions in the pool - 1) * c never
      exceeds the peak number of open streams reached so far, although streams close in the middle of scans; with
      c = 0 the pool never holds more than one session. */
  lemma SessionBound(concurrency: uint, timeout: nat, steps: seq<Step>)
    requires Legal(Init(concurrency, timeout), steps)
    ensures var s := After(Init(concurrency, timeout), steps);
      && (concurrency == 0 ==> |s.pool| <= 1)
      && (0 < concurrency == IntOfUint(concurrency) ==> (|s.pool| - 1) * concurrency <= s.peak)
      && Sum(Counts(s.table)) <= s.peak
  {
    hide Legal, After, PoolInv, CapInv, ScanInv, Sum, Counts;
    Always(concurrency, timeout, steps);
  }

  /** Stream cap: with concurrency above zero no session ever has more open streams than that. */
  lemma StreamCap(concurrency: uint, timeout: nat, steps: seq<Step>, h: Handle)
    requires concurrency > 0 && Legal(Init(concurrency, timeout), steps)
    requires h < |After(Init(concurrency, timeout), steps).table|
    ensures After(Init(concurrency, timeout), steps).table[h].streams <= concurrency
  {
    hide Legal, After, PoolInv, ScanInv, BoundInv, Sum, Counts;
    Always(concurrency, timeout, steps);
  }

  lemma {:induction false} SessionCustody(concurrency: uint, timeout: nat, steps: seq<Step>)
    requires Legal(Init(concurrency, timeout), steps) && FreshIds(Init(concurrency, timeout), steps)
    ensures Custody(After(Init(concurrency, timeout), steps))
    decreases |steps|
  {
    if steps != [] {
      SessionCustody(concurrency, timeout, steps[..|steps| - 1]);
      Always(concurrency, timeout, steps[..|steps| - 1]);
      hide Custody, Enabled, Apply, PoolInv, CapInv, PeakInv, ScanInv, BoundInv;
      StepCustody(After(Init(concurrency, timeout), steps[..|steps| - 1]), steps[|steps| - 1]);
    }
  }

  /** The cancel branch leaves the map empty and, given fresh ids, every session created so far closed. */
  lemma CancelClosesAll(concurrency: uint, timeout: nat, steps: seq<Step>)
    requires Legal(Init(concurrency, timeout), steps) && FreshIds(Init(concurrency, timeout), steps)
    requires steps != [] && steps[|steps| - 1] == CancelDone
    ensures var s := After(Init(concurrency, timeout), steps);
      s.pool == map[] && forall h | 0 <= h < |s.table| :: s.table[h].closed
  {
    SessionCustody(concurrency, timeout, steps);
    Always(concurrency, timeout, steps[..|steps| - 1]);
    assert After(Init(concurrency, timeout), steps[..|steps| - 1]).pool.Keys == {};
  }

  /** A cleaner pass closes a session only if it is dead already or has no open stream at that very moment. */
  lemma CleanerSparesBusy(concurrency: uint, timeout: nat, steps: seq<Step>, step: Step)
    requires Legal(Init(concurrency, timeout), steps) && (step.CleanReap? || step.CleanClosed?)
    requires Enabled(After(Init(concurrency, timeout), steps), step)
    ensures var s := After(Init(concurrency, timeout), steps);
      var id := if step.CleanReap? then s.pc.id else step.id;
      && At(s, id).streams == 0
      && (step.CleanReap? ==> s.now - At(s, id).lastActive > timeout)
      && Apply(s, step).table[s.pool[id]].closed && id !in Apply(s, step).pool
  {
    Always(concurrency, timeout, steps);
  }
}
