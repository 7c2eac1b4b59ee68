/** The accept queue and the life of a connection (gost/proxy/tcp.go, gost/proxy/server/gun.go and h2.go, handler.go).
    Producers accept connections and offer them to a bounded channel without blocking; one consumer takes them off and
    starts a relay for each; RPC and HTTP producers wait until their connection is closed. Every step is one atomic
    action of one goroutine, and a run interleaves the steps of all goroutines in any order. */
module Lifetime {
  type ConnId = nat
  type Producer = nat

  /** make(chan net.Conn, 1024) */
  const CAPACITY: nat := 1024

  datatype RelayPc = Dialing | Copying | ClosingOutbound | ClosingInbound | Ended

  /** One relay: its handler goroutine, its two copiers, and the two-slot channel of their results. */
  datatype Relay = Relay(pc: RelayPc, dialled: bool, up: bool, down: bool, results: nat, received: bool, outboundCloses: nat)

  datatype State = State(
    owner: seq<Producer>,             // connection c was the c-th accepted, by owner[c]
    rpc: seq<bool>,                   // whether a server handler waits for c to be closed
    closes: seq<nat>,                 // how often c has been closed
    hand: map<Producer, ConnId>,      // accepted and not yet offered
    waiting: map<Producer, ConnId>,   // handlers waiting on Done
    returned: set<ConnId>,            // handlers that have returned
    queue: seq<ConnId>,
    delivered: seq<ConnId>,
    dropped: set<ConnId>,
    relays: map<ConnId, Relay>)

  const INIT := State([], [], [], map[], map[], {}, [], [], {}, map[])

  datatype Step =
    | Accept(p: Producer, isRpc: bool)
    | Offer(p: Producer)
    | Deliver
    | DialFailed(c: ConnId)
    | DialOk(c: ConnId)
    | CopierEnds(c: ConnId, upward: bool)
    | Receive(c: ConnId)
    | CloseOutbound(c: ConnId)
    | CloseInbound(c: ConnId)
    | Return(p: Producer)

  predicate RelayAt(s: State, c: ConnId, pc: RelayPc) {
    c in s.relays && s.relays[c].pc == pc
  }

  predicate Enabled(s: State, step: Step) {
    match step
    case Accept(p, _) => p !in s.hand && p !in s.waiting
    case Offer(p) => p in s.hand && s.hand[p] < |s.closes| && s.hand[p] < |s.rpc|
    case Deliver => s.queue != []
    case DialFailed(c) => RelayAt(s, c, Dialing)
    case DialOk(c) => RelayAt(s, c, Dialing)
    case CopierEnds(c, upward) =>
      c in s.relays && (if upward then s.relays[c].up else s.relays[c].down) && s.relays[c].results < 2
    case Receive(c) => RelayAt(s, c, Copying) && s.relays[c].results > 0
    case CloseOutbound(c) => RelayAt(s, c, ClosingOutbound)
    case CloseInbound(c) => RelayAt(s, c, ClosingInbound) && c < |s.closes|
    case Return(p) => p in s.waiting && s.waiting[p] < |s.closes| && s.closes[s.waiting[p]] > 0
  }

  function SetRelay(s: State, c: ConnId, r: Relay): State {
    s.(relays := s.relays[c := r])
  }

  function CloseConn(s: State, c: ConnId): State
    requires c < |s.closes|
  {
    s.(closes := s.closes[c := s.closes[c] + 1])
  }

  /** select { case connChan <- conn: default: conn.Close() }, after which an RPC handler waits for Done. */
  function OfferConn(s: State, p: Producer): State
    requires Enabled(s, Offer(p))
  {
    var c := s.hand[p];
    var free := s.(hand := s.hand - {p}, waiting := if s.rpc[c] then s.waiting[p := c] else s.waiting);
    if |s.queue| < CAPACITY then free.(queue := s.queue + [c])
    else CloseConn(free.(dropped := s.dropped + {c}), c)
  }

  function Apply(s: State, step: Step): State
    requires Enabled(s, step)
  {
    match step
    case Accept(p, isRpc) =>
      s.(owner := s.owner + [p], rpc := s.rpc + [isRpc], closes := s.closes + [0], hand := s.hand[p := |s.owner|])
    case Offer(p) => OfferConn(s, p)
    case Deliver =>
      s.(queue := s.queue[1..], delivered := s.delivered + [s.queue[0]],
         relays := s.relays[s.queue[0] := Relay(Dialing, false, false, false, 0, false, 0)])
    case DialFailed(c) => SetRelay(s, c, s.relays[c].(pc := ClosingInbound))
    case DialOk(c) => SetRelay(s, c, s.relays[c].(pc := Copying, dialled := true, up := true, down := true))
    case CopierEnds(c, upward) =>
      var r := s.relays[c].(results := s.relays[c].results + 1);
      SetRelay(s, c, if upward then r.(up := false) else r.(down := false))
    case Receive(c) =>
      SetRelay(s, c, s.relays[c].(pc := ClosingOutbound, results := s.relays[c].results - 1, received := true))
    case CloseOutbound(c) =>
      SetRelay(s, c, s.relays[c].(pc := ClosingInbound, outboundCloses := s.relays[c].outboundCloses + 1))
    case CloseInbound(c) => SetRelay(CloseConn(s, c), c, s.relays[c].(pc := Ended))
    case Return(p) => s.(waiting := s.waiting - {p}, returned := s.returned + {s.waiting[p]})
  }

  // ----- Where a connection is -----

  ghost predicate InHand(s: State, c: ConnId) {
    exists p :: p in s.hand && s.hand[p] == c
  }

  function Passed(s: State): seq<ConnId> {
    s.delivered + s.queue
  }

  ghost predicate Distinct(cs: seq<ConnId>) {
    forall i, j | 0 <= i < j < |cs| :: cs[i] != cs[j]
  }

  ghost predicate HandInv(s: State) {
    && |s.rpc| == |s.closes| == |s.owner|
    && (forall p | p in s.hand ::
      && s.hand[p] < |s.owner| && s.owner[s.hand[p]] == p
      && (forall c | s.hand[p] < c < |s.owner| :: s.owner[c] != p))
  }

  ghost predicate PlaceInv(s: State) {
    && Distinct(Passed(s)) && |s.queue| <= CAPACITY
    && (forall i | 0 <= i < |Passed(s)| ::
      Passed(s)[i] < |s.owner| && Passed(s)[i] !in s.dropped && !InHand(s, Passed(s)[i]))
    && (forall c | c in s.dropped :: c < |s.owner| && !InHand(s, c))
    && (forall c | 0 <= c < |s.owner| :: c in Passed(s) || c in s.dropped || InHand(s, c))
  }

  ghost predicate RelayInv(r: Relay) {
    && (r.dialled ==> (if r.up then 1 else 0) + (if r.down then 1 else 0) + r.results + (if r.received then 1 else 0) == 2)
    && (!r.dialled ==> !r.up && !r.down && r.results == 0 && !r.received)
    && (r.pc == Dialing ==> !r.dialled)
    && (r.pc == Copying || r.pc == ClosingOutbound ==> r.dialled && r.outboundCloses == 0)
    && (r.pc == Copying ==> !r.received)
    && (r.pc == ClosingInbound || r.pc == Ended ==> r.outboundCloses == if r.dialled then 1 else 0)
    && (r.pc == Dialing ==> r.outboundCloses == 0)
    && (r.pc == ClosingOutbound ==> r.received)
  }

  ghost predicate CloseInv(s: State) {
    && |s.rpc| == |s.closes| == |s.owner|
    && (forall c :: c in s.relays <==> c in s.delivered)
    && (forall c | c in s.relays :: RelayInv(s.relays[c]))
    && (forall c | 0 <= c < |s.closes| :: s.closes[c] == if c in s.dropped || RelayAt(s, c, Ended) then 1 else 0)
    && (forall p | p in s.waiting :: s.waiting[p] < |s.owner|)
    && (forall c | c in s.returned :: c < |s.closes| && s.closes[c] == 1)
  }

  lemma StepHand(s: State, step: Step)
    requires Enabled(s, step) && HandInv(s)
    ensures HandInv(Apply(s, step))
  {
  }

  lemma AcceptPlace(s: State, step: Step)
    requires Enabled(s, step) && step.Accept? && HandInv(s) && PlaceInv(s)
    ensures PlaceInv(Apply(s, step))
  {
    var t := Apply(s, step);
    assert t.hand[step.p] == |s.owner|;
    forall c
      ensures InHand(t, c) <==> InHand(s, c) || c == |s.owner|
    {
      if InHand(s, c) {
        var p :| p in s.hand && s.hand[p] == c;
        assert t.hand[p] == c;
      }
    }
  }

  lemma HandAfterOffer(s: State, p: Producer, c: ConnId)
    requires Enabled(s, Offer(p)) && HandInv(s)
    ensures InHand(OfferConn(s, p), c) <==> InHand(s, c) && c != s.hand[p]
  {
    var t := OfferConn(s, p);
    if InHand(s, c) && c != s.hand[p] {
      var q :| q in s.hand && s.hand[q] == c;
      assert t.hand[q] == c;
    }
    if InHand(t, c) {
      var q :| q in t.hand && t.hand[q] == c;
      assert s.owner[s.hand[q]] == q;
    }
  }

  lemma OfferPlace(s: State, p: Producer)
    requires Enabled(s, Offer(p)) && HandInv(s) && PlaceInv(s)
    ensures PlaceInv(OfferConn(s, p))
  {
    var t, mine := OfferConn(s, p), s.hand[p];
    forall c
      ensures InHand(t, c) <==> InHand(s, c) && c != mine
    {
      HandAfterOffer(s, p, c);
    }
    assert InHand(s, mine) && mine < |s.owner|;
    hide HandInv, InHand, Enabled;
    if |s.queue| < CAPACITY {
      assert Passed(t) == Passed(s) + [mine];
    } else {
      assert Passed(t) == Passed(s);
    }
  }

  lemma SamePlace(s: State, t: State)
    requires PlaceInv(s) && Passed(t) == Passed(s) && |t.queue| <= |s.queue|
    requires t.owner == s.owner && t.dropped == s.dropped && t.hand == s.hand
    ensures PlaceInv(t)
  {
    assert forall c :: InHand(s, c) == InHand(t, c);
    hide InHand, Distinct, Passed;
  }

  /** A delivery moves the head of the queue; the steps of relays and waiting handlers move nothing. */
  lemma NothingMoves(s: State, step: Step)
    requires Enabled(s, step) && !step.Accept? && !step.Offer?
    ensures var t := Apply(s, step);
      && Passed(t) == Passed(s) && |t.queue| <= |s.queue|
      && t.owner == s.owner && t.dropped == s.dropped && t.hand == s.hand
  {
    if step.Deliver? {
      assert s.queue == [s.queue[0]] + s.queue[1..];
    }
  }

  lemma StepPlace(s: State, step: Step)
    requires Enabled(s, step) && HandInv(s) && PlaceInv(s)
    ensures PlaceInv(Apply(s, step))
  {
    match step
    case Accept(p, _) => AcceptPlace(s, step);
    case Offer(p) => OfferPlace(s, p);
    case _ =>
      hide Enabled, Apply, HandInv, PlaceInv;
      NothingMoves(s, step);
      SamePlace(s, Apply(s, step));
  }

  lemma RelayStep(s: State, step: Step)
    requires Enabled(s, step) && CloseInv(s)
    requires step.DialFailed? || step.DialOk? || step.CopierEnds? || step.Receive? || step.CloseOutbound?
    ensures var t := Apply(s, step);
      && step.c in s.relays && t == s.(relays := s.relays[step.c := t.relays[step.c]])
      && RelayInv(t.relays[step.c]) && (t.relays[step.c].pc == Ended <==> s.relays[step.c].pc == Ended)
  {
  }

  lemma RelayStepClose(s: State, step: Step)
    requires Enabled(s, step) && CloseInv(s)
    requires step.DialFailed? || step.DialOk? || step.CopierEnds? || step.Receive? || step.CloseOutbound?
    ensures CloseInv(Apply(s, step))
  {
    RelayStep(s, step);
    hide RelayInv, Enabled, Apply;
    var t := Apply(s, step);
    assert forall c :: RelayAt(t, c, Ended) == RelayAt(s, c, Ended);
  }

  lemma AcceptClose(s: State, step: Step)
    requires Enabled(s, step) && step.Accept? && HandInv(s) && PlaceInv(s) && CloseInv(s)
    ensures CloseInv(Apply(s, step))
  {
    var n := |s.owner|;
    assert n in s.relays ==> n in Passed(s);
  }

  lemma OpenInHand(s: State, p: Producer)
    requires p in s.hand && HandInv(s) && PlaceInv(s) && CloseInv(s)
    ensures s.hand[p] < |s.closes| && s.hand[p] !in s.relays && s.closes[s.hand[p]] == 0
  {
    var mine := s.hand[p];
    assert InHand(s, mine);
    assert mine in s.relays ==> mine in Passed(s);
    hide RelayInv, InHand;
  }

  lemma OfferClose(s: State, p: Producer)
    requires Enabled(s, Offer(p)) && HandInv(s) && PlaceInv(s) && CloseInv(s)
    ensures CloseInv(OfferConn(s, p))
  {
    OpenInHand(s, p);
    hide HandInv, PlaceInv, RelayInv;
  }

  lemma DistinctSplit(a: seq<ConnId>, b: seq<ConnId>, j: nat)
    requires Distinct(a + b) && j < |b|
    ensures b[j] !in a
  {
    forall i | 0 <= i < |a|
      ensures a[i] != b[j]
    {
      assert (a + b)[i] == a[i] && (a + b)[|a| + j] == b[j];
    }
  }

  lemma HeadIsNew(s: State)
    requires s.queue != [] && PlaceInv(s)
    ensures s.queue[0] !in s.delivered && s.queue[0] !in s.dropped && s.queue[0] < |s.owner|
  {
    assert Passed(s)[|s.delivered|] == s.queue[0];
    DistinctSplit(s.delivered, s.queue, 0);
    hide InHand;
  }

  lemma DeliverClose(s: State)
    requires Enabled(s, Deliver) && HandInv(s) && PlaceInv(s) && CloseInv(s)
    ensures CloseInv(Apply(s, Deliver))
  {
    HeadIsNew(s);
    var t, c := Apply(s, Deliver), s.queue[0];
    assert RelayInv(Relay(Dialing, false, false, false, 0, false, 0));
    hide HandInv, PlaceInv, RelayInv;
    assert t.relays.Keys == s.relays.Keys + {c};
    assert forall d :: RelayAt(t, d, Ended) == RelayAt(s, d, Ended);
    hide RelayAt;
  }

  lemma StillOpen(s: State, c: ConnId)
    requires PlaceInv(s) && CloseInv(s) && c in s.relays && s.relays[c].pc != Ended
    ensures c !in s.dropped && c < |s.closes| && s.closes[c] == 0
  {
    assert c in Passed(s);
    var i :| 0 <= i < |Passed(s)| && Passed(s)[i] == c;
    hide RelayInv, InHand;
  }

  lemma RelayEnds(r: Relay)
    requires RelayInv(r) && r.pc == ClosingInbound
    ensures RelayInv(r.(pc := Ended))
  {
  }

  lemma InboundClose(s: State, c: ConnId)
    requires Enabled(s, CloseInbound(c)) && HandInv(s) && PlaceInv(s) && CloseInv(s)
    ensures CloseInv(Apply(s, CloseInbound(c)))
  {
    StillOpen(s, c);
    RelayEnds(s.relays[c]);
    hide HandInv, PlaceInv, RelayInv;
  }

  lemma StepClose(s: State, step: Step)
    requires Enabled(s, step) && HandInv(s) && PlaceInv(s) && CloseInv(s)
    ensures CloseInv(Apply(s, step))
  {
    hide HandInv, PlaceInv, RelayInv;
    match step
    case Accept(_, _) => AcceptClose(s, step);
    case Offer(p) => OfferClose(s, p);
    case Deliver => DeliverClose(s);
    case CloseInbound(c) => InboundClose(s, c);
    case Return(p) =>
    case _ => RelayStepClose(s, step);
  }

  // ----- Order -----

  /** The connections of one producer, in the order of cs. */
  function Restrict(cs: seq<ConnId>, owner: seq<Producer>, p: Producer): seq<ConnId> {
    if cs == [] then []
    else
      var last := cs[|cs| - 1];
      Restrict(cs[..|cs| - 1], owner, p) + (if last < |owner| && owner[last] == p then [last] else [])
  }

  /** A producer's accept order among the first k connections, without those dropped or still in its hand. */
  ghost function Kept(s: State, p: Producer, k: nat): seq<ConnId>
    requires k <= |s.owner|
  {
    if k == 0 then []
    else
      var kept := s.owner[k - 1] == p && k - 1 !in s.dropped && !InHand(s, k - 1);
      Kept(s, p, k - 1) + (if kept then [k - 1] else [])
  }

  ghost predicate OrderInv(s: State) {
    forall p :: Restrict(Passed(s), s.owner, p) == Kept(s, p, |s.owner|)
  }

  lemma {:induction false} KeptFrame(s: State, t: State, p: Producer, k: nat)
    requires k <= |s.owner| && k <= |t.owner|
    requires forall c | 0 <= c < k && s.owner[c] == p :: (c in s.dropped || InHand(s, c)) == (c in t.dropped || InHand(t, c))
    requires forall c | 0 <= c < k :: s.owner[c] == t.owner[c]
    ensures Kept(s, p, k) == Kept(t, p, k)
  {
    if k > 0 {
      KeptFrame(s, t, p, k - 1);
    }
  }

  lemma {:induction false} KeptNone(s: State, p: Producer, k: nat, n: nat)
    requires k <= n <= |s.owner| && forall c | k <= c < n :: s.owner[c] != p
    ensures Kept(s, p, n) == Kept(s, p, k)
  {
    if k < n {
      KeptNone(s, p, k, n - 1);
    }
  }

  lemma {:induction false} RestrictFrame(cs: seq<ConnId>, a: seq<Producer>, b: seq<Producer>, p: Producer)
    requires forall i | 0 <= i < |cs| :: cs[i] < |a|
    requires a <= b
    ensures Restrict(cs, a, p) == Restrict(cs, b, p)
  {
    if cs != [] {
      RestrictFrame(cs[..|cs| - 1], a, b, p);
    }
  }

  lemma RestrictSnoc(cs: seq<ConnId>, c: ConnId, owner: seq<Producer>, p: Producer)
    ensures Restrict(cs + [c], owner, p) == Restrict(cs, owner, p) + (if c < |owner| && owner[c] == p then [c] else [])
  {
    assert (cs + [c])[..|cs|] == cs;
  }

  lemma SameOrder(s: State, t: State)
    requires OrderInv(s)
    requires Passed(t) == Passed(s) && t.owner == s.owner && t.dropped == s.dropped && t.hand == s.hand
    ensures OrderInv(t)
  {
    forall p
      ensures Restrict(Passed(t), t.owner, p) == Kept(t, p, |t.owner|)
    {
      KeptFrame(s, t, p, |s.owner|);
    }
  }

  lemma AcceptOrder(s: State, step: Step)
    requires Enabled(s, step) && step.Accept? && HandInv(s) && PlaceInv(s) && OrderInv(s)
    ensures OrderInv(Apply(s, step))
  {
    var t, n := Apply(s, step), |s.owner|;
    assert t.hand[step.p] == n;
    forall c | 0 <= c < n
      ensures InHand(t, c) <==> InHand(s, c)
    {
      if InHand(s, c) {
        var q :| q in s.hand && s.hand[q] == c;
        assert t.hand[q] == c;
      }
    }
    forall p
      ensures Restrict(Passed(t), t.owner, p) == Kept(t, p, |t.owner|)
    {
      KeptFrame(s, t, p, n);
      RestrictFrame(Passed(s), s.owner, t.owner, p);
      assert InHand(t, n);
      assert Kept(t, p, n + 1) == Kept(t, p, n) + [];
    }
  }

  /** Putting the connection in q's hand into the queue adds it at the end of what q keeps. */
  lemma KeptOffered(s: State, t: State, q: Producer)
    requires HandInv(s) && q in s.hand && t.owner == s.owner && t.dropped == s.dropped && s.hand[q] !in s.dropped
    requires forall c :: InHand(t, c) <==> InHand(s, c) && c != s.hand[q]
    ensures Kept(t, q, |s.owner|) == Kept(s, q, |s.owner|) + [s.hand[q]]
  {
    var mine := s.hand[q];
    assert InHand(s, mine);
    assert s.owner[mine] == q && forall c | mine < c < |s.owner| :: s.owner[c] != q;
    assert Kept(s, q, mine + 1) == Kept(s, q, mine) + [] && Kept(t, q, mine + 1) == Kept(t, q, mine) + [mine];
    hide HandInv, InHand, Kept;
    KeptNone(s, q, mine + 1, |s.owner|);
    KeptNone(t, q, mine + 1, |s.owner|);
    KeptFrame(s, t, q, mine);
  }

  lemma OfferOrder(s: State, q: Producer)
    requires Enabled(s, Offer(q)) && HandInv(s) && PlaceInv(s) && OrderInv(s)
    ensures OrderInv(OfferConn(s, q))
  {
    var t, mine := OfferConn(s, q), s.hand[q];
    forall c
      ensures InHand(t, c) <==> InHand(s, c) && c != mine
    {
      HandAfterOffer(s, q, c);
    }
    assert InHand(s, mine);
    forall p
      ensures Restrict(Passed(t), t.owner, p) == Kept(t, p, |t.owner|)
    {
      if |s.queue| < CAPACITY {
        assert Passed(t) == Passed(s) + [mine];
        RestrictSnoc(Passed(s), mine, s.owner, p);
        if p == q {
          KeptOffered(s, t, q);
        } else {
          KeptFrame(s, t, p, |s.owner|);
        }
      } else {
        assert Passed(t) == Passed(s);
        KeptFrame(s, t, p, |s.owner|);
      }
    }
  }

  lemma StepOrder(s: State, step: Step)
    requires Enabled(s, step) && HandInv(s) && PlaceInv(s) && OrderInv(s)
    ensures OrderInv(Apply(s, step))
  {
    match step
    case Accept(q, _) => AcceptOrder(s, step);
    case Offer(q) => OfferOrder(s, q);
    case _ =>
      hide Enabled, Apply, HandInv, PlaceInv, OrderInv;
      NothingMoves(s, step);
      SameOrder(s, Apply(s, step));
  }

  // ----- Runs -----

  predicate Legal(steps: seq<Step>)
    decreases |steps|, 0
  {
    steps == [] || (Legal(steps[..|steps| - 1]) && Enabled(After(steps[..|steps| - 1]), steps[|steps| - 1]))
  }

  function After(steps: seq<Step>): State
    requires Legal(steps)
    decreases |steps|, 1
  {
    if steps == [] then INIT else Apply(After(steps[..|steps| - 1]), steps[|steps| - 1])
  }

  ghost predicate Inv(s: State) {
    HandInv(s) && PlaceInv(s) && CloseInv(s) && OrderInv(s)
  }

  lemma {:induction false} Always(steps: seq<Step>)
    requires Legal(steps)
    ensures Inv(After(steps))
    decreases |steps|
  {
    if steps != [] {
      var before, step := After(steps[..|steps| - 1]), steps[|steps| - 1];
      Always(steps[..|steps| - 1]);
      hide HandInv, PlaceInv, CloseInv, OrderInv, Enabled, Apply;
      StepHand(before, step);
      StepPlace(before, step);
      StepClose(before, step);
      StepOrder(before, step);
    }
  }

  lemma {:induction false} DistinctOnce(cs: seq<ConnId>, c: ConnId)
    requires Distinct(cs)
    ensures multiset(cs)[c] <= 1
  {
    if cs != [] {
      var front, last := cs[..|cs| - 1], cs[|cs| - 1];
      DistinctOnce(front, c);
      assert cs == front + [last];
      assert c in multiset(front) <==> c in front;
    }
  }

  /** Every accepted connection is in exactly one place: in its producer's hand, queued, delivered, or dropped and
      closed; and the queue never exceeds its capacity. */
  lemma Conservation(steps: seq<Step>, c: ConnId)
    requires Legal(steps) && c < |After(steps).owner|
    ensures var s := After(steps);
      && |s.queue| <= 1024
      && (if InHand(s, c) then 1 else 0) + (if c in s.dropped then 1 else 0)
         + multiset(s.queue)[c] + multiset(s.delivered)[c] == 1
      && (c in s.dropped ==> c < |s.closes| && s.closes[c] == 1)
  {
    Always(steps);
    var s := After(steps);
    assert multiset(Passed(s)) == multiset(s.delivered) + multiset(s.queue);
    DistinctOnce(Passed(s), c);
    assert c in Passed(s) <==> c in multiset(Passed(s));
  }

  /** Per producer, what was delivered followed by what is queued is its accept order with exactly the dropped
      connections (and the one still in its hand) removed. */
  lemma PerProducerOrder(steps: seq<Step>, p: Producer)
    requires Legal(steps)
    ensures var s := After(steps);
      Restrict(s.delivered + s.queue, s.owner, p) == Kept(s, p, |s.owner|)
  {
    Always(steps);
  }

  lemma QueuedNotDelivered(s: State, c: ConnId)
    requires PlaceInv(s) && c in s.queue
    ensures c !in s.delivered && c !in s.dropped
  {
    var j :| 0 <= j < |s.queue| && s.queue[j] == c;
    assert Passed(s)[|s.delivered| + j] == c;
    DistinctSplit(s.delivered, s.queue, j);
    hide InHand;
  }

  lemma ClosedAt(s: State, c: ConnId)
    requires Inv(s) && c < |s.owner|
    ensures c < |s.closes| && s.closes[c] <= 1
    ensures InHand(s, c) || c in s.queue ==> s.closes[c] == 0
    ensures s.closes[c] == 1 <==> c in s.dropped || RelayAt(s, c, Ended)
    ensures !(c in s.dropped && c in s.relays) && (c in s.returned ==> s.closes[c] == 1)
  {
    assert c in s.relays ==> c in Passed(s);
    hide HandInv, OrderInv, RelayInv, InHand;
    if c in s.queue {
      QueuedNotDelivered(s, c);
    }
  }

  /** No connection is ever closed twice; one in a producer's hand or in the queue is not closed; and a server handler
      has returned only for a connection that was closed, which happened exactly once: by its producer if it was
      dropped, or by its relay if it was delivered, never by both. */
  lemma ClosedOnce(steps: seq<Step>, c: ConnId)
    requires Legal(steps) && c < |After(steps).owner|
    ensures var s := After(steps);
      && c < |s.closes| && s.closes[c] <= 1
      && (InHand(s, c) || c in s.queue ==> s.closes[c] == 0)
      && (s.closes[c] == 1 <==> c in s.dropped || RelayAt(s, c, Ended))
      && !(c in s.dropped && c in s.relays)
      && (c in s.returned ==> s.closes[c] == 1)
  {
    hide Legal, After;
    Always(steps);
    ClosedAt(After(steps), c);
  }

  /** A copier that has finished never blocks on the two-slot channel, although only one result is ever received; and
      a relay that has ended closed the inbound connection once, and the outbound one once if dialling succeeded. */
  lemma RelayCompletes(steps: seq<Step>, c: ConnId)
    requires Legal(steps) && c in After(steps).relays
    ensures var s := After(steps); var r := s.relays[c];
      && (r.up ==> Enabled(s, CopierEnds(c, true)))
      && (r.down ==> Enabled(s, CopierEnds(c, false)))
      && (r.pc == Copying && !r.up && !r.down ==> Enabled(s, Receive(c)))
      && (r.pc == Ended ==> c < |s.closes| && s.closes[c] == 1 && r.outboundCloses == if r.dialled then 1 else 0)
  {
    Always(steps);
    assert c in Passed(After(steps));
  }

  // ----- A copier may outlive its connection -----

  lemma Extend(steps: seq<Step>, step: Step)
    requires Legal(steps) && Enabled(After(steps), step)
    ensures Legal(steps + [step]) && After(steps + [step]) == Apply(After(steps), step)
  {
    assert (steps + [step])[..|steps|] == steps;
  }

  /** An RPC handler hands over a first connection. */
  lemma Handover(p: Producer) returns (steps: seq<Step>)
    ensures Legal(steps)
    ensures After(steps) == State([p], [true], [0], map[], map[p := 0], {}, [], [0], {},
                                  map[0 := Relay(Dialing, false, false, false, 0, false, 0)])
  {
    assert Legal([]) && After([]) == INIT;
    hide Legal, After;
    Extend([], Accept(p, true));
    var accepted := [] + [Accept(p, true)];
    assert After(accepted).hand == map[p := 0];
    Extend(accepted, Offer(p));
    var offered := accepted + [Offer(p)];
    assert After(offered).hand == map[] && After(offered).queue == [0];
    Extend(offered, Deliver);
    steps := offered + [Deliver];
  }

  lemma RelayExtend(steps: seq<Step>, step: Step, c: ConnId, r: Relay)
    requires Legal(steps) && c in After(steps).relays && Enabled(After(steps), step)
    requires step.DialOk? || step.CopierEnds? || step.Receive? || step.CloseOutbound?
    requires step.c == c && r == Apply(After(steps), step).relays[c]
    ensures Legal(steps + [step]) && After(steps + [step]) == SetRelay(After(steps), c, r)
  {
    Extend(steps, step);
    hide Legal, After;
  }

  /** Only one of the two results is waited for: the relay closes the connection and the server handler returns while the
      copier that writes to the connection is still running. */
  lemma CopierOutlivesClose(p: Producer) returns (steps: seq<Step>)
    ensures Legal(steps)
    ensures var s := After(steps);
      && 0 in s.returned && s.closes == [1]
      && 0 in s.relays && s.relays[0].pc == Ended && s.relays[0].down
  {
    var delivered := Handover(p);
    hide Legal, After;
    RelayExtend(delivered, DialOk(0), 0, Relay(Copying, true, true, true, 0, false, 0));
    var s1 := delivered + [DialOk(0)];
    RelayExtend(s1, CopierEnds(0, true), 0, Relay(Copying, true, false, true, 1, false, 0));
    var s2 := s1 + [CopierEnds(0, true)];
    RelayExtend(s2, Receive(0), 0, Relay(ClosingOutbound, true, false, true, 0, true, 0));
    var s3 := s2 + [Receive(0)];
    RelayExtend(s3, CloseOutbound(0), 0, Relay(ClosingInbound, true, false, true, 0, true, 1));
    var s4 := s3 + [CloseOutbound(0)];
    Extend(s4, CloseInbound(0));
    var s5 := s4 + [CloseInbound(0)];
    Extend(s5, Return(p));
    steps := s5 + [Return(p)];
  }
}
