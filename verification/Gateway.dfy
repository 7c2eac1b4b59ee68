/** The goroutines of the accepting side as code over shared state: the accept loops of gost/proxy/tcp.go, the server
    handlers of gun.go and h2.go, and the relay of handler.go. Between any two of its own actions a goroutine is
    preempted, which lets every other goroutine take any number of steps; what each method records in `trace` is a run
    of the step system of module Lifetime, so everything proved there about runs holds of this code. */
module Gateway {
  import opened Lifetime

  /** One outcome of listener.Accept or session.AcceptStream. */
  datatype Arrival = Conn | Failure(closed: bool, ctxDone: bool)

  /** What other goroutines leave alone about producer p: only p accepts, offers and returns for p. */
  ghost predicate SameProducer(p: Producer, a: State, b: State) {
    && (p in a.hand <==> p in b.hand) && (p in a.hand ==> b.hand[p] == a.hand[p])
    && (p in a.waiting <==> p in b.waiting) && (p in a.waiting ==> b.waiting[p] == a.waiting[p])
    && multiset(a.owner)[p] == multiset(b.owner)[p] && a.owner <= b.owner && a.rpc <= b.rpc
  }

  /** What other goroutines leave alone about the relay of c: only its own handler moves it on, while its copiers
      may finish. */
  ghost predicate SameRelay(c: ConnId, a: State, b: State) {
    && c in a.relays && c in b.relays && b.relays[c].pc == a.relays[c].pc && b.relays[c].dialled == a.relays[c].dialled
    && a.relays[c].results <= b.relays[c].results
  }

  predicate StepOfProducer(step: Step, p: Producer) {
    (step.Accept? || step.Offer? || step.Return?) && step.p == p
  }

  predicate StepOfHandler(step: Step, c: ConnId) {
    (step.DialFailed? || step.DialOk? || step.Receive? || step.CloseOutbound? || step.CloseInbound?) && step.c == c
  }

  lemma OtherProducer(p: Producer, s: State, step: Step)
    requires Enabled(s, step) && !StepOfProducer(step, p)
    ensures SameProducer(p, s, Apply(s, step))
  {
    if step.Accept? {
      assert (s.owner + [step.p])[..|s.owner|] == s.owner;
    }
  }

  lemma OtherHandler(c: ConnId, s: State, step: Step)
    requires Enabled(s, step) && !StepOfHandler(step, c) && c in s.relays && PlaceInv(s) && CloseInv(s)
    ensures SameRelay(c, s, Apply(s, step))
  {
    if step.Deliver? {
      DistinctSplit(s.delivered, s.queue, 0);
    }
  }

  /** What a preempted producer is promised is true of every run in which it takes no step of its own. */
  lemma {:induction false} PreemptionCovers(p: Producer, before: seq<Step>, more: seq<Step>)
    requires Legal(before) && Legal(before + more) && forall i | 0 <= i < |more| :: !StepOfProducer(more[i], p)
    ensures SameProducer(p, After(before), After(before + more))
  {
    if more == [] {
      assert before + more == before;
    } else {
      var front := more[..|more| - 1];
      assert (before + more)[..|before + more| - 1] == before + front;
      PreemptionCovers(p, before, front);
      OtherProducer(p, After(before + front), more[|more| - 1]);
      hide Enabled, Apply;
    }
  }

  /** The same for the handler of a relay. */
  lemma {:induction false} RelayPreemptionCovers(c: ConnId, before: seq<Step>, more: seq<Step>)
    requires Legal(before) && Legal(before + more) && c in After(before).relays
    requires forall i | 0 <= i < |more| :: !StepOfHandler(more[i], c)
    ensures SameRelay(c, After(before), After(before + more))
  {
    if more == [] {
      assert before + more == before;
    } else {
      var front := more[..|more| - 1];
      assert (before + more)[..|before + more| - 1] == before + front;
      RelayPreemptionCovers(c, before, front);
      Always(before + front);
      hide Enabled, Apply;
      OtherHandler(c, After(before + front), more[|more| - 1]);
    }
  }

  class Gateway {
    var queue: seq<ConnId>
    var closes: seq<nat>
    var errChan: map<ConnId, nat>   // results waiting in each relay's channel
    ghost var sys: State
    ghost var trace: seq<Step>

    ghost predicate ErrChans()
      reads this
    {
      errChan.Keys == sys.relays.Keys && forall c | c in errChan :: errChan[c] == sys.relays[c].results
    }

    ghost predicate Valid()
      reads this
    {
      Legal(trace) && After(trace) == sys && queue == sys.queue && closes == sys.closes && ErrChans()
    }

    constructor ()
      ensures Valid() && sys == INIT
    {
      queue, closes, errChan, sys, trace := [], [], map[], INIT, [];
    }

    /** One action of the running goroutine, as seen by the step system. */
    ghost method Perform(step: Step)
      requires Legal(trace) && After(trace) == sys && Enabled(sys, step)
      modifies this`sys, this`trace
      ensures trace == old(trace) + [step] && sys == Apply(old(sys), step)
      ensures Legal(trace) && After(trace) == sys
    {
      trace := trace + [step];
      assert trace[..|trace| - 1] == old(trace);
      sys := Apply(sys, step);
    }

    /** Any number of steps of other goroutines; the caller learns only what the contract says. */
    method Preempted(ghost p: Producer)
      requires Valid()
      modifies this
      ensures Valid() && old(trace) <= trace && SameProducer(p, old(sys), sys)
    {
    }

    method PreemptedRelay(ghost c: ConnId)
      requires Valid() && c in sys.relays
      modifies this
      ensures Valid() && old(trace) <= trace && SameRelay(c, old(sys), sys)
    {
    }

    method AcceptOne(ghost p: Producer, ghost isRpc: bool) returns (c: ConnId)
      requires Valid() && p !in sys.hand && p !in sys.waiting
      modifies this
      ensures Valid() && trace == old(trace) + [Accept(p, isRpc)] && sys == Apply(old(sys), Accept(p, isRpc))
      ensures p in sys.hand && sys.hand[p] == c && p !in sys.waiting
      ensures multiset(sys.owner)[p] == multiset(old(sys.owner))[p] + 1
      ensures c < |sys.rpc| && sys.rpc[c] == isRpc
    {
      Always(trace);
      c := |closes|;
      closes := closes + [0];
      Perform(Accept(p, isRpc));
      assert sys.owner[..|sys.owner| - 1] == old(sys.owner);
    }

    /** conn.Close() on the accepted connection, with `close(c.done)` inside: closing a second time would panic. */
    method CloseConnection(c: ConnId)
      requires c < |closes| && closes[c] == 0
      modifies this`closes
      ensures closes == old(closes)[c := 1]
    {
      closes := closes[c := closes[c] + 1];
    }

    lemma OpenInHand(p: Producer)
      requires Valid() && p in sys.hand
      ensures sys.hand[p] < |closes| && closes[sys.hand[p]] == 0 && Enabled(sys, Offer(p))
    {
      Always(trace);
      hide Legal, After, PlaceInv, CloseInv, OrderInv, RelayAt;
      assert InHand(sys, sys.hand[p]);
      ClosedOnce(trace, sys.hand[p]);
    }

    /** select { case connChan <- conn: default: conn.Close() } */
    method OfferOne(ghost p: Producer, c: ConnId)
      requires Valid() && p in sys.hand && sys.hand[p] == c
      modifies this
      ensures Valid() && trace == old(trace) + [Offer(p)] && sys == OfferConn(old(sys), p)
      ensures if |old(queue)| < 1024 then queue == old(queue) + [c] && closes == old(closes)
              else queue == old(queue) && old(closes)[c] == 0 && closes == old(closes)[c := 1]
    {
      hide Legal, After;
      OpenInHand(p);
      if |queue| < CAPACITY {
        queue := queue + [c];
      } else {
        CloseConnection(c);
      }
      Perform(Offer(p));
    }

    /** The part of both accept loops behind a successful Accept. */
    method AcceptAndOffer(ghost p: Producer)
      requires Valid() && p !in sys.hand && p !in sys.waiting
      modifies this
      ensures Valid() && old(trace) <= trace && p !in sys.hand && p !in sys.waiting
      ensures multiset(sys.owner)[p] == multiset(old(sys.owner))[p] + 1
    {
      hide Legal, After, Enabled;
      var c := AcceptOne(p, false);
      Preempted(p);
      assert !sys.rpc[c];
      OfferOne(p, c);
    }

    /** Takes every connection up to the first failure that is "closed" or comes after the context is done; any other failure
        is only logged. */
    method KeepAccepting(ghost p: Producer, arrivals: seq<Arrival>)
      requires Valid() && p !in sys.hand && p !in sys.waiting
      modifies this
      ensures Valid() && old(trace) <= trace
      ensures p !in sys.hand && p !in sys.waiting
      ensures (forall k | 0 <= k < |arrivals| :: arrivals[k].Failure? ==> !arrivals[k].closed && !arrivals[k].ctxDone) ==>
        multiset(sys.owner)[p] == multiset(old(sys.owner))[p] + multiset(arrivals)[Conn]
      ensures forall k | 0 <= k < |arrivals| && arrivals[k].Failure? && (arrivals[k].closed || arrivals[k].ctxDone) &&
                         (forall j | 0 <= j < k :: arrivals[j].Failure? ==> !arrivals[j].closed && !arrivals[j].ctxDone) ::
        multiset(sys.owner)[p] == multiset(old(sys.owner))[p] + multiset(arrivals[..k])[Conn]
    {
      hide Legal, After, Enabled;
      var i := 0;
      while i < |arrivals|
        invariant 0 <= i <= |arrivals| && Valid() && old(trace) <= trace
        invariant p !in sys.hand && p !in sys.waiting
        invariant forall j | 0 <= j < i :: arrivals[j].Failure? ==> !arrivals[j].closed && !arrivals[j].ctxDone
        invariant multiset(sys.owner)[p] == multiset(old(sys.owner))[p] + multiset(arrivals[..i])[Conn]
      {
        assert arrivals[..i + 1] == arrivals[..i] + [arrivals[i]];
        Preempted(p);
        if arrivals[i].Failure? {
          if arrivals[i].closed {
            break;
          }
          if arrivals[i].ctxDone {
            return;
          }
          i := i + 1;
          continue;
        }
        AcceptAndOffer(p);
        i := i + 1;
      }
      assert i == |arrivals| ==> arrivals[..i] == arrivals;
    }

    /** Every stream accepted on one session is offered in turn; the first failure of any kind ends the session. */
    method ServeMux(ghost p: Producer, streams: seq<Arrival>)
      requires Valid() && p !in sys.hand && p !in sys.waiting
      modifies this
      ensures Valid() && old(trace) <= trace
      ensures p !in sys.hand && p !in sys.waiting
      ensures (forall k | 0 <= k < |streams| :: streams[k].Conn?) ==>
        multiset(sys.owner)[p] == multiset(old(sys.owner))[p] + |streams|
      ensures forall k | 0 <= k < |streams| && streams[k].Failure? && (forall j | 0 <= j < k :: streams[j].Conn?) ::
        multiset(sys.owner)[p] == multiset(old(sys.owner))[p] + k
    {
      hide Legal, After, Enabled;
      var i := 0;
      while i < |streams|
        invariant 0 <= i <= |streams| && Valid() && old(trace) <= trace
        invariant p !in sys.hand && p !in sys.waiting
        invariant forall j | 0 <= j < i :: streams[j].Conn?
        invariant multiset(sys.owner)[p] == multiset(old(sys.owner))[p] + i
      {
        Preempted(p);
        if streams[i].Failure? {
          return;
        }
        AcceptAndOffer(p);
        i := i + 1;
      }
    }

    lemma OwnsHand(p: Producer)
      requires Valid() && p in sys.hand
      ensures sys.hand[p] < |sys.owner| && sys.owner[sys.hand[p]] == p
    {
      Always(trace);
    }

    method OfferRpc(ghost p: Producer, c: ConnId)
      requires Valid() && p in sys.hand && sys.hand[p] == c && c < |sys.rpc| && sys.rpc[c]
      modifies this
      ensures Valid() && trace == old(trace) + [Offer(p)] && sys.owner == old(sys.owner)
      ensures p !in sys.hand && p in sys.waiting && sys.waiting[p] == c
    {
      OfferOne(p, c);
    }

    /** Has <-conn.Done() been released? */
    method PollDone(ghost p: Producer, c: ConnId) returns (released: bool)
      requires Valid() && p in sys.waiting && sys.waiting[p] == c && c < |sys.owner|
      modifies this
      ensures Valid() && old(trace) <= trace && c < |closes| && sys.owner == old(sys.owner) && sys.hand == old(sys.hand)
      ensures released ==> closes[c] == 1 && c in sys.returned && p !in sys.waiting
      ensures !released ==> p in sys.waiting && sys.waiting[p] == c && closes[c] == 0
    {
      ClosedOnce(trace, c);
      released := closes[c] > 0;
      if released {
        Perform(Return(p));
      }
    }

    /** GunListener.Tun: returns only once its connection has been closed, which has then happened exactly once. */
    method Tun(ghost p: Producer) returns (c: ConnId, returned: bool)
      requires Valid() && p !in sys.hand && p !in sys.waiting
      modifies this
      ensures Valid() && old(trace) <= trace && p !in sys.hand
      ensures c < |closes| && c < |sys.owner| && sys.owner[c] == p
      ensures returned ==> closes[c] == 1 && c in sys.returned && p !in sys.waiting
      ensures !returned ==> p in sys.waiting && sys.waiting[p] == c && closes[c] == 0
    {
      hide Legal, After, Apply, Enabled;
      c := AcceptOne(p, true);
      Preempted(p);
      OwnsHand(p);
      OfferRpc(p, c);
      Preempted(p);
      returned := PollDone(p, c);
    }

    /** H2Listener.serveHTTP: a request for another path is answered 404 and never becomes a connection. */
    method ServeHTTP(ghost p: Producer, urlPath: string, path: string) returns (status: nat, c: ConnId, returned: bool)
      requires Valid() && p !in sys.hand && p !in sys.waiting
      modifies this
      ensures Valid() && old(trace) <= trace && p !in sys.hand
      ensures status == if urlPath == path then 200 else 404
      ensures status == 404 ==> returned && trace == old(trace) && sys == old(sys)
      ensures status == 200 ==> c < |closes| && c < |sys.owner| && sys.owner[c] == p
      ensures status == 200 && returned ==> closes[c] == 1 && c in sys.returned && p !in sys.waiting
      ensures status == 200 && !returned ==> p in sys.waiting && sys.waiting[p] == c && closes[c] == 0
    {
      if urlPath != path {
        return 404, 0, true;
      }
      status := 200;
      c, returned := Tun(p);
    }

    /** The accept loop of handler.Serve takes the oldest connection and starts a relay for it. */
    method AcceptConn() returns (c: ConnId)
      requires Valid() && queue != []
      modifies this
      ensures Valid() && trace == old(trace) + [Deliver] && [c] + queue == old(queue)
      ensures RelayAt(sys, c, Dialing)
    {
      c := queue[0];
      queue := queue[1..];
      errChan := errChan[c := 0];
      Perform(Deliver);
    }

    method StartCopiers(c: ConnId)
      requires Valid() && RelayAt(sys, c, Dialing)
      modifies this
      ensures Valid() && trace == old(trace) + [Lifetime.DialOk(c)]
      ensures RelayAt(sys, c, Copying) && sys.relays[c].dialled
    {
      Perform(Lifetime.DialOk(c));
    }

    method CloseOutboundOf(c: ConnId)
      requires Valid() && RelayAt(sys, c, ClosingOutbound)
      modifies this
      ensures Valid() && trace == old(trace) + [Lifetime.CloseOutbound(c)]
      ensures RelayAt(sys, c, ClosingInbound) && sys.relays[c].dialled == old(sys.relays[c].dialled)
    {
      Perform(Lifetime.CloseOutbound(c));
    }

    /** <-errChan, if a copier has sent its result. */
    method Wait(c: ConnId) returns (ready: bool)
      requires Valid() && RelayAt(sys, c, Copying)
      modifies this
      ensures Valid() && old(trace) <= trace && c in sys.relays && sys.relays[c].dialled == old(sys.relays[c].dialled)
      ensures ready ==> sys.relays[c].pc == ClosingOutbound
      ensures !ready ==> sys == old(sys) && sys.relays[c].results == 0 && trace == old(trace)
    {
      ready := errChan[c] > 0;
      if ready {
        errChan := errChan[c := errChan[c] - 1];
        Perform(Receive(c));
      }
    }

    /** Start both copiers, wait for one result, close the outbound connection. */
    method CopyBoth(c: ConnId) returns (ready: bool)
      requires Valid() && RelayAt(sys, c, Dialing)
      modifies this
      ensures Valid() && old(trace) <= trace && c in sys.relays && sys.relays[c].dialled
      ensures ready ==> sys.relays[c].pc == ClosingInbound
      ensures !ready ==> sys.relays[c].pc == Copying && sys.relays[c].results == 0
    {
      hide Legal, After, Apply, Enabled;
      StartCopiers(c);
      PreemptedRelay(c);
      ready := Wait(c);   // err = <-errChan
      if ready {
        PreemptedRelay(c);
        CloseOutboundOf(c);   // deferred after inbound.Close, so it runs before it
      }
    }

    method FailDial(c: ConnId)
      requires Valid() && RelayAt(sys, c, Dialing)
      modifies this
      ensures Valid() && trace == old(trace) + [Lifetime.DialFailed(c)]
      ensures RelayAt(sys, c, ClosingInbound) && !sys.relays[c].dialled
    {
      Always(trace);
      Perform(Lifetime.DialFailed(c));
    }

    lemma OpenInRelay(c: ConnId)
      requires Valid() && c in sys.relays && sys.relays[c].pc != Ended
      ensures c < |closes| && closes[c] == 0
    {
      Always(trace);
      assert c in Passed(sys);
      hide Legal, After, CloseInv, OrderInv, InHand;
      ClosedOnce(trace, c);
    }

    lemma StillCopying(c: ConnId)
      requires Valid() && RelayAt(sys, c, Copying) && sys.relays[c].results == 0
      ensures sys.relays[c].up && sys.relays[c].down && c < |closes| && closes[c] == 0
    {
      hide Legal, After;
      Always(trace);
      OpenInRelay(c);
    }

    lemma EndedRelay(c: ConnId)
      requires Valid() && RelayAt(sys, c, Ended)
      ensures c < |closes| && closes[c] == 1 && sys.relays[c].outboundCloses == if sys.relays[c].dialled then 1 else 0
    {
      hide Legal, After, Enabled;
      RelayCompletes(trace, c);
    }

    method CloseInboundOf(c: ConnId)
      requires Valid() && RelayAt(sys, c, ClosingInbound)
      modifies this
      ensures Valid() && trace == old(trace) + [CloseInbound(c)]
      ensures RelayAt(sys, c, Ended) && c < |closes| && closes[c] == 1
      ensures sys.relays[c].dialled == old(sys.relays[c].dialled)
      ensures sys.relays[c].outboundCloses == if sys.relays[c].dialled then 1 else 0
    {
      hide Legal, After;
      OpenInRelay(c);
      CloseConnection(c);
      Perform(CloseInbound(c));
      EndedRelay(c);
    }

    /** The relay goroutine. It finishes unless both copiers are still running, and then inbound has been closed exactly
        once, outbound exactly once if it was dialled. */
    method RelayConn(c: ConnId, dialOk: bool) returns (finished: bool)
      requires Valid() && RelayAt(sys, c, Dialing)
      modifies this
      ensures Valid() && old(trace) <= trace && c in sys.relays
      ensures !dialOk ==> finished
      ensures finished ==> sys.relays[c].pc == Ended && c < |closes| && closes[c] == 1
      ensures finished ==> sys.relays[c].outboundCloses == if dialOk then 1 else 0
      ensures !finished ==> sys.relays[c].pc == Copying && sys.relays[c].up && sys.relays[c].down
      ensures !finished ==> c < |closes| && closes[c] == 0
    {
      hide Legal, After, Apply, Enabled;
      PreemptedRelay(c);
      if dialOk {
        finished := CopyBoth(c);
        if !finished {
          StillCopying(c);
          return;
        }
      } else {
        FailDial(c);
      }
      PreemptedRelay(c);
      CloseInboundOf(c);
      finished := true;
    }
  }
}
