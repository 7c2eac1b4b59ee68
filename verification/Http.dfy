/** gost/protocol/http/conn.go: the server side of an HTTP/2 stream, closed at most once through `done`. Its Write is three
    actions, the check of `done`, the call of the response writer and the flush, and the handler may close the connection
    between any two of them. */
module Http {
  import opened Bytes

  /** How far the one goroutine that writes to the connection has got: between two calls of Write, past the check with
      this buffer, or between writing and flushing. */
  datatype Pc = Idle | Checked(b: bytes) | Written

  /** `late` counts the uses of the response writer after `done` was closed, when its handler may have returned. */
  datatype State = State(done: bool, pc: Pc, written: bytes, flushed: nat, late: nat)

  const INIT := State(false, Idle, [], 0, 0)

  datatype Step = Check(b: bytes) | Put(taken: nat, writeOk: bool) | Flush | Shut

  /** The step uses the response writer. */
  predicate Uses(s: State, step: Step) {
    (step.Put? && s.pc.Checked?) || (step.Flush? && s.pc.Written?)
  }

  function Used(s: State): State {
    s.(late := s.late + if s.done then 1 else 0)
  }

  /** A step that is not the next one of its goroutine does nothing; nor does a second close, which would panic and which
      the callers of Close never make. */
  function Apply(s: State, step: Step): State {
    match step
    case Check(b) => if s.pc.Idle? && !s.done then s.(pc := Checked(b)) else s
    case Put(taken, writeOk) =>
      if s.pc.Checked? then
        Used(s).(written := s.written + s.pc.b[..Min(taken, |s.pc.b|)], pc := if writeOk then Written else Idle)
      else s
    case Flush => if s.pc.Written? then Used(s).(flushed := |s.written|, pc := Idle) else s
    case Shut => s.(done := true)
  }

  function Run(steps: seq<Step>): State {
    if steps == [] then INIT else Apply(Run(steps[..|steps| - 1]), steps[|steps| - 1])
  }

  lemma RunSnoc(steps: seq<Step>, step: Step)
    ensures Run(steps + [step]) == Apply(Run(steps), step)
  {
    assert (steps + [step])[..|steps|] == steps;
  }

  /** Step j closes the connection while a Write is past its check, and that Write has not returned at position k. */
  ghost predicate ClosedInside(steps: seq<Step>, j: nat, k: nat) {
    && j < k <= |steps| && steps[j].Shut? && !Run(steps[..j]).done
    && forall m | j <= m <= k :: !Run(steps[..m]).pc.Idle?
  }

  /** A Close falls between the check of a Write and a use of the response writer by the same Write. */
  ghost predicate CloseBetween(steps: seq<Step>) {
    exists j: nat, k: nat :: ClosedInside(steps, j, k) && k < |steps| && Uses(Run(steps[..k]), steps[k])
  }

  lemma ClosedInsideLonger(steps: seq<Step>, step: Step, j: nat, k: nat)
    requires ClosedInside(steps, j, k)
    ensures ClosedInside(steps + [step], j, k)
  {
    assert forall m | 0 <= m <= k :: (steps + [step])[..m] == steps[..m];
  }

  /** A Write in progress on a closed connection was past its check when the close came. */
  lemma {:induction false} BusyWhenClosed(steps: seq<Step>) returns (j: nat)
    requires Run(steps).done && !Run(steps).pc.Idle?
    ensures ClosedInside(steps, j, |steps|)
  {
    var n := |steps| - 1;
    var front, last := steps[..n], steps[n];
    assert steps == front + [last];
    if Run(front).done {
      j := BusyWhenClosed(front);
      ClosedInsideLonger(front, last, j, n);
    } else {
      j := n;
    }
    assert steps[..|steps|] == steps;
  }

  lemma {:induction false} LateMeansBetween(steps: seq<Step>)
    requires Run(steps).late > 0
    ensures CloseBetween(steps)
  {
    var n := |steps| - 1;
    var front, last := steps[..n], steps[n];
    assert steps == front + [last];
    if Run(front).late > 0 {
      LateMeansBetween(front);
      var j: nat, k: nat :| ClosedInside(front, j, k) && k < |front| && Uses(Run(front[..k]), front[k]);
      ClosedInsideLonger(front, last, j, k);
      assert steps[..k] == front[..k];
    } else {
      var j := BusyWhenClosed(front);
      ClosedInsideLonger(front, last, j, n);
    }
  }

  lemma {:induction false} OnlyGrows(steps: seq<Step>, k: nat)
    requires k <= |steps|
    ensures Run(steps[..k]).late <= Run(steps).late && (Run(steps[..k]).done ==> Run(steps).done)
  {
    if k < |steps| {
      OnlyGrows(steps[..|steps| - 1], k);
      assert steps[..|steps| - 1][..k] == steps[..k];
    } else {
      assert steps[..k] == steps;
    }
  }

  lemma StepAt(steps: seq<Step>, k: nat)
    requires k < |steps|
    ensures Run(steps[..k + 1]) == Apply(Run(steps[..k]), steps[k])
  {
    assert steps[..k + 1] == steps[..k] + [steps[k]];
    RunSnoc(steps[..k], steps[k]);
  }

  lemma ClosedFrom(steps: seq<Step>, j: nat, k: nat)
    requires j < k <= |steps| && steps[j].Shut?
    ensures Run(steps[..k]).done
  {
    hide Run;
    StepAt(steps, j);
    assert steps[..k][..j + 1] == steps[..j + 1];
    OnlyGrows(steps[..k], j + 1);
  }

  lemma BetweenMeansLate(steps: seq<Step>, j: nat, k: nat)
    requires ClosedInside(steps, j, k) && k < |steps| && Uses(Run(steps[..k]), steps[k])
    ensures Run(steps).late > 0
  {
    hide Run;
    ClosedFrom(steps, j, k);
    StepAt(steps, k);
    OnlyGrows(steps, k + 1);
  }

  /** The response writer is used after Close exactly when a Close falls between the check of a Write and a use of the
      response writer by that Write; a Write that starts after Close never uses it. */
  lemma LateIffCloseBetween(steps: seq<Step>)
    ensures Run(steps).late > 0 <==> CloseBetween(steps)
  {
    hide Run, ClosedInside, Uses;
    if Run(steps).late > 0 {
      LateMeansBetween(steps);
    }
    if CloseBetween(steps) {
      var j: nat, k: nat :| ClosedInside(steps, j, k) && k < |steps| && Uses(Run(steps[..k]), steps[k]);
      BetweenMeansLate(steps, j, k);
    }
  }

  /** A failing interleaving: all of b reaches the response writer after the connection was closed. */
  lemma LateWrite(b: bytes)
    ensures var s := Run([Check(b), Shut, Put(|b|, true), Flush]); s.late == 2 && s.written == b && s.done
  {
    assert Run([]) == INIT;
    hide Run;
    var whole := Put(|b|, true);
    RunSnoc([], Check(b));
    RunSnoc([Check(b)], Shut);
    RunSnoc([Check(b), Shut], whole);
    RunSnoc([Check(b), Shut, whole], Flush);
    assert [] + [Check(b)] == [Check(b)] && [Check(b)] + [Shut] == [Check(b), Shut];
    assert [Check(b), Shut] + [whole] == [Check(b), Shut, whole];
    assert [Check(b), Shut, whole] + [Flush] == [Check(b), Shut, whole, Flush];
    assert [] + b[..|b|] == b;
  }

  /** What the writing goroutine is promised is true of every run of the others, which can only close. */
  lemma {:induction false} PreemptionCovers(before: seq<Step>, more: seq<Step>)
    requires forall i | 0 <= i < |more| :: more[i].Shut?
    ensures Run(before + more) == Run(before).(done := Run(before).done || more != [])
  {
    if more == [] {
      assert before + more == before;
    } else {
      var front := more[..|more| - 1];
      PreemptionCovers(before, front);
      assert before + more == (before + front) + [more[|more| - 1]];
      RunSnoc(before + front, more[|more| - 1]);
    }
  }

  class HttpConnection {
    var done: bool         // the channel `done` has been closed
    var bodyClosed: bool
    var written: bytes     // taken by the response writer
    var flushed: nat       // how much of it has been flushed to the client
    ghost var sys: State
    ghost var trace: seq<Step>

    ghost predicate Valid()
      reads this
    {
      && sys == Run(trace) && done == sys.done && written == sys.written && flushed == sys.flushed
      && flushed <= |written| && (done ==> bodyClosed)
    }

    constructor ()
      ensures Valid() && sys == INIT
    {
      done, bodyClosed, written, flushed, sys, trace := false, false, [], 0, INIT, [];
    }

    ghost method Perform(step: Step)
      requires sys == Run(trace)
      modifies this`sys, this`trace
      ensures trace == old(trace) + [step] && sys == Apply(old(sys), step) && sys == Run(trace)
    {
      RunSnoc(trace, step);
      trace := trace + [step];
      sys := Apply(sys, step);
    }

    /** Another goroutine may close the connection; the caller learns only what the contract says. */
    method Preempted()
      requires Valid()
      modifies this
      ensures Valid() && old(trace) <= trace && sys == old(sys).(done := sys.done) && (old(sys.done) ==> sys.done)
    {
    }

    method IsClosed() returns (closed: bool)
      ensures closed == done
    {
      closed := done;
    }

    /** `taken` is how much of b the response writer accepts, and `writeOk` whether it reports success. A Write that starts
        after Close does not use the response writer, and one during which no Close comes does not use it late. */
    method Write(b: bytes, taken: nat, writeOk: bool) returns (n: nat, ok: bool)
      requires Valid() && sys.pc == Idle && taken <= |b|
      modifies this
      ensures Valid() && sys.pc == Idle && old(trace) <= trace && ok == (!old(done) && writeOk)
      ensures old(done) ==> n == 0 && sys == old(sys) && trace == old(trace) + [Check(b)]
      ensures !old(done) ==> written == old(written) + b[..taken]
      ensures n == if ok then taken else 0
      ensures ok ==> flushed == |written|
      ensures !done ==> sys.late == old(sys.late)
    {
      hide Run;
      var closed := IsClosed();
      Perform(Check(b));
      if closed {
        return 0, false;
      }
      Preempted();
      written := written + b[..taken];
      Perform(Put(taken, writeOk));
      if !writeOk {
        return 0, false;
      }
      Preempted();
      flushed := |written|;
      Perform(Flush);
      return taken, true;
    }

    /** Closes the request body, then `done`: closing a second time would panic, so a caller must not. */
    method Close()
      requires Valid() && !done
      modifies this
      ensures Valid() && done && bodyClosed && sys == old(sys).(done := true) && trace == old(trace) + [Shut]
    {
      bodyClosed := true;
      done := true;
      Perform(Shut);
    }
  }
}
