/** Turning messages back into a byte stream: the residue buffer shared by the websocket and gun connections. */
module Residue {
  import opened Bytes

  /** What the caller has not read yet: the rest of the current message and the messages behind it. */
  datatype Stream = Stream(rb: bytes, inbox: seq<bytes>)

  function Pending(s: Stream): bytes {
    s.rb + Concat(s.inbox)
  }

  predicate Readable(s: Stream) {
    s.rb != [] || s.inbox != []
  }

  /** One successful read into a buffer of `cap` bytes: the data and what remains. */
  function Read(s: Stream, cap: nat): (bytes, Stream)
    requires Readable(s)
  {
    var current := if s.rb != [] then s.rb else s.inbox[0];
    var later := if s.rb != [] then s.inbox else s.inbox[1..];
    var n := Min(cap, |current|);
    (current[..n], Stream(current[n..], later))
  }

  lemma PendingLoaded(s: Stream)
    requires Readable(s)
    ensures Pending(s) == if s.rb != [] then s.rb + Concat(s.inbox) else s.inbox[0] + Concat(s.inbox[1..])
  {
    assert s.rb == [] ==> s.rb + Concat(s.inbox) == Concat(s.inbox);
  }

  lemma ReadConserves(s: Stream, cap: nat)
    requires Readable(s)
    ensures Read(s, cap).0 + Pending(Read(s, cap).1) == Pending(s)
  {
    hide Concat;
    PendingLoaded(s);
    var current := if s.rb != [] then s.rb else s.inbox[0];
    var later := if s.rb != [] then s.inbox else s.inbox[1..];
    var n := Min(cap, |current|);
    assert Read(s, cap).1 == Stream(current[n..], later);
    CutJoin(current, n, Concat(later));
  }

  /** A schedule of reads, one buffer size each; a read with nothing to deliver waits, so the schedule stops there. */
  function Reads(s: Stream, caps: seq<nat>): (bytes, Stream)
    decreases caps
  {
    if caps == [] || !Readable(s) then ([], s)
    else
      var (data, next) := Read(s, caps[0]);
      var (more, last) := Reads(next, caps[1..]);
      (data + more, last)
  }

  /** Every read of the schedule returns. */
  ghost predicate AllReturn(s: Stream, caps: seq<nat>)
    decreases caps
  {
    caps == [] || (Readable(s) && AllReturn(Read(s, caps[0]).1, caps[1..]))
  }

  /** Nothing is lost, duplicated or reordered, whatever the buffer sizes. */
  lemma {:induction false} ReadsConserve(s: Stream, caps: seq<nat>)
    ensures Reads(s, caps).0 + Pending(Reads(s, caps).1) == Pending(s)
    decreases caps
  {
    if caps == [] || !Readable(s) {
      assert [] + Pending(s) == Pending(s);
    } else {
      var (data, next) := Read(s, caps[0]);
      var (more, last) := Reads(next, caps[1..]);
      assert Reads(s, caps) == (data + more, last);
      hide *;
      ReadConserves(s, caps[0]);
      ReadsConserve(next, caps[1..]);
      Assoc(data, more, Pending(last));
    }
  }

  /** Two schedules that deliver the same number of bytes deliver the same bytes. */
  lemma ChunkingIndependent(s: Stream, a: seq<nat>, b: seq<nat>)
    requires |Reads(s, a).0| == |Reads(s, b).0|
    ensures Reads(s, a).0 == Reads(s, b).0
    ensures Pending(Reads(s, a).1) == Pending(Reads(s, b).1)
  {
    ReadsConserve(s, a);
    ReadsConserve(s, b);
    hide Pending, Reads;
    var n := |Reads(s, a).0|;
    assert Reads(s, a).0 == Pending(s)[..n] && Reads(s, b).0 == Pending(s)[..n];
    assert Pending(Reads(s, a).1) == Pending(s)[n..] && Pending(Reads(s, b).1) == Pending(s)[n..];
  }

  function EmptyMessages(inbox: seq<bytes>): nat {
    if inbox == [] then 0 else (if inbox[0] == [] then 1 else 0) + EmptyMessages(inbox[1..])
  }

  /** Unread bytes plus unread empty messages: the number of reads that can still return. */
  function Measure(s: Stream): nat {
    |Pending(s)| + EmptyMessages(s.inbox)
  }

  lemma ReadShrinks(s: Stream, cap: nat)
    requires Readable(s) && cap > 0
    ensures Measure(Read(s, cap).1) < Measure(s)
  {
    ReadConserves(s, cap);
    PendingLoaded(s);
  }

  lemma {:induction false} MeasureZero(s: Stream)
    ensures Measure(s) == 0 <==> !Readable(s)
    decreases |s.inbox|
  {
    if s.rb == [] && s.inbox != [] {
      MeasureZero(Stream([], s.inbox[1..]));
    }
  }

  /** With non-empty buffers at most Measure(s) reads return, and Measure(s) reads drain the stream completely. */
  lemma {:induction false} DrainBound(s: Stream, caps: seq<nat>)
    requires forall i | 0 <= i < |caps| :: caps[i] > 0
    decreases caps
    ensures AllReturn(s, caps) ==> |caps| <= Measure(s)
    ensures |caps| >= Measure(s) ==> !Readable(Reads(s, caps).1) && Reads(s, caps).0 == Pending(s)
  {
    MeasureZero(s);
    if caps != [] && Readable(s) {
      var next := Read(s, caps[0]).1;
      ReadShrinks(s, caps[0]);
      DrainBound(next, caps[1..]);
    }
    ReadsConserve(s, caps);
    var last := Reads(s, caps).1;
    if !Readable(last) {
      assert Pending(last) == [];
      assert Reads(s, caps).0 + [] == Reads(s, caps).0;
    }
  }
}
