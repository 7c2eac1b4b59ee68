/** gost/proxy/client/ws.go and the decoding half of gost/proxy/server/ws.go: a websocket connection whose dial is
    delayed until the first write, so that this write can travel in the handshake. */
module EarlyData {
  import opened Bytes
  import opened Websocket
  import Base64
  import Residue

  /** A Go byte slice: nil and empty are different values. */
  datatype Slice = Nil | Slice(data: bytes)

  function Data(b: Slice): bytes {
    match b case Nil => [] case Slice(data) => data
  }

  /** The outgoing half of a websocket connection: the handshake header and the messages handed to it. */
  datatype Link = Link(header: Option<bytes>, sent: seq<bytes>)

  function Opened(early: Slice): Link {
    Link(match early case Nil => None case Slice(data) => Some(Base64.Encode(data)), [])
  }

  /** What a server that accepts this header starts its residue buffer with, also when decoding fails half way. */
  function Accept(header: Option<bytes>): bytes {
    if header.None? || header.value == [] then [] else Base64.Decode(header.value).data
  }

  /** The state of a delayDialConn; `dialed` counts how often the channel of that name has been closed. */
  datatype Delay = Delay(ed: uint, link: Option<Link>, dialed: nat, closed: bool)

  datatype WriteResult = WriteResult(n: nat, ok: bool)

  function Early(ed: uint, b: Slice): Slice
  {
    if |Data(b)| > IntOfUint(ed) then Nil else b
  }

  function Send(d: Delay, b: Slice, sendOk: bool): (Delay, WriteResult)
    requires d.link.Some?
  {
    var link := if sendOk then d.link.value.(sent := d.link.value.sent + [Data(b)]) else d.link.value;
    (d.(link := Some(link)), WriteResult(|Data(b)|, sendOk))
  }

  function WriteStep(d: Delay, b: Slice, dialOk: bool, sendOk: bool): (Delay, WriteResult)
  {
    if d.closed then (d, WriteResult(0, false))
    else if d.link.Some? then Send(d, b, sendOk)
    else if !dialOk then (d.(closed := true), WriteResult(0, false))
    else
      var early := Early(d.ed, b);
      var dialled := d.(link := Some(Opened(early)), dialed := d.dialed + 1);
      if early != Nil then (dialled, WriteResult(|Data(early)|, true)) else Send(dialled, b, sendOk)
  }

  /** The count a write reports: everything, unless it came too late or the dial failed. */
  lemma WriteCounts(d: Delay, b: Slice, dialOk: bool, sendOk: bool)
    ensures var r := WriteStep(d, b, dialOk, sendOk).1;
      && (r.ok ==> r.n == |Data(b)|)
      && r.n == if d.closed || (d.link.None? && !dialOk) then 0 else |Data(b)|
  {
  }

  datatype ReadOutcome = Waits | ClosedPipe | Forwards(link: Option<Link>)

  function ReadOf(d: Delay): ReadOutcome {
    if d.dialed == 0 then Waits else if d.closed then ClosedPipe else Forwards(d.link)
  }

  function CloseStep(d: Delay): Delay {
    d.(closed := true)
  }

  /** websocketClientConn: with ed > 0 nothing is dialled yet, otherwise the handshake carries no data. */
  function ClientConn(ed: uint): Delay {
    if ed > 0 then Delay(ed, None, 0, false) else Delay(ed, Some(Opened(Nil)), 1, false)
  }

  // ----- The object -----

  type Headers = map<string, bytes>

  const PROTOCOL := "Sec-WebSocket-Protocol"

  /** `header` is what the handshake carries, whether or not it succeeds. */
  method StreamWebsocketConn(hostname: bytes, userAgent: bytes, early: Slice, dialOk: bool)
    returns (c: WebsocketConn?, header: Headers)
    ensures dialOk <==> c != null
    ensures c != null ==> fresh(c) && Link(c.request, c.outbox) == Opened(early)
    ensures c != null ==> c.View() == Ws([], [], false) && !c.closed
    ensures early == Nil ==> "Sec-WebSocket-Protocol" !in header
    ensures early != Nil ==> "Sec-WebSocket-Protocol" in header && header["Sec-WebSocket-Protocol"] == Base64.Encode(early.data)
    ensures "User-Agent" in header && header["User-Agent"] == userAgent
    ensures if hostname == [] then "Host" !in header else "Host" in header && header["Host"] == hostname
  {
    header := map[];
    header := header["User-Agent" := userAgent];
    if hostname != [] {
      header := header["Host" := hostname];
    }
    if early != Nil {
      header := header[PROTOCOL := Base64.Encode(early.data)];
    }
    if !dialOk {
      return null, header;
    }
    c := new WebsocketConn(if PROTOCOL in header then Some(header[PROTOCOL]) else None, [], []);
  }

  class DelayDialConn {
    var conn: WebsocketConn?
    const ed: uint
    var dialed: nat
    var closed: bool

    /** `dialed` has been closed at most once, and exactly when there is an inner connection. */
    ghost predicate Valid()
      reads this
    {
      dialed <= 1 && (dialed == 1 <==> conn != null)
    }

    ghost function View(): Delay
      reads this, conn
    {
      Delay(ed, if conn == null then None else Some(Link(conn.request, conn.outbox)), dialed, closed)
    }

    constructor (ed: uint)
      requires ed > 0
      ensures Valid() && View() == ClientConn(ed) && conn == null
    {
      this.conn, this.ed, this.dialed, this.closed := null, ed, 0, false;
    }

    method Close()
      requires Valid()
      modifies this`closed, conn
      ensures Valid() && View() == CloseStep(old(View())) && closed
      ensures conn != null ==> conn.closed
    {
      closed := true;
      if conn != null {
        conn.Close();
      }
    }

    method Write(b: Slice, dialOk: bool, sendOk: bool) returns (r: WriteResult)
      requires Valid()
      modifies this, conn
      ensures Valid() && (View(), r) == WriteStep(old(View()), b, dialOk, sendOk)
      ensures old(conn) != null ==> conn == old(conn)
      ensures old(conn) == null && conn != null ==> fresh(conn)
      // the count: everything when the write succeeds, and also when only sending fails
      ensures r.ok ==> r.n == |Data(b)|
      ensures old(closed) || (old(conn) == null && !dialOk) ==> r.n == 0 && !r.ok && closed && conn == old(conn)
      // a later write is one message
      ensures !old(closed) && old(conn) != null ==> r.n == |Data(b)| && r.ok == sendOk && !closed
      ensures !old(closed) && old(conn) != null ==>
        conn.outbox == if sendOk then old(conn.outbox) + [Data(b)] else old(conn.outbox)
      // the first one goes into the handshake if it fits, and else is a message too
      ensures !old(closed) && old(conn) == null && dialOk ==> conn != null && !closed && r.n == |Data(b)|
      ensures !old(closed) && old(conn) == null && dialOk ==>
        if b != Nil && |Data(b)| <= IntOfUint(ed)
        then r.ok && conn.request == Some(Base64.Encode(Data(b))) && conn.outbox == []
        else r.ok == sendOk && conn.request == None && conn.outbox == if sendOk then [Data(b)] else []
    {
      if closed {
        return WriteResult(0, false);
      }
      if conn == null {
        var early := b;
        if |Data(early)| > IntOfUint(ed) {
          early := Nil;
        }
        var header;
        conn, header := StreamWebsocketConn([], [], early, dialOk);
        if conn == null {
          Close();
          return WriteResult(0, false);
        }
        assert dialed == 0;
        dialed := dialed + 1;   // close(d.dialed), which has not been closed before
        if early != Nil {
          return WriteResult(|Data(early)|, true);
        }
      }
      var n, ok := conn.Write(Data(b), sendOk);
      r := WriteResult(n, ok);
    }

    /** A read that waits for the dial does not return, so `dialed` has been closed when this one does. */
    method Read(b: array<byte>, fault: Option<nat>) returns (n: nat, failed: bool)
      requires Valid() && dialed > 0
      requires !closed ==> Returns(conn.View(), fault)
      modifies b, conn
      ensures Valid() && View() == old(View()) && n <= b.Length
      ensures closed ==> n == 0 && failed && b[..] == old(b[..]) && conn.View() == old(conn.View())
      ensures !closed ==> ReadResult(b[..n], failed, conn.View()) == ReadStep(old(conn.View()), b.Length, fault)
    {
      if closed {
        return 0, true;
      }
      n, failed := conn.Read(b, fault);
    }
  }

  /** With ed > 0 nothing is dialled yet; otherwise the caller gets a dialled connection, or the dial's failure. */
  method WebsocketClientConn(ed: uint, dialOk: bool) returns (delayed: DelayDialConn?, direct: WebsocketConn?)
    ensures delayed != null <==> ed > 0
    ensures direct != null <==> ed == 0 && dialOk
    ensures delayed != null ==> fresh(delayed) && delayed.Valid() && delayed.View() == ClientConn(ed)
    ensures delayed != null ==> delayed.ed == ed && delayed.conn == null && delayed.dialed == 0 && !delayed.closed
    ensures direct != null ==> fresh(direct) && Some(Link(direct.request, direct.outbox)) == ClientConn(ed).link
    ensures direct != null ==> direct.request == None && direct.outbox == [] && !direct.closed
  {
    delayed, direct := null, null;
    if ed > 0 {
      delayed := new DelayDialConn(ed);
    } else {
      var header;
      direct, header := StreamWebsocketConn([], [], Nil, dialOk);
    }
  }

  // ----- Every history of calls -----

  datatype Op = WriteOp(b: Slice, dialOk: bool, sendOk: bool) | ReadOp | CloseOp

  function Step(d: Delay, op: Op): Delay
  {
    match op
    case WriteOp(b, dialOk, sendOk) => WriteStep(d, b, dialOk, sendOk).0
    case ReadOp => d
    case CloseOp => CloseStep(d)
  }

  function Run(d: Delay, ops: seq<Op>): (r: Delay)
    ensures r.ed == d.ed
    decreases |ops|
  {
    if ops == [] then d else Step(Run(d, ops[..|ops| - 1]), ops[|ops| - 1])
  }

  /** The bytes of the writes that reported success. */
  function Accepted(d: Delay, ops: seq<Op>): bytes
    decreases |ops|
  {
    if ops == [] then []
    else
      var before, op := ops[..|ops| - 1], ops[|ops| - 1];
      Accepted(d, before) +
        (if op.WriteOp? && WriteStep(Run(d, before), op.b, op.dialOk, op.sendOk).1.ok then Data(op.b) else [])
  }

  /** Dialling happens at most once, and a reader that gets past the wait finds a connection to forward to. */
  ghost predicate DelayInvariant(d: Delay) {
    && d.dialed <= 1
    && (d.dialed == 1 <==> d.link.Some?)
  }

  lemma {:induction false} DelayAlways(ed: uint, ops: seq<Op>)
    ensures DelayInvariant(Run(ClientConn(ed), ops))
    ensures ReadOf(Run(ClientConn(ed), ops)) != Forwards(None)
    decreases |ops|
  {
    if ops != [] {
      DelayAlways(ed, ops[..|ops| - 1]);
    }
  }

  /** Once closed, no later write succeeds or sends anything. */
  lemma {:induction false} ClosedStaysClosed(d: Delay, ops: seq<Op>)
    requires d.closed
    ensures Run(d, ops) == d && Accepted(d, ops) == []
    decreases |ops|
  {
    if ops != [] {
      ClosedStaysClosed(d, ops[..|ops| - 1]);
    }
  }

  /** What a server reading this connection will see: its initial residue and the messages. */
  function Sent(link: Option<Link>): Residue.Stream {
    match link
    case None => Residue.Stream([], [])
    case Some(l) => Residue.Stream(Accept(l.header), l.sent)
  }

  lemma OpenedCarries(early: Slice)
    ensures Residue.Pending(Sent(Some(Opened(early)))) == Data(early)
  {
    Base64.RoundTrip(Data(early));
    assert Data(early) + [] == Data(early);
    assert Concat([]) == [];
  }

  lemma SendCarries(d: Delay, b: Slice, sendOk: bool)
    requires d.link.Some?
    ensures var (next, r) := Send(d, b, sendOk);
      Residue.Pending(Sent(next.link)) == Residue.Pending(Sent(d.link)) + (if r.ok then Data(b) else [])
  {
    var l := d.link.value;
    ConcatSnoc(l.sent, Data(b));
    hide Accept, Concat, Data;
    Assoc(Accept(l.header), Concat(l.sent), Data(b));
    assert Accept(l.header) + Concat(l.sent) + [] == Accept(l.header) + Concat(l.sent);
  }

  /** One write puts exactly its accepted bytes behind what was sent before, in the header or in a message. */
  lemma WriteCarries(d: Delay, b: Slice, dialOk: bool, sendOk: bool)
    ensures var (next, r) := WriteStep(d, b, dialOk, sendOk);
      Residue.Pending(Sent(next.link)) == Residue.Pending(Sent(d.link)) + (if r.ok then Data(b) else [])
  {
    var (next, r) := WriteStep(d, b, dialOk, sendOk);
    assert Residue.Pending(Sent(None)) == [] && Concat([]) == [];
    if d.closed || (d.link.None? && !dialOk) {
      assert Residue.Pending(Sent(d.link)) + [] == Residue.Pending(Sent(d.link));
    } else if d.link.Some? {
      SendCarries(d, b, sendOk);
    } else {
      var early := Early(d.ed, b);
      OpenedCarries(early);
      hide Sent, Residue.Pending, Opened;
      assert [] + Data(b) == Data(b);
      if early == Nil {
        SendCarries(d.(link := Some(Opened(early)), dialed := d.dialed + 1), b, sendOk);
      }
    }
  }

  lemma {:induction false} RunCarries(ed: uint, ops: seq<Op>)
    ensures Residue.Pending(Sent(Run(ClientConn(ed), ops).link)) == Accepted(ClientConn(ed), ops)
    decreases |ops|
  {
    var d := ClientConn(ed);
    if ops == [] {
      OpenedCarries(Nil);
      assert Concat([]) == [];
    } else {
      var before, op := ops[..|ops| - 1], ops[|ops| - 1];
      RunCarries(ed, before);
      if op.WriteOp? {
        WriteCarries(Run(d, before), op.b, op.dialOk, op.sendOk);
      } else {
        assert Accepted(d, before) + [] == Accepted(d, before);
      }
    }
  }

  /** Early data is transparent: for every `ed`, every history of client calls and every schedule of server reads,
      what has been delivered followed by what is still buffered or in flight is exactly what was accepted. */
  lemma Transparent(ed: uint, ops: seq<Op>, caps: seq<nat>)
    ensures var (delivered, rest) := Residue.Reads(Sent(Run(ClientConn(ed), ops).link), caps);
      delivered + Residue.Pending(rest) == Accepted(ClientConn(ed), ops)
  {
    RunCarries(ed, ops);
    Residue.ReadsConserve(Sent(Run(ClientConn(ed), ops).link), caps);
  }

  /** The accepted writes of a history, one entry each. */
  function AcceptedWrites(d: Delay, ops: seq<Op>): seq<bytes>
    decreases |ops|
  {
    if ops == [] then []
    else
      var before, op := ops[..|ops| - 1], ops[|ops| - 1];
      AcceptedWrites(d, before) +
        (if op.WriteOp? && WriteStep(Run(d, before), op.b, op.dialOk, op.sendOk).1.ok then [Data(op.b)] else [])
  }

  /** The header of the handshake and the messages, one entry each. */
  function Carried(link: Option<Link>): seq<bytes> {
    match link
    case None => []
    case Some(l) => (if l.header.Some? then [Accept(l.header)] else []) + l.sent
  }

  /** One call puts an accepted write into the header or into one message, and anything else into neither. */
  lemma StepCarriesOnce(d: Delay, op: Op)
    ensures Carried(Step(d, op).link) == Carried(d.link) +
      (if op.WriteOp? && WriteStep(d, op.b, op.dialOk, op.sendOk).1.ok then [Data(op.b)] else [])
  {
    if op.WriteOp? && !d.closed && (d.link.Some? || op.dialOk) {
      Base64.RoundTrip(Data(op.b));
      assert Base64.Encode([]) == [];
    }
    hide Base64.Encode, Base64.Decode;
  }

  lemma {:induction false} CarriedOnce(ed: uint, ops: seq<Op>)
    ensures Carried(Run(ClientConn(ed), ops).link) == AcceptedWrites(ClientConn(ed), ops)
    decreases |ops|
  {
    if ops != [] {
      CarriedOnce(ed, ops[..|ops| - 1]);
      StepCarriesOnce(Run(ClientConn(ed), ops[..|ops| - 1]), ops[|ops| - 1]);
    }
  }

  /** The call at i is the first one that is not a read, and it is a write. */
  ghost predicate FirstWriteAt(ops: seq<Op>, i: nat) {
    i < |ops| && ops[i].WriteOp? && forall j | 0 <= j < i :: ops[j].ReadOp?
  }

  /** This write goes into the header of the handshake. */
  predicate GoesEarly(ed: uint, op: Op) {
    op.WriteOp? && op.dialOk && op.b != Nil && |Data(op.b)| <= IntOfUint(ed)
  }

  lemma {:induction false} OnlyReads(d: Delay, ops: seq<Op>)
    requires forall j | 0 <= j < |ops| :: ops[j].ReadOp?
    ensures Run(d, ops) == d
    decreases |ops|
  {
    if ops != [] {
      OnlyReads(d, ops[..|ops| - 1]);
    }
  }

  /** Whether a delayed connection is dialled, and with what header, is settled by the first call that is not a read. */
  lemma {:induction false} DialSettled(ed: uint, ops: seq<Op>, i: nat)
    requires ed > 0 && FirstWriteAt(ops, i)
    ensures var d := Run(ClientConn(ed), ops);
      && (d.link.Some? <==> ops[i].dialOk) && (!ops[i].dialOk ==> d.closed)
      && (d.link.Some? ==>
        d.link.value.header == if GoesEarly(ed, ops[i]) then Some(Base64.Encode(Data(ops[i].b))) else None)
    decreases |ops|
  {
    var front := ops[..|ops| - 1];
    if i == |front| {
      OnlyReads(ClientConn(ed), front);
    } else {
      DialSettled(ed, front, i);
    }
    hide Base64.Encode;
  }

  lemma {:induction false} NeverDialled(ed: uint, ops: seq<Op>)
    requires ed > 0 && forall i: nat :: !FirstWriteAt(ops, i)
    ensures var d := Run(ClientConn(ed), ops);
      d.link.None? && (d.closed || forall j | 0 <= j < |ops| :: ops[j].ReadOp?)
    decreases |ops|
  {
    if ops != [] {
      var front := ops[..|ops| - 1];
      forall i: nat
        ensures !FirstWriteAt(front, i)
      {
        assert !FirstWriteAt(ops, i);
      }
      NeverDialled(ed, front);
      assert !FirstWriteAt(ops, |front|);
    }
  }

  /** With ed == 0 the dial comes first and its header stays empty. */
  lemma {:induction false} DialledAtOnce(ops: seq<Op>)
    ensures var link := Run(ClientConn(0), ops).link; link.Some? && link.value.header.None?
    decreases |ops|
  {
    if ops != [] {
      DialledAtOnce(ops[..|ops| - 1]);
    }
  }

  lemma OneFirstWrite(ops: seq<Op>, i: nat, k: nat)
    requires FirstWriteAt(ops, i) && FirstWriteAt(ops, k)
    ensures i == k
  {
  }

  /** In every history, failures and closes included: each accepted write is exactly one entry, the header or one
      message, in order, and nothing else is; and the header carries data exactly when ed > 0 and the first call that
      is not a read is a write of a non-nil slice of at most int(ed) bytes whose dial succeeds. */
  lemma FirstWriteOnce(ed: uint, ops: seq<Op>)
    ensures var link := Run(ClientConn(ed), ops).link;
      && Carried(link) == AcceptedWrites(ClientConn(ed), ops)
      && (link.Some? <==> ed == 0 || exists i: nat :: FirstWriteAt(ops, i) && ops[i].dialOk)
      && (link.Some? ==> (link.value.header.Some? <==>
        ed > 0 && exists i: nat :: FirstWriteAt(ops, i) && GoesEarly(ed, ops[i])))
      && (link.Some? && ed > 0 ==> forall i: nat | FirstWriteAt(ops, i) && GoesEarly(ed, ops[i]) ::
        link.value.header == Some(Base64.Encode(Data(ops[i].b))))
  {
    CarriedOnce(ed, ops);
    hide Run, Carried, AcceptedWrites, Base64.Encode, FirstWriteAt;
    if ed == 0 {
      DialledAtOnce(ops);
    } else if i: nat :| FirstWriteAt(ops, i) {
      DialSettled(ed, ops, i);
      forall k: nat | FirstWriteAt(ops, k)
        ensures k == i
      {
        OneFirstWrite(ops, i, k);
      }
    } else {
      NeverDialled(ed, ops);
    }
  }

  function WritesOnly(bs: seq<Slice>): seq<Op> {
    seq(|bs|, i requires 0 <= i < |bs| => WriteOp(bs[i], true, true))
  }

  function Total(bs: seq<Slice>): bytes
    decreases |bs|
  {
    if bs == [] then [] else Total(bs[..|bs| - 1]) + Data(bs[|bs| - 1])
  }

  /** Without failures every write is accepted, and the first one goes into the header exactly when it is a
      non-nil slice of at most int(ed) bytes with ed > 0; every other write is one message. */
  lemma {:induction false} WithoutFailures(ed: uint, bs: seq<Slice>)
    ensures var d := Run(ClientConn(ed), WritesOnly(bs));
      && !d.closed
      && Accepted(ClientConn(ed), WritesOnly(bs)) == Total(bs)
      && (bs != [] ==> d.link.Some?)
      && (d.link.Some? ==>
        var inHeader := ed > 0 && bs != [] && bs[0] != Nil && |Data(bs[0])| <= IntOfUint(ed);
        && (d.link.value.header.Some? <==> inHeader)
        && |d.link.value.sent| == if inHeader then |bs| - 1 else |bs|)
    decreases |bs|
  {
    if bs != [] {
      var front := bs[..|bs| - 1];
      WithoutFailures(ed, front);
      assert WritesOnly(bs)[..|bs| - 1] == WritesOnly(front);
    }
  }

  /** A server cannot tell which `ed` the client used: the same writes give the same byte stream. */
  lemma SameStream(ed1: uint, ed2: uint, bs: seq<Slice>, caps1: seq<nat>, caps2: seq<nat>)
    ensures var (data1, rest1) := Residue.Reads(Sent(Run(ClientConn(ed1), WritesOnly(bs)).link), caps1);
      var (data2, rest2) := Residue.Reads(Sent(Run(ClientConn(ed2), WritesOnly(bs)).link), caps2);
      && data1 + Residue.Pending(rest1) == data2 + Residue.Pending(rest2) == Total(bs)
      && (|data1| <= |data2| ==> data1 <= data2)
  {
    Transparent(ed1, WritesOnly(bs), caps1);
    Transparent(ed2, WritesOnly(bs), caps2);
    WithoutFailures(ed1, bs);
    WithoutFailures(ed2, bs);
    hide Residue.Reads, Residue.Pending, Run, Accepted, Total;
    var data1 := Residue.Reads(Sent(Run(ClientConn(ed1), WritesOnly(bs)).link), caps1).0;
    var data2 := Residue.Reads(Sent(Run(ClientConn(ed2), WritesOnly(bs)).link), caps2).0;
    assert data1 == Total(bs)[..|data1|] && data2 == Total(bs)[..|data2|];
  }
}
