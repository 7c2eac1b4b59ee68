/** gost/protocol/websocket/conn.go: a byte stream over websocket messages.
    The gorilla connection underneath is represented by the messages that have arrived and not been taken
    (`inbox`), the messages handed to it (`outbox`), and whether reading from it has failed (failures are sticky). */
module Websocket {
  import opened Bytes
  import Residue

  datatype Ws = Ws(rb: bytes, inbox: seq<bytes>, broken: bool)

  function Stream(w: Ws): Residue.Stream {
    Residue.Stream(w.rb, w.inbox)
  }

  /** What can still reach the reader: nothing but the residue once the connection has failed. */
  function Deliverable(w: Ws): bytes {
    if w.broken then w.rb else w.rb + Concat(w.inbox)
  }

  /** One call of Read: `fault` says that reading the next message fails after that many of its bytes. */
  datatype ReadResult = ReadResult(data: bytes, failed: bool, next: Ws)

  predicate Returns(w: Ws, fault: Option<nat>) {
    w.rb != [] || w.broken || fault.Some? || w.inbox != []
  }

  /** The part of the next message that a failing read still hands out. */
  function Partial(w: Ws, k: nat): bytes {
    if w.inbox == [] then [] else w.inbox[0][..Min(k, |w.inbox[0]|)]
  }

  function ReadStep(w: Ws, cap: nat, fault: Option<nat>): ReadResult
    requires Returns(w, fault)
  {
    if w.rb == [] && w.broken then ReadResult([], true, w)
    else if w.rb == [] && fault.Some? then
      var p := Partial(w, fault.value);
      var n := Min(cap, |p|);
      ReadResult(p[..n], true, Ws(p[n..], w.inbox, true))
    else
      var (data, next) := Residue.Read(Stream(w), cap);
      ReadResult(data, false, Ws(next.rb, next.inbox, w.broken))
  }

  /** A successful read takes from the front of what was pending; a failing one hands out a prefix of it. */
  lemma ReadIsPrefix(w: Ws, cap: nat, fault: Option<nat>)
    requires Returns(w, fault)
    ensures var r := ReadStep(w, cap, fault);
      && r.data + Deliverable(r.next) <= Deliverable(w)
      && (!r.failed ==> r.data + Deliverable(r.next) == Deliverable(w))
      && (r.failed ==> r.next.broken)
      && (w.broken ==> r.next.broken)
  {
    var r := ReadStep(w, cap, fault);
    if w.rb == [] && (w.broken || fault.Some?) {
      if !w.broken {
        var p := Partial(w, fault.value);
        var n := Min(cap, |p|);
        assert p[..n] + p[n..] == p;
        assert w.rb + Concat(w.inbox) == Concat(w.inbox);
      }
    } else {
      Residue.ReadConserves(Stream(w), cap);
      if w.broken {
        var n := Min(cap, |w.rb|);
        assert w.rb[..n] + w.rb[n..] == w.rb;
      }
    }
  }

  /** A read fails only when it needs the next message, and otherwise fills the buffer or uses the message up. */
  lemma ReadMeaning(w: Ws, cap: nat, fault: Option<nat>)
    requires Returns(w, fault)
    ensures var r := ReadStep(w, cap, fault);
      && |r.data| <= cap
      && (r.failed <==> w.rb == [] && (w.broken || fault.Some?))
      && (|r.data| == cap || r.next.rb == [])
      && (!r.failed ==> r.data + r.next.rb == if w.rb != [] then w.rb else w.inbox[0])
      && (!r.failed ==> r.next.inbox == if w.rb != [] then w.inbox else w.inbox[1..])
      && (r.failed && w.broken ==> r.data == [])
      && (r.failed && !w.broken && w.inbox != [] ==> r.data + r.next.rb == w.inbox[0][..Min(fault.value, |w.inbox[0]|)])
  {
  }

  class WebsocketConn {
    /** The Sec-WebSocket-Protocol header the connection was opened with, if any. */
    const request: Option<bytes>
    var rb: bytes
    var inbox: seq<bytes>
    var outbox: seq<bytes>
    var broken: bool
    var closed: bool

    function View(): Ws
      reads this
    {
      Ws(rb, inbox, broken)
    }

    /** NewWebsocketConn(conn, rb). */
    constructor (request: Option<bytes>, rb: bytes, inbox: seq<bytes>)
      ensures this.request == request && View() == Ws(rb, inbox, false) && outbox == [] && !closed
    {
      this.request := request;
      this.rb, this.inbox, this.outbox, this.broken, this.closed := rb, inbox, [], false, false;
    }

    method ReadMessage(fault: Option<nat>) returns (data: bytes, failed: bool)
      requires broken || fault.Some? || inbox != []
      modifies this`inbox, this`broken
      ensures failed == (old(broken) || fault.Some?) && broken == failed
      ensures failed ==> inbox == old(inbox) && data == if old(broken) then [] else Partial(old(View()), fault.value)
      ensures !failed ==> [data] + inbox == old(inbox)
    {
      if broken {
        return [], true;
      }
      if fault.Some? {
        data, failed, broken := Partial(View(), fault.value), true, true;
      } else {
        data, failed, inbox := inbox[0], false, inbox[1..];
      }
    }

    /** `b` is the caller's buffer. A call that would wait for the next message is not a call that returns. */
    method Read(b: array<byte>, fault: Option<nat>) returns (n: nat, failed: bool)
      requires Returns(View(), fault)
      modifies this`rb, this`inbox, this`broken, b
      ensures n <= b.Length
      ensures ReadResult(b[..n], failed, View()) == ReadStep(old(View()), b.Length, fault)
      ensures b[n..] == old(b[..])[n..]
    {
      failed := false;
      if |rb| == 0 {
        var data;
        data, failed := ReadMessage(fault);
        rb := data;
      }
      n := Min(b.Length, |rb|);
      forall i | 0 <= i < n {
        b[i] := rb[i];
      }
      assert b[..n] == rb[..n];
      rb := rb[n..];
    }

    /** Reports n = len(b) even when sending fails. */
    method Write(b: bytes, sendOk: bool) returns (n: nat, ok: bool)
      modifies this`outbox
      ensures n == |b| && ok == sendOk
      ensures outbox == if ok then old(outbox) + [b] else old(outbox)
    {
      ok := sendOk;
      if sendOk {
        outbox := outbox + [b];
      }
      n := |b|;
    }

    method Close()
      modifies this`closed
      ensures closed
    {
      closed := true;
    }
  }
}
