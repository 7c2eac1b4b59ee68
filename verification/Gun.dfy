/** gost/protocol/gun/conn.go: a byte stream over gRPC hunks, with a one-shot `done` channel. */
module Gun {
  import opened Bytes
  import Residue
  import Websocket

  /** A gun read behaves like a websocket read: the same data and residue when it succeeds, and like one that fails
      before the first byte of a message when Recv fails. */
  lemma ReadsLikeWebsocket(s: Residue.Stream, cap: nat)
    ensures Residue.Readable(s) ==>
      var r := Websocket.ReadStep(Websocket.Ws(s.rb, s.inbox, false), cap, None);
      var (data, next) := Residue.Read(s, cap);
      r.data == data && !r.failed && Websocket.Stream(r.next) == next
    ensures s.rb == [] ==>
      var r := Websocket.ReadStep(Websocket.Ws(s.rb, s.inbox, false), cap, Some(0));
      r.data == [] && r.failed && Websocket.Stream(r.next) == s
  {
  }

  class GunConnection {
    var rb: bytes
    var inbox: seq<bytes>    // hunks Recv can return
    var outbox: seq<bytes>   // hunks handed to Send
    var done: bool           // the channel `done` has been closed

    function View(): Residue.Stream
      reads this
    {
      Residue.Stream(rb, inbox)
    }

    constructor (inbox: seq<bytes>)
      ensures View() == Residue.Stream([], inbox) && outbox == [] && !done
    {
      rb, this.inbox, outbox, done := [], inbox, [], false;
    }

    method Read(b: array<byte>, recvFails: bool) returns (n: nat, ok: bool)
      requires Residue.Readable(View()) || recvFails
      modifies this`rb, this`inbox, b
      ensures n <= b.Length
      ensures ok <==> old(rb) != [] || !recvFails
      ensures ok ==> (b[..n], View()) == Residue.Read(old(View()), b.Length)
      ensures !ok ==> n == 0 && View() == old(View())
      ensures b[n..] == old(b[..])[n..]
      ensures ok ==> (n == b.Length || rb == []) && b[..n] + rb == if old(rb) != [] then old(rb) else old(inbox)[0]
      ensures ok ==> inbox == if old(rb) != [] then old(inbox) else old(inbox)[1..]
    {
      if |rb| == 0 {
        if recvFails {
          return 0, false;
        }
        rb, inbox := inbox[0], inbox[1..];
      }
      n := Min(b.Length, |rb|);
      forall i | 0 <= i < n {
        b[i] := rb[i];
      }
      assert b[..n] == rb[..n];
      rb := rb[n..];
      ok := true;
    }

    method Write(b: bytes, sendOk: bool) returns (n: nat, ok: bool)
      modifies this`outbox
      ensures ok == sendOk && n == if ok then |b| else 0
      ensures outbox == if ok then old(outbox) + [b] else old(outbox)
    {
      if !sendOk {
        return 0, false;
      }
      outbox := outbox + [b];
      return |b|, true;
    }

    /** close(c.done): closing a second time would panic, so a caller must not. */
    method Close()
      requires !done
      modifies this`done
      ensures done
    {
      done := true;
    }
  }
}
