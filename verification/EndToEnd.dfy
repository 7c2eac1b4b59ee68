/** One direction of a whole tunnel: the relay copier at the near end (handler.go), the possibly delayed websocket
    client, the network, the server's websocket connection, and the relay copier at the far end.
    Every step below is one atomic action of one of these parties; a run is any sequence of enabled steps. */
module EndToEnd {
  import opened Bytes
  import opened EarlyData
  import Residue
  import Websocket

  /** The accepted connection at the server: its residue buffer and whether reading from it has failed. */
  datatype Server = Server(rb: bytes, broken: bool)

  datatype State = State(
    near: bytes,                      // read at the near end so far
    cbuf: bytes,                      // in the near copier's buffer
    clientUp: bool,                   // the near copier is running
    client: Delay,
    offered: Option<Option<bytes>>,   // the header of a handshake that has reached the server
    wire: seq<bytes>,                 // messages not yet taken by the server
    torn: bool,                       // the last of them is only a part of a message whose sending failed
    server: Option<Server>,
    reading: bool,                    // the far copier has not met a read error
    sbuf: bytes,                      // in the far copier's buffer
    serverUp: bool,                   // the far copier is running
    far: bytes,                       // written at the far end so far
    failed: bool)                     // some error has occurred

  function Init(ed: uint): State {
    var client := ClientConn(ed);
    var offered := if ed > 0 then None else Some(client.link.value.header);
    State([], [], true, client, offered, [], false, None, true, [], true, [], false)
  }

  /** What a failed write may nevertheless have put on the network. */
  datatype Leak = Nothing | Whole | Part(k: nat)

  datatype Step =
    | NearRead(data: bytes)
    | NearEof
    | ClientWrite(dialOk: bool, sendOk: bool, leak: Leak)
    | ClientStop
    | Upgrade(queued: bool)
    | ServerRead(cap: nat, fault: Option<nat>)
    | FarWrite(ok: bool, k: nat)
    | ServerStop

  function View(s: State): Websocket.Ws
    requires s.server.Some?
  {
    Websocket.Ws(s.server.value.rb, s.wire, s.server.value.broken)
  }

  predicate Enabled(s: State, step: Step) {
    match step
    case NearRead(data) => s.clientUp && s.cbuf == [] && data != []
    case NearEof => s.clientUp && s.cbuf == []
    case ClientWrite(_, _, _) => s.clientUp && s.cbuf != []
    case ClientStop => s.clientUp
    case Upgrade(_) => s.offered.Some? && s.server.None? && s.serverUp
    case ServerRead(cap, fault) =>
      && s.serverUp && s.reading && s.sbuf == [] && s.server.Some? && cap > 0
      && Websocket.Returns(View(s), fault)
      && (s.torn && |s.wire| == 1 && s.server.value.rb == [] ==> fault.Some? || s.server.value.broken)
    case FarWrite(_, _) => s.serverUp && s.sbuf != []
    case ServerStop => s.serverUp
  }

  /** The messages a write has added to the link. */
  function Added(before: Delay, after: Delay): seq<bytes> {
    if after.link.None? then []
    else
      var count := if before.link.None? then 0 else |before.link.value.sent|;
      if count <= |after.link.value.sent| then after.link.value.sent[count..] else []
  }

  function WriteOk(s: State, after: Delay): State {
    s.(client := after, cbuf := [],
       offered := if s.client.link.None? && after.link.Some? then Some(after.link.value.header) else s.offered,
       wire := s.wire + Added(s.client, after))
  }

  /** A failed write ends the direction, and so does one that reports fewer bytes than it was given. A dial that fails may
      still have been seen by the server, and a message whose sending failed may still arrive, whole or in part. */
  function WriteFailed(s: State, after: Delay, leak: Leak): State {
    var stopped := s.(client := after, clientUp := false, failed := true,
      offered := if s.client.link.None? && after.link.Some? then Some(after.link.value.header) else s.offered);
    if leak == Nothing || s.client.closed then stopped
    else if after.link.None? then
      stopped.(offered := Some(Opened(Early(s.client.ed, Slice(s.cbuf))).header))
    else
      var message := match leak case Part(k) => s.cbuf[..Min(k, |s.cbuf|)] case _ => s.cbuf;
      stopped.(wire := s.wire + [message], torn := leak != Whole)
  }

  function Apply(s: State, step: Step): State
    requires Enabled(s, step)
  {
    match step
    case NearRead(data) => s.(near := s.near + data, cbuf := data)
    case NearEof => s.(clientUp := false)
    case ClientWrite(dialOk, sendOk, leak) =>
      var (after, r) := WriteStep(s.client, Slice(s.cbuf), dialOk, sendOk);
      if r.ok && r.n == |s.cbuf| then WriteOk(s, after) else WriteFailed(s, after, leak)
    case ClientStop => s.(client := CloseStep(s.client), clientUp := false, failed := true)
    case Upgrade(queued) =>
      if queued then s.(server := Some(Server(Accept(s.offered.value), false)))
      else s.(serverUp := false, failed := true)
    case ServerRead(cap, fault) =>
      var r := Websocket.ReadStep(View(s), cap, fault);
      s.(server := Some(Server(r.next.rb, r.next.broken)), wire := r.next.inbox, sbuf := r.data,
         reading := !r.failed, failed := s.failed || r.failed)
    case FarWrite(ok, k) =>
      if ok then s.(far := s.far + s.sbuf, sbuf := [])
      else s.(far := s.far + s.sbuf[..Min(k, |s.sbuf|)], sbuf := [], serverUp := false, failed := true)
    case ServerStop => s.(serverUp := false, failed := true)
  }

  /** Everything between the two copiers' buffers: early data or residue, then messages in flight. */
  function InFlight(s: State): bytes {
    match s.server
    case Some(sv) => if sv.broken then sv.rb else sv.rb + Concat(s.wire)
    case None => (if s.offered.Some? then Accept(s.offered.value) else []) + Concat(s.wire)
  }

  ghost predicate NonEmpty(messages: seq<bytes>) {
    forall i | 0 <= i < |messages| :: messages[i] != []
  }

  /** Client bookkeeping: nothing is on the wire before the handshake, and a running client can still write. */
  ghost predicate ClientInv(s: State) {
    && DelayInvariant(s.client)
    && (s.client.link.Some? ==> s.offered.Some?)
    && (s.offered.None? ==> s.wire == [] && s.server.None?)
    && (s.clientUp ==> !s.client.closed && !s.torn && (s.client.link.None? ==> s.offered.None?))
    && (s.torn ==> s.wire != [])
    && (!s.failed ==> (s.clientUp || s.cbuf == []) && s.serverUp && s.reading && !s.torn)
    && (!s.failed ==> NonEmpty(s.wire))
    && (s.server.Some? ==> s.reading == !s.server.value.broken)
    && (s.server.None? ==> s.reading)
  }

  ghost predicate StreamInv(s: State) {
    && s.far + s.sbuf <= s.near
    && (s.serverUp ==>
      && s.far + s.sbuf + InFlight(s) <= s.near
      && ((s.clientUp && s.reading) || !s.failed ==> s.far + s.sbuf + InFlight(s) + s.cbuf == s.near))
  }

  lemma WriteKeepsDelay(d: Delay, b: Slice, dialOk: bool, sendOk: bool)
    requires DelayInvariant(d)
    ensures var (after, r) := WriteStep(d, b, dialOk, sendOk);
      DelayInvariant(after) && (d.link.Some? ==> after.link.Some?) && (r.ok ==> after.link.Some? && after.closed == d.closed)
  {
  }

  lemma AddedNonEmpty(d: Delay, b: bytes, dialOk: bool, sendOk: bool)
    requires b != []
    ensures var (after, r) := WriteStep(d, Slice(b), dialOk, sendOk); r.ok ==> NonEmpty(Added(d, after))
  {
  }

  lemma NonEmptyAppend(a: seq<bytes>, b: seq<bytes>)
    requires NonEmpty(a) && NonEmpty(b)
    ensures NonEmpty(a + b)
  {
  }

  lemma WriteOkInv(s: State, after: Delay)
    requires s.clientUp && ClientInv(s) && DelayInvariant(after) && after.link.Some? && after.closed == s.client.closed
    requires s.client.link.Some? ==> after.link.Some?
    requires NonEmpty(Added(s.client, after))
    ensures ClientInv(WriteOk(s, after))
  {
    hide DelayInvariant, Added;
    if !s.failed {
      NonEmptyAppend(s.wire, Added(s.client, after));
    }
    hide NonEmpty;
  }

  lemma WriteFailedInv(s: State, after: Delay, leak: Leak)
    requires s.clientUp && ClientInv(s) && DelayInvariant(after) && (s.client.link.Some? ==> after.link.Some?)
    ensures ClientInv(WriteFailed(s, after, leak))
  {
    hide DelayInvariant, Opened, Early;
  }

  lemma ClientWriteInv(s: State, step: Step)
    requires Enabled(s, step) && step.ClientWrite? && ClientInv(s)
    ensures ClientInv(Apply(s, step))
  {
    assert DelayInvariant(s.client);
    hide WriteStep, ClientInv, WriteOk, WriteFailed, Added, NonEmpty, DelayInvariant;
    var (after, r) := WriteStep(s.client, Slice(s.cbuf), step.dialOk, step.sendOk);
    WriteKeepsDelay(s.client, Slice(s.cbuf), step.dialOk, step.sendOk);
    AddedNonEmpty(s.client, s.cbuf, step.dialOk, step.sendOk);
    WriteCounts(s.client, Slice(s.cbuf), step.dialOk, step.sendOk);
    if r.ok {
      WriteOkInv(s, after);
    } else {
      WriteFailedInv(s, after, step.leak);
    }
  }

  lemma StepClientInv(s: State, step: Step)
    requires Enabled(s, step) && ClientInv(s)
    ensures ClientInv(Apply(s, step))
  {
    if step.ClientWrite? {
      ClientWriteInv(s, step);
    } else if step.ServerRead? {
      hide EarlyData.WriteStep;
    }
  }

  lemma MessageMoves(s: State, t: State, message: bytes)
    requires s.server.Some? ==> !s.server.value.broken
    requires t.wire == s.wire + [message] && t.offered == s.offered && t.server == s.server
    ensures InFlight(t) == InFlight(s) + message
  {
    ConcatSnoc(s.wire, message);
    hide Concat, Accept;
    var front := match s.server case Some(sv) => sv.rb case None => if s.offered.Some? then Accept(s.offered.value) else [];
    Assoc(front, Concat(s.wire), message);
  }

  lemma LinkInFlight(t: State, link: Link)
    requires t.server.None? && t.offered == Some(link.header) && t.wire == link.sent
    ensures InFlight(t) == Residue.Pending(Sent(Some(link)))
  {
  }

  lemma FirstWriteLeaks(s: State, step: Step, after: Delay) returns (moved: bytes)
    requires Enabled(s, step) && step.ClientWrite? && ClientInv(s) && s.client.link.None?
    requires (after, WriteResult(0, false)) == WriteStep(s.client, Slice(s.cbuf), step.dialOk, step.sendOk) ||
             (after, WriteResult(|s.cbuf|, false)) == WriteStep(s.client, Slice(s.cbuf), step.dialOk, step.sendOk)
    ensures InFlight(Apply(s, step)) == moved && moved <= s.cbuf
  {
    var t := Apply(s, step);
    var early := Early(s.client.ed, Slice(s.cbuf));
    OpenedCarries(early);
    if after.link.Some? {
      // dialled without early data, then the message itself was not accepted
      assert after.link.value == Opened(Nil);
      assert Accept(None) == [];
      moved := if t.wire == [] then [] else t.wire[0];
      assert t.wire == if t.wire == [] then [] else [moved];
      assert Concat([]) == [] && Concat([moved]) == moved + [];
      assert InFlight(t) == [] + Concat(t.wire);
    } else if step.leak == Nothing {
      moved := [];
      assert t.wire == [] && Concat([]) == [];
    } else {
      moved := Data(early);
      LinkInFlight(t, Opened(early));
    }
  }

  lemma FirstWriteMoves(s: State, step: Step) returns (moved: bytes)
    requires Enabled(s, step) && step.ClientWrite? && ClientInv(s) && s.client.link.None?
    ensures InFlight(Apply(s, step)) == InFlight(s) + moved && moved <= s.cbuf
    ensures WriteStep(s.client, Slice(s.cbuf), step.dialOk, step.sendOk).1.ok ==> moved == s.cbuf
  {
    var (after, r) := WriteStep(s.client, Slice(s.cbuf), step.dialOk, step.sendOk);
    assert InFlight(s) == [] by {
      assert Concat([]) == [];
    }
    assert Added(s.client, after) == if after.link.Some? then after.link.value.sent else [];
    assert forall m: seq<bytes> :: s.wire + m == m by {
      assert s.wire == [];
    }
    if r.ok {
      moved := s.cbuf;
      WriteCarries(s.client, Slice(s.cbuf), step.dialOk, step.sendOk);
      LinkInFlight(Apply(s, step), after.link.value);
      assert Residue.Pending(Sent(None)) == [];
      assert [] + s.cbuf == s.cbuf;
    } else {
      moved := FirstWriteLeaks(s, step, after);
    }
  }

  /** A client write moves a prefix of the copier's buffer onto the network: all of it when it succeeds. */
  lemma WriteMoves(s: State, step: Step) returns (moved: bytes)
    requires Enabled(s, step) && step.ClientWrite? && ClientInv(s) && s.reading
    ensures InFlight(Apply(s, step)) == InFlight(s) + moved && moved <= s.cbuf
    ensures WriteStep(s.client, Slice(s.cbuf), step.dialOk, step.sendOk).1.ok ==> moved == s.cbuf
  {
    var (after, r) := WriteStep(s.client, Slice(s.cbuf), step.dialOk, step.sendOk);
    if s.client.link.None? {
      moved := FirstWriteMoves(s, step);
    } else if r.ok {
      moved := s.cbuf;
      assert Added(s.client, after) == [s.cbuf];
      MessageMoves(s, Apply(s, step), s.cbuf);
    } else if step.leak == Nothing {
      moved := [];
      assert InFlight(s) + [] == InFlight(s);
    } else {
      moved := match step.leak case Part(k) => s.cbuf[..Min(k, |s.cbuf|)] case _ => s.cbuf;
      MessageMoves(s, Apply(s, step), moved);
    }
  }

  lemma NearReadKeeps(s: State, step: Step)
    requires Enabled(s, step) && step.NearRead? && ClientInv(s) && StreamInv(s)
    ensures StreamInv(Apply(s, step))
  {
    var t := Apply(s, step);
    assert InFlight(t) == InFlight(s);
    hide InFlight;
    assert s.far + s.sbuf + InFlight(s) + [] == s.far + s.sbuf + InFlight(s);
  }

  lemma ClientWriteKeeps(s: State, step: Step)
    requires Enabled(s, step) && step.ClientWrite? && ClientInv(s) && StreamInv(s)
    ensures StreamInv(Apply(s, step))
  {
    var t := Apply(s, step);
    if s.reading {
      var moved := WriteMoves(s, step);
      hide InFlight;
      var front := s.far + s.sbuf;
      Assoc(front, InFlight(s), moved);
      assert front + InFlight(s) + s.cbuf[|moved|..] == front + InFlight(s) + s.cbuf[|moved|..];
      if s.serverUp {
        assert front + InFlight(t) == front + InFlight(s) + moved;
        assert front + InFlight(s) + s.cbuf == s.near;
        if !t.failed || t.clientUp {
          assert t.cbuf == [];
          assert front + InFlight(t) + [] == s.near;
        }
      }
    } else {
      assert InFlight(t) == InFlight(s);
    }
  }

  lemma UpgradeKeeps(s: State, step: Step)
    requires Enabled(s, step) && step.Upgrade? && ClientInv(s) && StreamInv(s)
    ensures StreamInv(Apply(s, step))
  {
    assert InFlight(Apply(s, step)) == InFlight(s);
  }

  lemma ServerReadKeeps(s: State, step: Step)
    requires Enabled(s, step) && step.ServerRead? && ClientInv(s) && StreamInv(s)
    ensures StreamInv(Apply(s, step))
  {
    var t := Apply(s, step);
    Websocket.ReadIsPrefix(View(s), step.cap, step.fault);
    assert InFlight(s) == Websocket.Deliverable(View(s));
    assert InFlight(t) == Websocket.Deliverable(View(t));
    hide InFlight, Websocket.ReadStep, Websocket.Deliverable, Websocket.Returns;
    assert s.far + s.sbuf == s.far;
    Assoc(s.far, t.sbuf, InFlight(t));
    assert t.sbuf + InFlight(t) <= InFlight(s);
  }

  lemma FarWriteKeeps(s: State, step: Step)
    requires Enabled(s, step) && step.FarWrite? && ClientInv(s) && StreamInv(s)
    ensures StreamInv(Apply(s, step))
  {
    var t := Apply(s, step);
    assert InFlight(t) == InFlight(s);
    hide InFlight;
    assert step.ok ==> t.far + t.sbuf == s.far + s.sbuf;
  }

  lemma StepStreamInv(s: State, step: Step)
    requires Enabled(s, step) && ClientInv(s) && StreamInv(s)
    ensures StreamInv(Apply(s, step))
  {
    match step
    case NearRead(data) => NearReadKeeps(s, step);
    case NearEof =>
    case ClientWrite(dialOk, sendOk, leak) => ClientWriteKeeps(s, step);
    case ClientStop =>
    case Upgrade(queued) => UpgradeKeeps(s, step);
    case ServerRead(cap, fault) => ServerReadKeeps(s, step);
    case FarWrite(ok, k) => FarWriteKeeps(s, step);
    case ServerStop =>
  }

  // ----- Runs -----

  predicate Legal(ed: uint, steps: seq<Step>)
    decreases |steps|, 0
  {
    steps == [] ||
    (Legal(ed, steps[..|steps| - 1]) && Enabled(After(ed, steps[..|steps| - 1]), steps[|steps| - 1]))
  }

  /** The state after a run, which must consist of enabled steps. */
  function After(ed: uint, steps: seq<Step>): State
    requires Legal(ed, steps)
    decreases |steps|, 1
  {
    if steps == [] then Init(ed) else Apply(After(ed, steps[..|steps| - 1]), steps[|steps| - 1])
  }

  lemma Extend(ed: uint, steps: seq<Step>, step: Step)
    requires Legal(ed, steps) && Enabled(After(ed, steps), step)
    ensures Legal(ed, steps + [step]) && After(ed, steps + [step]) == Apply(After(ed, steps), step)
  {
    assert (steps + [step])[..|steps|] == steps;
  }

  lemma {:induction false} Invariants(ed: uint, steps: seq<Step>)
    requires Legal(ed, steps)
    ensures ClientInv(After(ed, steps)) && StreamInv(After(ed, steps))
    decreases |steps|
  {
    if steps == [] {
      assert Concat([]) == [];
    } else {
      var before := steps[..|steps| - 1];
      Invariants(ed, before);
      hide ClientInv, StreamInv, Enabled, Apply;
      StepClientInv(After(ed, before), steps[|steps| - 1]);
      StepStreamInv(After(ed, before), steps[|steps| - 1]);
    }
  }

  /** In every reachable state the bytes written at the far end are a prefix of the bytes read at the near end, and
      while no error has occurred what is missing is exactly what sits in the copiers' buffers, the handshake header
      or residue, and the messages in flight. */
  lemma EndToEndPrefix(ed: uint, steps: seq<Step>)
    requires Legal(ed, steps)
    ensures var s := After(ed, steps);
      && s.far <= s.near
      && (!s.failed ==> s.near == s.far + s.sbuf + InFlight(s) + s.cbuf)
  {
    Invariants(ed, steps);
    var s := After(ed, steps);
    assert s.far <= s.far + s.sbuf;
  }

  /** A bound on the steps still needed to deliver everything that has been read. */
  function Weight(s: State): nat {
    4 * |s.cbuf| + 3 * |InFlight(s)| + |s.sbuf| + if s.server.None? then 1 else 0
  }

  /** The steps that deliver what has been read, when nothing fails. */
  predicate Delivers(s: State, step: Step) {
    step == FarWrite(true, 0) || step == ServerRead(1, None) || (step == Upgrade(true) && s.server.None?) ||
    step == ClientWrite(true, true, Nothing)
  }

  ghost predicate Progress(s: State, step: Step)
    requires Enabled(s, step)
  {
    var t := Apply(s, step); !t.failed && t.near == s.near && Weight(t) < Weight(s)
  }

  lemma FarWriteProgress(s: State)
    requires ClientInv(s) && !s.failed && s.sbuf != []
    ensures Enabled(s, FarWrite(true, 0)) && Progress(s, FarWrite(true, 0))
  {
    assert InFlight(Apply(s, FarWrite(true, 0))) == InFlight(s);
    hide InFlight, ClientInv;
  }

  lemma ReadProgress(s: State)
    requires ClientInv(s) && !s.failed && s.sbuf == [] && s.server.Some? && InFlight(s) != []
    ensures Enabled(s, ServerRead(1, None)) && Progress(s, ServerRead(1, None))
  {
    var w := View(s);
    assert s.wire == [] ==> Concat(s.wire) == [];
    assert Websocket.Returns(w, None) && w.broken == false && w.inbox == s.wire && w.rb == s.server.value.rb;
    var t := Apply(s, ServerRead(1, None));
    assert InFlight(s) == Websocket.Deliverable(w) && InFlight(t) == Websocket.Deliverable(View(t));
    assert |t.sbuf| == 1;
    hide Concat, InFlight, Websocket.Deliverable, ClientInv;
    Websocket.ReadIsPrefix(w, 1, None);
  }

  lemma UpgradeProgress(s: State)
    requires ClientInv(s) && !s.failed && s.server.None? && s.offered.Some?
    ensures Enabled(s, Upgrade(true)) && Progress(s, Upgrade(true))
  {
    assert InFlight(Apply(s, Upgrade(true))) == InFlight(s);
    hide InFlight, ClientInv;
  }

  lemma WriteProgress(s: State)
    requires ClientInv(s) && !s.failed && s.cbuf != []
    ensures Enabled(s, ClientWrite(true, true, Nothing)) && Progress(s, ClientWrite(true, true, Nothing))
  {
    var moved := WriteMoves(s, ClientWrite(true, true, Nothing));
    hide InFlight, ClientInv;
  }

  lemma NothingInFlight(s: State)
    requires ClientInv(s) && s.server.None? && s.offered.None?
    ensures InFlight(s) == []
  {
    assert Concat(s.wire) == [];
  }

  /** While no error has occurred, undelivered bytes always leave some party able to move them on. */
  lemma NeverStuck(s: State) returns (step: Step)
    requires ClientInv(s) && StreamInv(s) && !s.failed && s.far != s.near
    ensures Enabled(s, step) && Delivers(s, step) && Progress(s, step)
  {
    assert s.near == s.far + s.sbuf + InFlight(s) + s.cbuf;
    hide ClientInv, StreamInv, InFlight, Enabled, Apply, Progress;
    if s.sbuf != [] {
      step := FarWrite(true, 0);
      FarWriteProgress(s);
    } else if s.server.Some? && InFlight(s) != [] {
      step := ServerRead(1, None);
      ReadProgress(s);
    } else if s.server.None? && s.offered.Some? {
      step := Upgrade(true);
      UpgradeProgress(s);
    } else {
      if s.server.None? {
        NothingInFlight(s);
      }
      step := ClientWrite(true, true, Nothing);
      WriteProgress(s);
    }
  }

  /** Every run without an error can be continued, without reading more, to one that has delivered everything. */
  lemma {:induction false} CanComplete(ed: uint, steps: seq<Step>) returns (more: seq<Step>)
    requires Legal(ed, steps) && !After(ed, steps).failed
    ensures Legal(ed, steps + more)
    ensures var t := After(ed, steps + more);
      !t.failed && t.near == After(ed, steps).near && t.far == t.near
    decreases Weight(After(ed, steps))
  {
    hide ClientInv, StreamInv, Enabled, Apply, Weight, After, Legal, InFlight, Delivers;
    var s := After(ed, steps);
    if s.far == s.near {
      more := [];
      assert steps + [] == steps;
    } else {
      Invariants(ed, steps);
      var step := NeverStuck(s);
      Extend(ed, steps, step);
      var longer := steps + [step];
      var rest := CanComplete(ed, longer);
      more := [step] + rest;
      assert steps + more == longer + rest;
    }
  }
}
