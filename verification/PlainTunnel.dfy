/** The directions of a tunnel in which no data travels in the handshake: both directions over gun, and the one from
    server to client over websocket. Each of their runs is a run of the machine of module EndToEnd with ed = 0 whose
    handshake has been accepted, so they keep what that machine keeps. */
module PlainTunnel {
  import opened Bytes
  import EarlyData
  import EndToEnd
  import Gun
  import Residue
  import Websocket

  datatype Kind = GunStream | WebsocketStream

  datatype State = State(
    near: bytes,           // read at the near end so far
    cbuf: bytes,           // in the near copier's buffer
    nearUp: bool,          // the near copier is running
    outbox: seq<bytes>,    // messages handed to the near connection
    closed: bool,          // the near connection has been closed
    wire: seq<bytes>,      // messages not yet taken by the far connection
    torn: bool,            // the last of them is only a part of a message whose sending failed
    rb: bytes,             // the far connection's residue
    reading: bool,         // the far copier has not met a read error
    sbuf: bytes,           // in the far copier's buffer
    farUp: bool,           // the far copier is running
    far: bytes,            // written at the far end so far
    failed: bool)

  const INIT := State([], [], true, [], false, [], false, [], true, [], true, [], false)

  datatype Step =
    | NearRead(data: bytes)
    | NearEof
    | Send(ok: bool, leak: EndToEnd.Leak)
    | NearStop
    | Recv(cap: nat, fault: Option<nat>)
    | FarWrite(ok: bool, k: nat)
    | FarStop

  function View(s: State): Websocket.Ws {
    Websocket.Ws(s.rb, s.wire, !s.reading)
  }

  /** One Read of the far connection. A hunk arrives whole or not at all, so a failing Recv hands out nothing. */
  function ReadBy(kind: Kind, s: State, cap: nat, fault: Option<nat>): Websocket.ReadResult
    requires s.reading && Websocket.Returns(View(s), fault)
  {
    if kind.WebsocketStream? then Websocket.ReadStep(View(s), cap, fault)
    else if s.rb == [] && fault.Some? then Websocket.ReadResult([], true, Websocket.Ws([], s.wire, true))
    else
      var (data, next) := Residue.Read(Residue.Stream(s.rb, s.wire), cap);
      Websocket.ReadResult(data, false, Websocket.Ws(next.rb, next.inbox, false))
  }

  predicate Enabled(kind: Kind, s: State, step: Step) {
    match step
    case NearRead(data) => s.nearUp && s.cbuf == [] && data != []
    case NearEof => s.nearUp && s.cbuf == []
    case Send(_, leak) => s.nearUp && s.cbuf != [] && (kind.GunStream? ==> !leak.Part?)
    case NearStop => s.nearUp
    case Recv(cap, fault) =>
      && s.farUp && s.reading && s.sbuf == [] && cap > 0 && Websocket.Returns(View(s), fault)
      && (s.torn && |s.wire| == 1 && s.rb == [] ==> fault.Some?)
    case FarWrite(_, _) => s.farUp && s.sbuf != []
    case FarStop => s.farUp
  }

  /** The part of a message whose sending failed that may still arrive. */
  function Leaked(message: bytes, leak: EndToEnd.Leak): seq<bytes> {
    match leak
    case Nothing => []
    case Whole => [message]
    case Part(k) => [message[..Min(k, |message|)]]
  }

  function Apply(kind: Kind, s: State, step: Step): State
    requires Enabled(kind, s, step)
  {
    match step
    case NearRead(data) => s.(near := s.near + data, cbuf := data)
    case NearEof => s.(nearUp := false)
    case Send(ok, leak) =>
      if ok then s.(outbox := s.outbox + [s.cbuf], wire := s.wire + [s.cbuf], cbuf := [])
      else s.(nearUp := false, failed := true, wire := s.wire + Leaked(s.cbuf, leak), torn := s.torn || leak.Part?)
    case NearStop => s.(closed := true, nearUp := false, failed := true)
    case Recv(cap, fault) =>
      var r := ReadBy(kind, s, cap, fault);
      s.(rb := r.next.rb, wire := r.next.inbox, sbuf := r.data, reading := !r.failed, failed := s.failed || r.failed)
    case FarWrite(ok, k) =>
      if ok then s.(far := s.far + s.sbuf, sbuf := [])
      else s.(far := s.far + s.sbuf[..Min(k, |s.sbuf|)], sbuf := [], farUp := false, failed := true)
    case FarStop => s.(farUp := false, failed := true)
  }

  predicate Legal(kind: Kind, steps: seq<Step>)
    decreases |steps|, 0
  {
    steps == [] || (Legal(kind, steps[..|steps| - 1]) &&
                    Enabled(kind, After(kind, steps[..|steps| - 1]), steps[|steps| - 1]))
  }

  function After(kind: Kind, steps: seq<Step>): State
    requires Legal(kind, steps)
    decreases |steps|, 1
  {
    if steps == [] then INIT else Apply(kind, After(kind, steps[..|steps| - 1]), steps[|steps| - 1])
  }

  // ----- The simulation -----

  function Image(s: State): EndToEnd.State {
    EndToEnd.State(s.near, s.cbuf, s.nearUp,
                   EarlyData.Delay(0, Some(EarlyData.Link(None, s.outbox)), 1, s.closed), Some(None), s.wire, s.torn,
                   Some(EndToEnd.Server(s.rb, !s.reading)), s.reading, s.sbuf, s.farUp, s.far, s.failed)
  }

  function ImageFault(kind: Kind, fault: Option<nat>): Option<nat> {
    if kind.GunStream? && fault.Some? then Some(0) else fault
  }

  function ImageStep(kind: Kind, step: Step): EndToEnd.Step {
    match step
    case NearRead(data) => EndToEnd.NearRead(data)
    case NearEof => EndToEnd.NearEof
    case Send(ok, leak) => EndToEnd.ClientWrite(true, ok, leak)
    case NearStop => EndToEnd.ClientStop
    case Recv(cap, fault) => EndToEnd.ServerRead(cap, ImageFault(kind, fault))
    case FarWrite(ok, k) => EndToEnd.FarWrite(ok, k)
    case FarStop => EndToEnd.ServerStop
  }

  lemma SendImage(kind: Kind, s: State, step: Step)
    requires Enabled(kind, s, step) && step.Send? && EndToEnd.ClientInv(Image(s))
    ensures EndToEnd.Apply(Image(s), ImageStep(kind, step)) == Image(Apply(kind, s, step))
  {
    assert (s.outbox + [s.cbuf])[|s.outbox|..] == [s.cbuf];
    assert s.outbox[|s.outbox|..] == [] && s.wire + [] == s.wire;
  }

  lemma ReadImage(kind: Kind, s: State, cap: nat, fault: Option<nat>)
    requires s.reading && Websocket.Returns(View(s), fault)
    ensures ReadBy(kind, s, cap, fault) == Websocket.ReadStep(View(s), cap, ImageFault(kind, fault))
    ensures ReadBy(kind, s, cap, fault).next.broken == ReadBy(kind, s, cap, fault).failed
  {
    Gun.ReadsLikeWebsocket(Residue.Stream(s.rb, s.wire), cap);
    hide Residue.Read;
  }

  lemma RecvImage(kind: Kind, s: State, cap: nat, fault: Option<nat>)
    requires Enabled(kind, s, Recv(cap, fault))
    ensures EndToEnd.Enabled(Image(s), EndToEnd.ServerRead(cap, ImageFault(kind, fault)))
    ensures EndToEnd.Apply(Image(s), EndToEnd.ServerRead(cap, ImageFault(kind, fault))) ==
      Image(Apply(kind, s, Recv(cap, fault)))
  {
    assert EndToEnd.View(Image(s)) == View(s);
    ReadImage(kind, s, cap, fault);
    hide ReadBy, Websocket.ReadStep, EarlyData.WriteStep, EndToEnd.WriteFailed, EndToEnd.WriteOk;
  }

  lemma StepImage(kind: Kind, s: State, step: Step)
    requires Enabled(kind, s, step) && EndToEnd.ClientInv(Image(s))
    ensures EndToEnd.Enabled(Image(s), ImageStep(kind, step))
    ensures EndToEnd.Apply(Image(s), ImageStep(kind, step)) == Image(Apply(kind, s, step))
  {
    match step
    case Send(_, _) => SendImage(kind, s, step);
    case Recv(cap, fault) => RecvImage(kind, s, cap, fault);
    case _ =>
  }

  function ImageRun(kind: Kind, steps: seq<Step>): seq<EndToEnd.Step> {
    if steps == [] then [EndToEnd.Upgrade(true)]
    else ImageRun(kind, steps[..|steps| - 1]) + [ImageStep(kind, steps[|steps| - 1])]
  }

  lemma ImageStarts()
    ensures EndToEnd.Legal(0, [EndToEnd.Upgrade(true)])
    ensures EndToEnd.After(0, [EndToEnd.Upgrade(true)]) == Image(INIT)
  {
    assert EndToEnd.Legal(0, []) && EndToEnd.After(0, []) == EndToEnd.Init(0);
    EndToEnd.Extend(0, [], EndToEnd.Upgrade(true));
    assert [] + [EndToEnd.Upgrade(true)] == [EndToEnd.Upgrade(true)];
    hide EndToEnd.Legal, EndToEnd.After;
  }

  /** Every run of a plain tunnel is, step by step, a run of the end-to-end machine. */
  lemma {:induction false} Simulates(kind: Kind, steps: seq<Step>)
    requires Legal(kind, steps)
    ensures EndToEnd.Legal(0, ImageRun(kind, steps))
    ensures EndToEnd.After(0, ImageRun(kind, steps)) == Image(After(kind, steps))
    decreases |steps|
  {
    if steps == [] {
      ImageStarts();
    } else {
      var front, last := steps[..|steps| - 1], steps[|steps| - 1];
      Simulates(kind, front);
      hide EndToEnd.Legal, EndToEnd.After, EndToEnd.Enabled, EndToEnd.Apply, EndToEnd.ClientInv, EndToEnd.StreamInv,
           Enabled, Apply, Image, ImageStep;
      EndToEnd.Invariants(0, ImageRun(kind, front));
      StepImage(kind, After(kind, front), last);
      EndToEnd.Extend(0, ImageRun(kind, front), ImageStep(kind, last));
    }
  }

  /** The prefix property and the exact account of what is missing, for gun in both directions and for websocket from
      server to client. */
  lemma PlainPrefix(kind: Kind, steps: seq<Step>)
    requires Legal(kind, steps)
    ensures var s := After(kind, steps);
      && s.far <= s.near
      && (!s.failed ==> s.near == s.far + s.sbuf + Residue.Pending(Residue.Stream(s.rb, s.wire)) + s.cbuf)
  {
    hide Legal, After, EndToEnd.Legal, EndToEnd.After;
    Simulates(kind, steps);
    EndToEnd.EndToEndPrefix(0, ImageRun(kind, steps));
    EndToEnd.Invariants(0, ImageRun(kind, steps));
  }

  lemma Extend(kind: Kind, steps: seq<Step>, step: Step)
    requires Legal(kind, steps) && Enabled(kind, After(kind, steps), step)
    ensures Legal(kind, steps + [step]) && After(kind, steps + [step]) == Apply(kind, After(kind, steps), step)
  {
    assert (steps + [step])[..|steps|] == steps;
  }

  lemma NeverStuck(kind: Kind, s: State) returns (step: Step)
    requires EndToEnd.ClientInv(Image(s)) && EndToEnd.StreamInv(Image(s)) && !s.failed && s.far != s.near
    ensures Enabled(kind, s, step)
    ensures var t := Apply(kind, s, step);
      !t.failed && t.near == s.near && EndToEnd.Weight(Image(t)) < EndToEnd.Weight(Image(s))
  {
    var image := EndToEnd.NeverStuck(Image(s));
    step := match image
      case FarWrite(_, _) => FarWrite(true, 0)
      case ServerRead(_, _) => Recv(1, None)
      case _ => Send(true, EndToEnd.Nothing);
    assert Enabled(kind, s, step) && ImageStep(kind, step) == image;
    hide EndToEnd.Apply, EndToEnd.Weight, EndToEnd.StreamInv;
    StepImage(kind, s, step);
  }

  function Weight(s: State): nat {
    EndToEnd.Weight(Image(s))
  }

  lemma NextStep(kind: Kind, steps: seq<Step>) returns (longer: seq<Step>)
    requires Legal(kind, steps) && !After(kind, steps).failed && After(kind, steps).far != After(kind, steps).near
    ensures steps < longer && Legal(kind, longer)
    ensures var s, t := After(kind, steps), After(kind, longer);
      !t.failed && t.near == s.near && Weight(t) < Weight(s)
  {
    hide Legal, After, Enabled, Apply, Image, EndToEnd.Weight, EndToEnd.ClientInv, EndToEnd.StreamInv, EndToEnd.Legal,
         EndToEnd.After;
    Simulates(kind, steps);
    EndToEnd.Invariants(0, ImageRun(kind, steps));
    var step := NeverStuck(kind, After(kind, steps));
    Extend(kind, steps, step);
    longer := steps + [step];
  }

  /** Every run without an error can be continued, without reading more, to one that has delivered everything. */
  lemma {:induction false} CanComplete(kind: Kind, steps: seq<Step>) returns (longer: seq<Step>)
    requires Legal(kind, steps) && !After(kind, steps).failed
    ensures steps <= longer && Legal(kind, longer)
    ensures var t := After(kind, longer); !t.failed && t.near == After(kind, steps).near && t.far == t.near
    decreases Weight(After(kind, steps))
  {
    hide *;
    if After(kind, steps).far == After(kind, steps).near {
      longer := steps;
    } else {
      var next := NextStep(kind, steps);
      longer := CanComplete(kind, next);
    }
  }
}
