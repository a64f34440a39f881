/** The WebSocket fan-out hub: per-socket identity and addressed frames, under interleaved steps. */
module WsHub {
  import opened Wrappers

  /** One connection object. */
  type Socket = nat

  const DRIVER := "DRIVER"

  datatype Identity = Identity(device: Option<string>, role: Option<string>)

  /** A broadcast between its snapshot of targets and its clean-up. */
  datatype Flight = Flight(address: Option<string>, pending: set<Socket>, dead: set<Socket>)

  datatype Sent = Sent(socket: Socket, address: Option<string>)

  datatype Hub = Hub(clients: set<Socket>, identity: map<Socket, Identity>, flights: map<nat, Flight>, sent: seq<Sent>)

  const EMPTY := Hub({}, map[], map[], [])

  predicate Truthy(s: Option<string>) {
    s.Some? && s.value != ""
  }

  /** Both role and device are set: the device can no longer be changed by the client. */
  predicate Frozen(i: Identity) {
    Truthy(i.role) && Truthy(i.device)
  }

  function Identified(i: Identity, device: Option<string>, role: Option<string>): Identity {
    Identity(if Truthy(device) && !Frozen(i) then device else i.device,
             if Truthy(role) && !Truthy(i.role) then role else i.role)
  }

  /**
   * Whether a socket takes a frame: everything when unknown, its own device's frames when bound, none for an
   * unbound driver.
   */
  predicate Wants(identity: map<Socket, Identity>, ws: Socket, address: Option<string>) {
    || address == None
    || ws !in identity
    || (if identity[ws].device.Some? then identity[ws].device == address else identity[ws].role != Some(DRIVER))
  }

  function TargetsOf(clients: set<Socket>, identity: map<Socket, Identity>, address: Option<string>): set<Socket> {
    set ws | ws in clients && Wants(identity, ws, address)
  }

  function Targets(h: Hub, address: Option<string>): set<Socket> {
    TargetsOf(h.clients, h.identity, address)
  }

  /** What happens between two awaits. `flight` names one call of broadcast. */
  datatype Step =
    | Connect(ws: Socket, device: Option<string>, role: Option<string>)
    | Disconnect(ws: Socket)
    | Identify(ws: Socket, device: Option<string>, role: Option<string>)
    | Snapshot(flight: nat, address: Option<string>)
    | Send(flight: nat, ws: Socket, alive: bool)
    | Cleanup(flight: nat)

  predicate Enabled(h: Hub, step: Step) {
    match step
    case Snapshot(f, _) => f !in h.flights
    case Send(f, ws, _) => f in h.flights && ws in h.flights[f].pending
    case Cleanup(f) => f in h.flights && h.flights[f].pending == {}
    case _ => true
  }

  function Dropped(h: Hub, sockets: set<Socket>): Hub {
    h.(clients := h.clients - sockets, identity := h.identity - sockets)
  }

  function Next(h: Hub, step: Step): Hub
    requires Enabled(h, step)
  {
    match step
    case Connect(ws, device, role) =>
      h.(clients := h.clients + {ws}, identity := h.identity[ws := Identity(device, role)])
    case Disconnect(ws) => Dropped(h, {ws})
    case Identify(ws, device, role) =>
      if ws !in h.identity then h
      else h.(identity := h.identity[ws := Identified(h.identity[ws], device, role)])
    case Snapshot(f, address) => h.(flights := h.flights[f := Flight(address, Targets(h, address), {})])
    case Send(f, ws, alive) =>
      var flight := h.flights[f];
      var rest := flight.(pending := flight.pending - {ws}, dead := flight.dead + if alive then {} else {ws});
      h.(flights := h.flights[f := rest], sent := h.sent + if alive then [Sent(ws, flight.address)] else [])
    case Cleanup(f) => Dropped(h, h.flights[f].dead).(flights := h.flights - {f})
  }

  predicate Leads(before: Hub, step: Step, after: Hub) {
    Enabled(before, step) && after == Next(before, step)
  }

  // --- The hub itself --------------------------------------------------------

  /** Tries every target once. */
  method SendAll(targets: set<Socket>, alive: Socket -> bool) returns (sent: set<Socket>, dead: set<Socket>)
    ensures sent == (set ws | ws in targets && alive(ws)) && dead == targets - sent
  {
    var todo := targets;
    sent, dead := {}, {};
    while todo != {}
      invariant forall ws | ws in todo :: ws in targets
      invariant forall ws :: ws in sent <==> ws in targets && ws !in todo && alive(ws)
      invariant forall ws :: ws in dead <==> ws in targets && ws !in todo && !alive(ws)
      decreases |todo|
    {
      var ws :| ws in todo;
      todo := todo - {ws};
      if alive(ws) {
        sent := sent + {ws};
      } else {
        dead := dead + {ws};
      }
    }
  }

  class Registry {
    var clients: set<Socket>
    var identity: map<Socket, Identity>

    ghost predicate Valid()
      reads this
    {
      clients == identity.Keys
    }

    constructor ()
      ensures Valid() && clients == {}
    {
      clients, identity := {}, map[];
    }

    method Register(ws: Socket, device: Option<string>, role: Option<string>)
      requires Valid()
      modifies this
      ensures Valid()
      ensures clients == old(clients) + {ws} && identity == old(identity)[ws := Identity(device, role)]
    {
      clients := clients + {ws};
      identity := identity[ws := Identity(device, role)];
    }

    method Drop(ws: Socket)
      requires Valid()
      modifies this
      ensures Valid() && clients == old(clients) - {ws} && identity == old(identity) - {ws}
    {
      clients := clients - {ws};
      identity := identity - {ws};
    }

    method BindIdentity(ws: Socket, device: Option<string>, role: Option<string>)
      requires Valid()
      modifies this`identity
      ensures Valid()
      ensures identity == if ws in old(identity)
                          then old(identity)[ws := Identified(old(identity)[ws], device, role)]
                          else old(identity)
    {
      if ws !in identity {
        return;
      }
      var ident := identity[ws];
      if Truthy(device) && !(Truthy(ident.role) && Truthy(ident.device)) {
        ident := ident.(device := device);
      }
      if Truthy(role) && !Truthy(ident.role) {
        ident := ident.(role := role);
      }
      identity := identity[ws := ident];
    }

    /** A broadcast nothing interrupts: every live target is sent the frame, every dead one is forgotten. */
    method Broadcast(address: Option<string>, alive: Socket -> bool) returns (sent: set<Socket>)
      requires Valid()
      modifies this
      ensures Valid()
      ensures var targets := TargetsOf(old(clients), old(identity), address);
              && sent == (set ws | ws in targets && alive(ws))
              && clients == old(clients) - (targets - sent) && identity == old(identity) - (targets - sent)
    {
      var targets := TargetsOf(clients, identity, address);
      var dead;
      sent, dead := SendAll(targets, alive);
      clients := clients - dead;
      identity := identity - dead;
    }
  }

  // --- Invariants ------------------------------------------------------------

  /** The states of an interleaving: `hs[i]` is the state before step `i`. */
  ghost predicate Path(steps: seq<Step>, hs: seq<Hub>) {
    && |hs| == |steps| + 1
    && forall i | 0 <= i < |steps| :: Leads(hs[i], steps[i], hs[i + 1])
  }

  ghost predicate History(steps: seq<Step>, hs: seq<Hub>) {
    Path(steps, hs) && hs[0] == EMPTY
  }

  lemma PathStep(steps: seq<Step>, hs: seq<Hub>, k: nat)
    requires Path(steps, hs) && k < |steps|
    ensures Leads(hs[k], steps[k], hs[k + 1])
  {
  }

  /** In every interleaving the client set is exactly the set of sockets with an identity. */
  lemma {:induction false} ClientsAreIdentified(steps: seq<Step>, hs: seq<Hub>, k: nat)
    requires History(steps, hs) && k <= |steps|
    ensures hs[k].clients == hs[k].identity.Keys
  {
    if k > 0 {
      ClientsAreIdentified(steps, hs, k - 1);
      PathStep(steps, hs, k - 1);
    }
  }

  /** This step opens or closes the socket's connection. */
  predicate Resets(h: Hub, step: Step, ws: Socket) {
    match step
    case Connect(s, _, _) => s == ws
    case Disconnect(s) => s == ws
    case Cleanup(f) => f in h.flights && ws in h.flights[f].dead
    case _ => false
  }

  /** Within a connection a role once set stays, and a device once both are set stays. */
  lemma IdentityIsWriteOnce(h: Hub, step: Step, ws: Socket)
    requires Enabled(h, step) && ws in h.identity && !Resets(h, step, ws)
    ensures ws in Next(h, step).identity
    ensures Truthy(h.identity[ws].role) ==> Next(h, step).identity[ws].role == h.identity[ws].role
    ensures Frozen(h.identity[ws]) ==> Next(h, step).identity[ws] == h.identity[ws]
  {
  }

  // --- What a step does ------------------------------------------------------

  /**
   * A frame to all goes to every socket; one to a device goes to the sockets bound to it, and to the unbound ones
   * that are not a driver's.
   */
  lemma TargetsAre(h: Hub, address: Option<string>, ws: Socket)
    ensures ws in Targets(h, address)
            <==> ws in h.clients
                 && (address == None || ws !in h.identity || h.identity[ws].device == address
                     || (h.identity[ws].device == None && h.identity[ws].role != Some("DRIVER")))
  {
  }

  /** A socket connects with the device and the role of its token, and its identity is bound once. */
  lemma ConnectAndIdentify(h: Hub, ws: Socket, device: Option<string>, role: Option<string>)
    ensures var after := Next(h, Connect(ws, device, role));
            && after.clients == h.clients + {ws} && after.identity.Keys == h.identity.Keys + {ws}
            && after.identity[ws].device == device && after.identity[ws].role == role
    ensures var after := Next(h, Identify(ws, device, role));
            && after.clients == h.clients && after.identity.Keys == h.identity.Keys
            && (ws in h.identity ==>
                  var (old_, new_) := (h.identity[ws], after.identity[ws]);
                  && (new_.device == if device.Some? && device.value != ""
                                        && (old_.role == None || old_.role == Some("")
                                            || old_.device == None || old_.device == Some(""))
                                     then device else old_.device)
                  && (new_.role == if role.Some? && role.value != "" && (old_.role == None || old_.role == Some(""))
                                   then role else old_.role))
  {
  }

  /** The targets, each once. */
  ghost predicate Lists(order: seq<Socket>, targets: set<Socket>) {
    && (forall i, j | 0 <= i < j < |order| :: order[i] != order[j])
    && (forall ws :: ws in order <==> ws in targets)
  }

  lemma RestIsPending(order: seq<Socket>, pending: set<Socket>)
    requires Lists(order, pending) && |order| > 0
    ensures order[0] in pending && Lists(order[1..], pending - {order[0]})
  {
    assert order == [order[0]] + order[1..];
    forall ws ensures ws in order[1..] <==> ws in pending - {order[0]} {
      if ws in order[1..] {
        var i :| 0 <= i < |order| - 1 && order[1..][i] == ws;
        assert order[i + 1] == ws;
      }
    }
  }

  /** Sends flight `f` to the sockets in order. */
  function SendInOrder(h: Hub, f: nat, order: seq<Socket>, alive: Socket -> bool): Hub
    requires f in h.flights && Lists(order, h.flights[f].pending)
    decreases |order|
  {
    if |order| == 0 then h
    else
      RestIsPending(order, h.flights[f].pending);
      SendInOrder(Next(h, Send(f, order[0], alive(order[0]))), f, order[1..], alive)
  }

  /** The frames a flight sends, and the sockets it finds dead. */
  function SentIn(order: seq<Socket>, address: Option<string>, alive: Socket -> bool): seq<Sent> {
    if |order| == 0 then []
    else (if alive(order[0]) then [Sent(order[0], address)] else []) + SentIn(order[1..], address, alive)
  }

  lemma {:induction false} SentInOrder(h: Hub, f: nat, order: seq<Socket>, alive: Socket -> bool)
    requires f in h.flights && Lists(order, h.flights[f].pending)
    ensures var after, flight := SendInOrder(h, f, order, alive), h.flights[f];
            && after.clients == h.clients && after.identity == h.identity
            && after.sent == h.sent + SentIn(order, flight.address, alive)
            && after.flights == h.flights[f := Flight(flight.address, {},
                                                      flight.dead + set ws | ws in flight.pending && !alive(ws))]
    decreases |order|
  {
    var flight := h.flights[f];
    if |order| == 0 {
      assert flight.pending == {};
      assert flight.dead + (set ws | ws in flight.pending && !alive(ws)) == flight.dead;
      assert flight == Flight(flight.address, {}, flight.dead);
      assert h.flights == h.flights[f := flight];
      assert h.sent + [] == h.sent;
    } else {
      RestIsPending(order, flight.pending);
      var next := Next(h, Send(f, order[0], alive(order[0])));
      SentInOrder(next, f, order[1..], alive);
      var pending := flight.pending - {order[0]};
      assert next.flights[f].dead + (set ws | ws in pending && !alive(ws))
          == flight.dead + set ws | ws in flight.pending && !alive(ws);
      assert next.sent + SentIn(order[1..], flight.address, alive) == h.sent + SentIn(order, flight.address, alive);
    }
  }

  /**
   * A broadcast nothing comes between: it can be cleaned up, every live target was sent the frame once, the dead
   * ones are forgotten, and nothing else changes.
   */
  lemma UninterruptedBroadcast(h: Hub, f: nat, address: Option<string>, order: seq<Socket>, alive: Socket -> bool)
    requires f !in h.flights && Lists(order, Targets(h, address))
    ensures var sending := SendInOrder(Next(h, Snapshot(f, address)), f, order, alive);
            && Enabled(sending, Cleanup(f))
            && (var after, dead := Next(sending, Cleanup(f)), set ws | ws in Targets(h, address) && !alive(ws);
                && after.clients == h.clients - dead && after.identity == h.identity - dead
                && after.flights == h.flights && after.sent == h.sent + SentIn(order, address, alive))
  {
    SentInOrder(Next(h, Snapshot(f, address)), f, order, alive);
    hide SendInOrder, SentIn, Targets;
  }

  // --- Isolation -------------------------------------------------------------

  /** Broadcast `f`, in flight before step `k`, took its snapshot at step `i`. */
  ghost predicate TakenAt(steps: seq<Step>, hs: seq<Hub>, f: nat, i: int, k: nat)
    requires History(steps, hs) && k <= |steps| && f in hs[k].flights
  {
    && 0 <= i < k && steps[i] == Snapshot(f, hs[k].flights[f].address)
    && hs[k].flights[f].pending <= Targets(hs[i], hs[k].flights[f].address)
  }

  lemma {:induction false} FlightsHaveSnapshots(steps: seq<Step>, hs: seq<Hub>, f: nat, k: nat)
    requires History(steps, hs) && k <= |steps| && f in hs[k].flights
    ensures exists i :: TakenAt(steps, hs, f, i, k)
  {
    if k > 0 {
      PathStep(steps, hs, k - 1);
      if f in hs[k - 1].flights {
        FlightsHaveSnapshots(steps, hs, f, k - 1);
        var i :| TakenAt(steps, hs, f, i, k - 1);
        assert TakenAt(steps, hs, f, i, k);
      } else {
        assert TakenAt(steps, hs, f, k - 1, k);
      }
    }
  }

  /** From step `i` to step `k` the socket's connection was neither opened nor closed. */
  ghost predicate SameConnection(steps: seq<Step>, hs: seq<Hub>, ws: Socket, i: int, k: nat)
    requires Path(steps, hs) && 0 <= i <= k <= |steps|
  {
    forall j | i <= j < k :: !Resets(hs[j], steps[j], ws)
  }

  lemma {:induction false} FrozenStays(steps: seq<Step>, hs: seq<Hub>, ws: Socket, i: nat, k: nat)
    requires Path(steps, hs) && i <= k <= |steps| && SameConnection(steps, hs, ws, i, k)
    requires ws in hs[i].identity && Frozen(hs[i].identity[ws])
    ensures ws in hs[k].identity && hs[k].identity[ws] == hs[i].identity[ws]
    decreases k - i
  {
    if i < k {
      FrozenStays(steps, hs, ws, i, k - 1);
      PathStep(steps, hs, k - 1);
      IdentityIsWriteOnce(hs[k - 1], steps[k - 1], ws);
    }
  }

  /** Step `k` sends a frame addressed to `device`, snapshot at step `i`. */
  ghost predicate SendsAddressed(steps: seq<Step>, hs: seq<Hub>, k: nat, i: int, ws: Socket, device: string)
    requires History(steps, hs) && k < |steps|
  {
    && steps[k].Send? && steps[k].ws == ws
    && steps[k].flight in hs[k].flights && hs[k].flights[steps[k].flight].address == Some(device)
    && TakenAt(steps, hs, steps[k].flight, i, k)
  }

  /**
   * In every interleaving, an addressed frame goes only to sockets that wanted it at its snapshot: bound to
   * that very device, or not bound and not a driver. A socket already frozen then, and not reconnected since,
   * is still bound to that device when the frame is sent.
   */
  lemma AddressedFramesReachTheirDevice(steps: seq<Step>, hs: seq<Hub>, k: nat, ws: Socket, device: string)
    requires History(steps, hs) && k < |steps|
    requires steps[k].Send? && steps[k].ws == ws && steps[k].flight in hs[k].flights
    requires hs[k].flights[steps[k].flight].address == Some(device)
    ensures exists i :: SendsAddressed(steps, hs, k, i, ws, device)
    ensures forall i | SendsAddressed(steps, hs, k, i, ws, device) ::
              && Wants(hs[i].identity, ws, Some(device))
              && (ws in hs[i].identity && Frozen(hs[i].identity[ws]) && SameConnection(steps, hs, ws, i, k)
                  ==> ws in hs[k].identity && hs[k].identity[ws].device == Some(device))
  {
    FlightsHaveSnapshots(steps, hs, steps[k].flight, k);
    var i0 :| TakenAt(steps, hs, steps[k].flight, i0, k);
    assert SendsAddressed(steps, hs, k, i0, ws, device);
    PathStep(steps, hs, k);
    forall i | SendsAddressed(steps, hs, k, i, ws, device)
      ensures Wants(hs[i].identity, ws, Some(device))
      ensures ws in hs[i].identity && Frozen(hs[i].identity[ws]) && SameConnection(steps, hs, ws, i, k)
              ==> ws in hs[k].identity && hs[k].identity[ws].device == Some(device)
    {
      assert ws in Targets(hs[i], Some(device));
      if ws in hs[i].identity && Frozen(hs[i].identity[ws]) && SameConnection(steps, hs, ws, i, k) {
        FrozenStays(steps, hs, ws, i, k);
      }
    }
  }

  /** The socket is bound to a device other than `device`. */
  predicate BoundElsewhere(h: Hub, ws: Socket, device: string) {
    ws in h.identity && h.identity[ws].device.Some? && h.identity[ws].device != Some(device)
  }

  /** A socket bound elsewhere is sent the frame only if it was not frozen at the snapshot, or reconnected. */
  lemma ForeignFramesPredateTheBinding(steps: seq<Step>, hs: seq<Hub>, k: nat, i: int, ws: Socket, device: string)
    requires History(steps, hs) && k < |steps| && SendsAddressed(steps, hs, k, i, ws, device)
    requires BoundElsewhere(hs[k], ws, device)
    ensures !(ws in hs[i].identity && Frozen(hs[i].identity[ws]) && SameConnection(steps, hs, ws, i, k))
  {
    AddressedFramesReachTheirDevice(steps, hs, k, ws, device);
  }

  /** A step the endpoint can cause: a client identifies with a device only, its role comes from its token. */
  predicate FromEndpoint(step: Step) {
    step.Identify? ==> step.role == None
  }

  /**
   * From `h`, broadcast `f` to `device` is snapshot at once and sent to `ws` last, without a clean-up of `f`
   * or a reconnection of `ws` in between, and by then `ws` is bound to another device.
   */
  ghost predicate Leak(h: Hub, f: nat, ws: Socket, device: string, steps: seq<Step>, hs: seq<Hub>) {
    var n := |steps| - 1;
    && Path(steps, hs) && hs[0] == h && n >= 1
    && (forall j | 0 <= j <= n :: FromEndpoint(steps[j]))
    && steps[0] == Snapshot(f, Some(device)) && steps[n] == Send(f, ws, true)
    && (forall j | 0 < j < n :: steps[j] != Cleanup(f))
    && SameConnection(steps, hs, ws, 0, n)
    && BoundElsewhere(hs[n], ws, device)
  }

  /** Identifying as another device between the snapshot and the send leaks the frame to an unfrozen socket. */
  lemma LateIdentificationLeaks(h: Hub, f: nat, ws: Socket, device: string)
    requires f !in h.flights && ws in h.clients && ws in h.identity
    requires Wants(h.identity, ws, Some(device)) && !Frozen(h.identity[ws])
    ensures exists steps, hs :: Leak(h, f, ws, device, steps, hs)
  {
    var other := device + "x";
    var steps := [Snapshot(f, Some(device)), Identify(ws, Some(other), None), Send(f, ws, true)];
    var h1 := Next(h, steps[0]);
    assert ws in Targets(h, Some(device));
    var h2 := Next(h1, steps[1]);
    var hs := [h, h1, h2, Next(h2, steps[2])];
    assert |other| == |device| + 1;
    assert h2.identity[ws].device == Some(other);
    assert Leak(h, f, ws, device, steps, hs);
  }

  /**
   * A socket that wants an addressed frame at its snapshot can, on the same connection and by what the endpoint
   * does, be sent it while bound to another device if and only if it is not frozen at the snapshot.
   */
  lemma LeakExactlyWhenNotFrozen(h: Hub, f: nat, ws: Socket, device: string)
    requires f !in h.flights && ws in h.clients && ws in h.identity
    requires Wants(h.identity, ws, Some(device))
    ensures (exists steps, hs :: Leak(h, f, ws, device, steps, hs)) <==> !Frozen(h.identity[ws])
  {
    if !Frozen(h.identity[ws]) {
      LateIdentificationLeaks(h, f, ws, device);
    } else {
      forall steps, hs | Leak(h, f, ws, device, steps, hs) ensures false {
        FrozenStays(steps, hs, ws, 0, |steps| - 1);
      }
    }
  }

  /** A concrete run without tokens: a socket that identifies between a snapshot and its send gets the foreign frame. */
  lemma LateIdentificationLeaksOneFrame(ws: Socket, f: nat)
    ensures var h1 := Next(EMPTY, Connect(ws, None, None));
            var h2 := Next(h1, Snapshot(f, Some("TRK-000001")));
            var h3 := Next(h2, Identify(ws, Some("TRK-000002"), None));
            && Enabled(h3, Send(f, ws, true))
            && BoundElsewhere(h3, ws, "TRK-000001") && h3.identity[ws].device == Some("TRK-000002")
            && Next(h3, Send(f, ws, true)).sent == [Sent(ws, Some("TRK-000001"))]
  {
    var h1 := Next(EMPTY, Connect(ws, None, None));
    assert ws in Targets(h1, Some("TRK-000001"));
    assert "TRK-000002"[9] != "TRK-000001"[9];
  }
}
