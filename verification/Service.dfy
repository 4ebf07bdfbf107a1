/** The server as a state machine: any number of ingress threads share the session table
  * and the routing table with the egress loop, and their steps interleave. */
module Service {
  import opened Words
  import opened Buffer
  import opened Packet
  import opened Cipher
  import opened Replay
  import opened Session
  import opened Peers
  import opened Agreement
  import opened Dotted
  import Noise

  // Dispatch.

  datatype Dispatch = Handshake | Truncated | ToSession(h: Header)

  function DispatchOf(packet: seq<byte>): Dispatch {
    if |packet| == Noise.HANDSHAKE_INIT_SIZE then Handshake
    else if |packet| < HEADER_SIZE then Truncated
    else ToSession(Decode(packet))
  }

  /** A session's packet is handled by that session unless its payload has 78 bytes. */
  lemma GenuineDispatch(a: LawfulAead, h: Header, p: seq<byte>)
    ensures DispatchOf(Wire(a, h, p)) == ToSession(h) <==> |p| != 78
    ensures |p| == 78 ==> DispatchOf(Wire(a, h, p)) == Handshake
  {
    WireRoundTrip(a, h, p);
  }

  function IsIPv4(p: seq<byte>): bool {
    |p| >= 20 && p[0] / 16 == 4
  }

  /** The address that a data packet from a client teaches the server. */
  function SourceOf(p: seq<byte>, defaultPeerIP: string): string {
    if IsIPv4(p) then DottedQuad(p[12..16]) else defaultPeerIP
  }

  /** The address that a packet from the TUN device is for; "" when it is not IPv4. */
  function DestinationOf(p: seq<byte>): string {
    if IsIPv4(p) then DottedQuad(p[16..20]) else ""
  }

  // The state.

  /** The server's key and settings, and how 108 bytes read as a handshake message. */
  datatype Config = Config(own: nat, defaultPeerIP: string, hasTun: bool, lib: Library,
                           reading: seq<byte> -> Noise.Initiation)

  /** A session that the server made, in the table or not. */
  datatype Tunnel = Tunnel(local: uint32, remote: uint32, send: Option<LawfulAead>, recv: Option<LawfulAead>,
                           calls: uint64, accepted: set<uint64>, marked: set<uint64>)

  /** A packet that a session opened. */
  datatype Delivery = Delivery(id: nat, h: Header, payload: seq<byte>)

  /** Where an ingress thread is with a packet: its session is found, the window has let
    * it through, or it is opened. */
  datatype Task =
    | Found(id: nat, h: Header, body: seq<byte>, tr: nat, addr: Addr)
    | Passed(id: nat, h: Header, body: seq<byte>, tr: nat, addr: Addr)
    | Opened(id: nat, h: Header, payload: seq<byte>, tr: nat, addr: Addr)

  /** Sessions are numbered in the order in which they were made. */
  datatype State = State(
    tunnels: seq<Tunnel>,
    made: seq<Answering>,              // the handshake run that each came from
    table: map<uint32, nat>,           // the session manager
    log: seq<Registration<nat>>,       // calls of PeerTable.Register
    written: seq<Delivery>,            // packets written to the TUN device
    tasks: map<nat, Task>,
    crashed: bool)

  datatype Event =
    | Arrive(t: nat, tr: nat, addr: Addr, packet: seq<byte>, index: uint32, ephemeral: Option<nat>)
    | Count(t: nat)
    | Open(t: nat)
    | Act(t: nat)
    | Egress(offset: nat, packet: seq<byte>)

  function Init(): State {
    State([], [], map[], [], [], map[], false)
  }

  // The steps.

  /** A valid initiation makes a session, which replaces any other under its index in the
    * table and becomes the default peer. */
  ghost function Admitted(cfg: Config, s: State, e: Event): State
    requires e.Arrive?
  {
    if e.ephemeral.None? then s else
    var run, msg := Responder(cfg.own, e.ephemeral.value, e.index), cfg.reading(e.packet);
    if Answered(run, msg).None? then s else
    var keys := Answered(run, msg).value.keys;
    var u := Tunnel(keys.SenderID, keys.PeerID, Some(cfg.lib(CIPHER_CHACHA20_POLY1305, keys.SendKey)),
                    Some(cfg.lib(CIPHER_CHACHA20_POLY1305, keys.RecvKey)), 0, {}, {});
    s.(tunnels := s.tunnels + [u], made := s.made + [Answering(run, msg)],
       table := s.table[keys.SenderID := |s.tunnels|],
       log := s.log + [Registration(cfg.defaultPeerIP, |s.tunnels|, e.tr, e.addr)])
  }

  ghost function Arrived(cfg: Config, s: State, e: Event): State
    requires e.Arrive?
  {
    match DispatchOf(e.packet)
    case Handshake => Admitted(cfg, s, e)
    case Truncated => s
    case ToSession(h) =>
      if h.ReceiverIndex !in s.table then s
      else s.(tasks := s.tasks[e.t := Found(s.table[h.ReceiverIndex], h, e.packet[HEADER_SIZE..], e.tr, e.addr)])
  }

  /** The window of a session sees a counter. */
  ghost function Counted(u: Tunnel, c: uint64): Tunnel {
    if Passes(u.accepted, u.marked, c) then u.(accepted := u.accepted + {c}, marked := u.marked + {c}) else u
  }

  /** A wiped session keeps its window's greatest counter, and has no ciphers. */
  function Wiped(u: Tunnel): Tunnel {
    u.(send := None, recv := None, marked := {})
  }

  ghost function CountStep(s: State, t: nat): State {
    if t !in s.tasks || !s.tasks[t].Found? || s.tasks[t].id >= |s.tunnels| then s else
    var k := s.tasks[t]; var u := s.tunnels[k.id];
    s.(tunnels := s.tunnels[k.id := Counted(u, k.h.Counter)],
       tasks := if Passes(u.accepted, u.marked, k.h.Counter)
                then s.tasks[t := Passed(k.id, k.h, k.body, k.tr, k.addr)] else s.tasks - {t})
  }

  /** Opening without a cipher is the end of the process. */
  ghost function OpenStep(s: State, t: nat): State {
    if t !in s.tasks || !s.tasks[t].Passed? || s.tasks[t].id >= |s.tunnels| then s else
    var k := s.tasks[t]; var recv := s.tunnels[k.id].recv;
    if |k.body| < TAG_SIZE then s.(tasks := s.tasks - {t})
    else if recv.None? then s.(crashed := true)
    else
      var p := Unwire(recv.value, k.h, k.body);
      s.(tasks := if p.Some? then s.tasks[t := Opened(k.id, k.h, p.value, k.tr, k.addr)] else s.tasks - {t})
  }

  /** The session under an index is wiped and leaves the table. */
  function Removed(s: State, index: uint32): State {
    if index !in s.table then s
    else if s.table[index] >= |s.tunnels| then s
    else s.(tunnels := s.tunnels[s.table[index] := Wiped(s.tunnels[s.table[index]])], table := s.table - {index})
  }

  ghost function ActStep(cfg: Config, s: State, t: nat): State {
    if t !in s.tasks || !s.tasks[t].Opened? then s else
    var k := s.tasks[t]; var s' := s.(tasks := s.tasks - {t});
    if k.h.Type == TYPE_DATA then
      s'.(log := s.log + [Registration(SourceOf(k.payload, cfg.defaultPeerIP), k.id, k.tr, k.addr)],
          written := if cfg.hasTun then s.written + [Delivery(k.id, k.h, k.payload)] else s.written)
    else if k.h.Type == TYPE_KEEPALIVE then
      s'.(log := s.log + [Registration(cfg.defaultPeerIP, k.id, k.tr, k.addr)])
    else if k.h.Type == TYPE_DISCONNECT then Removed(s', k.h.ReceiverIndex)
    else s'
  }

  datatype Routed = NoPeer | Dropped | PeerCrash | Forwarded(packet: seq<byte>, tr: nat, addr: Addr)

  /** What becomes of a packet that the TUN device gives, at some offset of a buffer. */
  function Route(s: State, offset: nat, packet: seq<byte>): Routed {
    var to := Resolve<nat>(s.log, DestinationOf(packet));
    if to.None? then NoPeer
    else if to.value.session >= |s.tunnels| then Dropped
    else
      var u := s.tunnels[to.value.session];
      match SealOutcome(u.send.Some?, offset, |packet|, DEFAULT_BUFFER_SIZE)
      case Failed(_) => Dropped
      case Crashed => PeerCrash
      case Done => Forwarded(Wire(u.send.value, Header(TYPE_DATA, 0, u.remote, u.calls), packet), to.value.transport, to.value.addr)
  }

  function EgressStep(s: State, offset: nat, packet: seq<byte>): State {
    var to := Resolve<nat>(s.log, DestinationOf(packet));
    if to.None? || to.value.session >= |s.tunnels| then s else
    var u := s.tunnels[to.value.session];
    s.(tunnels := s.tunnels[to.value.session := u.(calls := (u.calls + 1) % TWO_TO_64)],
       crashed := Route(s, offset, packet).PeerCrash?)
  }

  /** A step that is not possible in a state, or after a crash, changes nothing. */
  ghost function Step(cfg: Config, s: State, e: Event): State {
    if s.crashed then s else
    match e
    case Arrive(t, _, _, _, _, _) => if t in s.tasks then s else Arrived(cfg, s, e)
    case Count(t) => CountStep(s, t)
    case Open(t) => OpenStep(s, t)
    case Act(t) => ActStep(cfg, s, t)
    case Egress(offset, packet) => EgressStep(s, offset, packet)
  }

  ghost function RunFrom(cfg: Config, s: State, es: seq<Event>): State {
    if es == [] then s else Step(cfg, RunFrom(cfg, s, es[..|es| - 1]), es[|es| - 1])
  }

  ghost function Run(cfg: Config, es: seq<Event>): State {
    RunFrom(cfg, Init(), es)
  }

  lemma RunLast(cfg: Config, es: seq<Event>)
    requires es != []
    ensures Run(cfg, es) == Step(cfg, Run(cfg, es[..|es| - 1]), es[|es| - 1])
  {
  }

  // Numbers and references.

  predicate Live(us: seq<Tunnel>, id: nat) {
    id < |us| && us[id].send.Some?
  }

  /** The latest session made under an index. */
  predicate Newest(us: seq<Tunnel>, i: uint32, id: nat) {
    id < |us| && us[id].local == i && forall k | id < k < |us| :: us[k].local != i
  }

  lemma NewestAppend(us: seq<Tunnel>, u: Tunnel, i: uint32, id: nat)
    ensures Newest(us + [u], i, id) <==> if u.local == i then id == |us| else Newest(us, i, id)
  {
    var vs := us + [u];
    assert vs[|us|] == u;
    if Newest(us, i, id) && u.local != i {
      forall k | id < k < |vs| ensures vs[k].local != i {
        assert k < |us| ==> vs[k] == us[k];
      }
    }
    if Newest(vs, i, id) && u.local != i {
      forall k | id < k < |us| ensures us[k].local != i {
        assert vs[k] == us[k];
      }
    }
  }

  lemma NewestUpdate(us: seq<Tunnel>, n: nat, u: Tunnel, i: uint32, id: nat)
    requires n < |us| && u.local == us[n].local
    ensures Newest(us[n := u], i, id) <==> Newest(us, i, id)
  {
    var vs := us[n := u];
    assert forall k | 0 <= k < |us| :: vs[k].local == us[k].local;
  }

  /** The table holds, under each index, the newest session made under it, exactly while
    * that lives. */
  ghost predicate Current(us: seq<Tunnel>, table: map<uint32, nat>) {
    && (forall i <- table :: Newest(us, i, table[i]) && Live(us, table[i]))
    && (forall i: uint32, id: nat | Newest(us, i, id) && Live(us, id) :: i in table && table[i] == id)
  }

  /** All references are to sessions that were made. */
  ghost predicate TableInv(s: State) {
    && |s.made| == |s.tunnels|
    && (forall u <- s.tunnels :: u.send.Some? <==> u.recv.Some?)
    && Current(s.tunnels, s.table)
    && (forall t <- s.tasks :: s.tasks[t].id < |s.tunnels|)
    && (forall r <- s.log :: r.session < |s.tunnels|)
  }

  lemma CurrentAppend(us: seq<Tunnel>, table: map<uint32, nat>, u: Tunnel)
    requires Current(us, table) && u.send.Some?
    ensures Current(us + [u], table[u.local := |us|])
  {
    var vs := us + [u];
    forall i: uint32, id: nat
      ensures Newest(vs, i, id) <==> if u.local == i then id == |us| else Newest(us, i, id)
      ensures Newest(us, i, id) ==> id < |us| && vs[id] == us[id]
    {
      NewestAppend(us, u, i, id);
    }
    hide Newest;
    var table' := table[u.local := |us|];
    forall i: uint32, id: nat | Newest(vs, i, id) && Live(vs, id) ensures i in table' && table'[i] == id {
      if i != u.local {
        assert Newest(us, i, id);
        assert Live(us, id);
      }
    }
    forall i <- table' ensures Newest(vs, i, table'[i]) && Live(vs, table'[i]) {
      var id: nat := table'[i];
      assert Newest(vs, i, id);
    }
  }

  lemma CurrentUpdate(us: seq<Tunnel>, table: map<uint32, nat>, n: nat, u: Tunnel)
    requires Current(us, table) && n < |us| && u.local == us[n].local && u.send.Some? == us[n].send.Some?
    ensures Current(us[n := u], table)
  {
    var vs := us[n := u];
    forall i: uint32, id: nat
      ensures Newest(vs, i, id) <==> Newest(us, i, id)
      ensures Live(vs, id) <==> Live(us, id)
    {
      NewestUpdate(us, n, u, i, id);
    }
    hide Newest, Live;
    forall i <- table ensures Newest(vs, i, table[i]) && Live(vs, table[i]) {
      var id: nat := table[i];
      assert Newest(us, i, id);
    }
    forall i: uint32, id: nat | Newest(vs, i, id) && Live(vs, id) ensures i in table && table[i] == id {
      assert Newest(us, i, id) && Live(us, id);
    }
  }

  lemma CurrentWipe(us: seq<Tunnel>, table: map<uint32, nat>, index: uint32)
    requires Current(us, table) && index in table && table[index] < |us|
    ensures Current(us[table[index] := Wiped(us[table[index]])], table - {index})
  {
    var n := table[index];
    var vs, table' := us[n := Wiped(us[n])], table - {index};
    assert Newest(us, index, n);
    forall i: uint32, id: nat
      ensures Newest(vs, i, id) <==> Newest(us, i, id)
      ensures Live(vs, id) <==> id != n && Live(us, id)
    {
      NewestUpdate(us, n, Wiped(us[n]), i, id);
    }
    forall i <- table' ensures Newest(vs, i, table'[i]) && Live(vs, table'[i]) {
      var id: nat := table'[i];
      assert Newest(us, i, id) && Live(us, id);
      assert us[id].local == i && us[n].local == index;
    }
    forall i: uint32, id: nat | Newest(vs, i, id) && Live(vs, id) ensures i in table' && table'[i] == id {
      assert Newest(us, i, id) && Live(us, id);
    }
  }

  /** What a step can do to the sessions. */
  datatype Change = Nothing | Made(u: Tunnel) | Touched(id: nat, u: Tunnel) | Ended(index: uint32)

  /** What a step does to them. */
  ghost function ChangeBy(cfg: Config, s: State, e: Event): Change {
    if s.crashed then Nothing else
    match e
    case Arrive(t, _, _, packet, _, _) =>
      if t !in s.tasks && DispatchOf(packet).Handshake? && |Admitted(cfg, s, e).tunnels| > |s.tunnels|
      then Made(Admitted(cfg, s, e).tunnels[|s.tunnels|]) else Nothing
    case Count(t) =>
      if t in s.tasks && s.tasks[t].Found? && s.tasks[t].id < |s.tunnels|
      then Touched(s.tasks[t].id, Counted(s.tunnels[s.tasks[t].id], s.tasks[t].h.Counter)) else Nothing
    case Open(_) => Nothing
    case Act(t) =>
      if t in s.tasks && s.tasks[t].Opened? && s.tasks[t].h.Type == TYPE_DISCONNECT && s.tasks[t].h.ReceiverIndex in s.table
      then Ended(s.tasks[t].h.ReceiverIndex) else Nothing
    case Egress(offset, packet) =>
      var to := Resolve<nat>(s.log, DestinationOf(packet));
      if to.Some? && to.value.session < |s.tunnels|
      then Touched(to.value.session, s.tunnels[to.value.session].(calls := (s.tunnels[to.value.session].calls + 1) % TWO_TO_64))
      else Nothing
  }

  ghost predicate Changed(s: State, c: Change, s': State) {
    match c
    case Nothing => s'.tunnels == s.tunnels && s'.table == s.table && s'.made == s.made
    case Made(u) =>
      && u.send.Some? && u.recv.Some?
      && s'.tunnels == s.tunnels + [u] && s'.table == s.table[u.local := |s.tunnels|] && |s'.made| == |s.made| + 1
    case Touched(id, u) =>
      && id < |s.tunnels| && u.local == s.tunnels[id].local && u.send == s.tunnels[id].send && u.recv == s.tunnels[id].recv
      && s'.tunnels == s.tunnels[id := u] && s'.table == s.table && s'.made == s.made
    case Ended(index) =>
      && index in s.table && s.table[index] < |s.tunnels|
      && s'.tunnels == s.tunnels[s.table[index] := Wiped(s.tunnels[s.table[index]])]
      && s'.table == s.table - {index} && s'.made == s.made
  }

  lemma StepChanges(cfg: Config, s: State, e: Event)
    requires TableInv(s)
    ensures Changed(s, ChangeBy(cfg, s, e), Step(cfg, s, e))
  {
    hide Answered, Unwire, SourceOf, DestinationOf, Resolve, Passes, Wire, SealOutcome, DispatchOf, Newest, Live;
    match e {
      case Arrive(_, _, _, _, _, _) => AdmittedChanges(cfg, s, e);
      case Act(t) => ActChanges(cfg, s, t);
      case _ => hide ActStep, Arrived, Wiped;
    }
  }

  lemma AdmittedChanges(cfg: Config, s: State, e: Event)
    requires TableInv(s) && e.Arrive?
    ensures Changed(s, ChangeBy(cfg, s, e), Step(cfg, s, e))
  {
    hide Answered, DispatchOf, Current;
  }

  lemma ActChanges(cfg: Config, s: State, t: nat)
    requires TableInv(s)
    ensures Changed(s, ChangeBy(cfg, s, Act(t)), Step(cfg, s, Act(t)))
  {
    hide SourceOf, Newest;
    if t in s.tasks && s.tasks[t].Opened? && s.tasks[t].h.ReceiverIndex in s.table {
      var i := s.tasks[t].h.ReceiverIndex;
      assert Newest(s.tunnels, i, s.table[i]);
      NewestExists(s.tunnels, i, s.table[i]);
    }
  }

  lemma NewestExists(us: seq<Tunnel>, i: uint32, id: nat)
    requires Newest(us, i, id)
    ensures id < |us| && us[id].local == i
  {
  }

  lemma TableAfter(s: State, c: Change, s': State)
    requires TableInv(s) && Changed(s, c, s')
    requires forall t <- s'.tasks :: s'.tasks[t].id < |s'.tunnels|
    requires forall r <- s'.log :: r.session < |s'.tunnels|
    ensures TableInv(s')
  {
    hide Current;
    match c {
      case Nothing =>
      case Made(u) => CurrentAppend(s.tunnels, s.table, u);
      case Touched(id, u) => CurrentUpdate(s.tunnels, s.table, id, u);
      case Ended(index) => CurrentWipe(s.tunnels, s.table, index);
    }
  }

  /** Tasks and registrations name sessions that were made. */
  lemma StepRefers(cfg: Config, s: State, e: Event)
    requires TableInv(s)
    ensures forall t <- Step(cfg, s, e).tasks :: Step(cfg, s, e).tasks[t].id < |Step(cfg, s, e).tunnels|
    ensures forall r <- Step(cfg, s, e).log :: r.session < |Step(cfg, s, e).tunnels|
  {
    hide Answered, Unwire, SourceOf, DestinationOf, Resolve, Passes, Wire, SealOutcome, DispatchOf, Newest;
  }

  lemma TableStep(cfg: Config, s: State, e: Event)
    requires TableInv(s)
    ensures TableInv(Step(cfg, s, e))
  {
    hide TableInv, Step, ChangeBy, Changed;
    StepChanges(cfg, s, e);
    StepRefers(cfg, s, e);
    TableAfter(s, ChangeBy(cfg, s, e), Step(cfg, s, e));
  }

  lemma TableInit()
    ensures TableInv(Init())
  {
  }

  lemma {:induction false} TableRun(cfg: Config, es: seq<Event>)
    ensures TableInv(Run(cfg, es))
  {
    hide TableInv, Step;
    if es == [] {
      TableInit();
    } else {
      TableRun(cfg, es[..|es| - 1]);
      TableStep(cfg, Run(cfg, es[..|es| - 1]), es[|es| - 1]);
    }
  }

  /** In every run the table holds, under each index, the newest session that was made
    * under it, exactly while that session lives. */
  lemma TableHoldsNewest(cfg: Config, es: seq<Event>, i: uint32, id: nat)
    ensures var s := Run(cfg, es);
            (i in s.table && s.table[i] == id) <==> Newest(s.tunnels, i, id) && Live(s.tunnels, id)
  {
    TableRun(cfg, es);
    hide Run;
  }

  // Which sessions are dead.

  /** Event e acts on a disconnect that a session opened, and so wipes session id: the
    * one that the table then holds under the index that the disconnect names. */
  ghost predicate Ends(s: State, e: Event, id: nat) {
    && e.Act? && !s.crashed && e.t in s.tasks
    && var task := s.tasks[e.t];
    && task.Opened? && task.h.Type == TYPE_DISCONNECT
    && task.h.ReceiverIndex in s.table && s.table[task.h.ReceiverIndex] == id
  }

  ghost predicate EndedAt(cfg: Config, es: seq<Event>, k: nat, id: nat)
    requires k < |es|
  {
    Ends(Run(cfg, es[..k]), es[k], id)
  }

  /** The only step that takes away a session's ciphers; new sessions have them. */
  lemma DeadStep(cfg: Config, s: State, e: Event, id: nat)
    requires TableInv(s) && id < |Step(cfg, s, e).tunnels|
    ensures !Live(Step(cfg, s, e).tunnels, id) <==>
              ((id < |s.tunnels| && !Live(s.tunnels, id)) || Ends(s, e, id))
    ensures |s.tunnels| <= |Step(cfg, s, e).tunnels|
  {
    StepChanges(cfg, s, e);
    hide Step, Admitted, Counted, Current, DestinationOf, Resolve, DispatchOf, Newest;
    if Ends(s, e, id) {
      EndsLive(s, e, id);
    }
  }

  lemma EndsLive(s: State, e: Event, id: nat)
    requires TableInv(s) && Ends(s, e, id)
    ensures id < |s.tunnels|
  {
  }

  lemma EndedInPrefix(cfg: Config, es: seq<Event>, n: nat, k: nat, id: nat)
    requires k < n <= |es|
    ensures EndedAt(cfg, es[..n], k, id) <==> EndedAt(cfg, es, k, id)
  {
    assert es[..n][..k] == es[..k];
  }

  ghost predicate EverEnded(cfg: Config, es: seq<Event>, id: nat) {
    exists k | 0 <= k < |es| :: EndedAt(cfg, es, k, id)
  }

  lemma EndedLast(cfg: Config, es: seq<Event>, id: nat)
    requires es != []
    ensures var p := es[..|es| - 1];
            EverEnded(cfg, es, id) <==> EverEnded(cfg, p, id) || Ends(Run(cfg, p), es[|es| - 1], id)
  {
    hide Run, Ends;
    var last := |es| - 1;
    forall k | 0 <= k < last ensures EndedAt(cfg, es[..last], k, id) <==> EndedAt(cfg, es, k, id) {
      EndedInPrefix(cfg, es, last, k, id);
    }
    assert EndedAt(cfg, es, last, id) <==> Ends(Run(cfg, es[..last]), es[last], id);
    hide EndedAt;
    if EverEnded(cfg, es[..last], id) {
      var k :| 0 <= k < last && EndedAt(cfg, es[..last], k, id);
      assert EndedAt(cfg, es, k, id);
    }
  }

  lemma {:induction false} EndedWasMade(cfg: Config, es: seq<Event>, id: nat)
    requires EverEnded(cfg, es, id)
    ensures id < |Run(cfg, es).tunnels|
  {
    var p, last := es[..|es| - 1], es[|es| - 1];
    EndedLast(cfg, es, id);
    TableRun(cfg, p);
    RunLast(cfg, es);
    hide Run, EverEnded, Step;
    if EverEnded(cfg, p, id) {
      EndedWasMade(cfg, p, id);
    } else {
      EndsLive(Run(cfg, p), last, id);
    }
    Grows(cfg, Run(cfg, p), last);
  }

  lemma Grows(cfg: Config, s: State, e: Event)
    requires TableInv(s)
    ensures |s.tunnels| <= |Step(cfg, s, e).tunnels|
  {
    StepChanges(cfg, s, e);
    hide Step, ChangeBy, TableInv;
  }

  /** A session is dead exactly when a disconnect ended it. */
  lemma {:induction false} DeadExactlyWhenEnded(cfg: Config, es: seq<Event>, id: nat)
    requires id < |Run(cfg, es).tunnels|
    ensures !Live(Run(cfg, es).tunnels, id) <==> EverEnded(cfg, es, id)
    decreases |es|
  {
    if es != [] {
      var p, last := es[..|es| - 1], es[|es| - 1];
      RunLast(cfg, es);
      TableRun(cfg, p);
      EndedLast(cfg, es, id);
      hide Run, Step, TableInv, Live, EverEnded;
      DeadStep(cfg, Run(cfg, p), last, id);
      if id < |Run(cfg, p).tunnels| {
        DeadExactlyWhenEnded(cfg, p, id);
      } else if EverEnded(cfg, p, id) {
        EndedWasMade(cfg, p, id);
      }
    }
  }

  // When the process dies.

  /** Event e uses a session without ciphers: to seal a packet that leaves room for the
    * tag, or to open one that is long enough to hold it. */
  predicate Fatal(s: State, e: Event) {
    match e
    case Egress(offset, packet) =>
      var to := Resolve<nat>(s.log, DestinationOf(packet));
      to.Some? && to.value.session < |s.tunnels| && !Live(s.tunnels, to.value.session)
      && offset + |packet| + TAG_SIZE <= DEFAULT_BUFFER_SIZE
    case Open(t) =>
      t in s.tasks && s.tasks[t].Passed? && s.tasks[t].id < |s.tunnels| && !Live(s.tunnels, s.tasks[t].id)
      && |s.tasks[t].body| >= TAG_SIZE
    case _ => false
  }

  lemma CrashStep(cfg: Config, s: State, e: Event)
    requires TableInv(s)
    ensures Step(cfg, s, e).crashed <==> s.crashed || Fatal(s, e)
  {
    hide Answered, Unwire, SourceOf, DestinationOf, Resolve, Passes, Wire, DispatchOf, Current;
  }

  /** The session that event e would use. */
  function UsedBy(s: State, e: Event): Option<nat> {
    match e
    case Egress(_, packet) =>
      var to := Resolve<nat>(s.log, DestinationOf(packet));
      if to.Some? then Some(to.value.session) else None
    case Open(t) => if t in s.tasks && s.tasks[t].Passed? then Some(s.tasks[t].id) else None
    case _ => None
  }

  predicate LongEnough(s: State, e: Event) {
    match e
    case Egress(offset, packet) => offset + |packet| + TAG_SIZE <= DEFAULT_BUFFER_SIZE
    case Open(t) => t in s.tasks && s.tasks[t].Passed? && |s.tasks[t].body| >= TAG_SIZE
    case _ => false
  }

  /** Step k uses a session that a disconnect ended before. */
  ghost predicate CrashAt(cfg: Config, es: seq<Event>, k: nat)
    requires k < |es|
  {
    var s := Run(cfg, es[..k]);
    UsedBy(s, es[k]).Some? && LongEnough(s, es[k]) && EverEnded(cfg, es[..k], UsedBy(s, es[k]).value)
  }

  lemma FatalExactlyWhenEnded(cfg: Config, es: seq<Event>, e: Event)
    ensures var s := Run(cfg, es);
            Fatal(s, e) <==> UsedBy(s, e).Some? && LongEnough(s, e) && EverEnded(cfg, es, UsedBy(s, e).value)
  {
    TableRun(cfg, es);
    var s := Run(cfg, es);
    if UsedBy(s, e).Some? {
      UsedIsMade(s, e);
      DeadExactlyWhenEnded(cfg, es, UsedBy(s, e).value);
    }
    hide Run, EverEnded, Resolve, DestinationOf, Live, TableInv;
  }

  lemma UsedIsMade(s: State, e: Event)
    requires TableInv(s) && UsedBy(s, e).Some?
    ensures UsedBy(s, e).value < |s.tunnels|
  {
    hide DestinationOf, Current;
    if e.Egress? {
      var to := Resolve<nat>(s.log, DestinationOf(e.packet));
      ResolvedIsLogged<nat>(s.log, DestinationOf(e.packet), to.value);
    }
  }

  ghost predicate EverCrashes(cfg: Config, es: seq<Event>) {
    exists k | 0 <= k < |es| :: CrashAt(cfg, es, k)
  }

  lemma CrashLast(cfg: Config, es: seq<Event>)
    requires es != []
    ensures var p := es[..|es| - 1];
            EverCrashes(cfg, es) <==> EverCrashes(cfg, p) || Fatal(Run(cfg, p), es[|es| - 1])
  {
    hide Run, Fatal, EverEnded, UsedBy, LongEnough;
    var last := |es| - 1;
    FatalExactlyWhenEnded(cfg, es[..last], es[last]);
    assert CrashAt(cfg, es, last) <==> Fatal(Run(cfg, es[..last]), es[last]);
    forall k | 0 <= k < last ensures CrashAt(cfg, es[..last], k) <==> CrashAt(cfg, es, k) {
      assert es[..last][..k] == es[..k];
    }
    hide CrashAt;
    if EverCrashes(cfg, es[..last]) {
      var k :| 0 <= k < last && CrashAt(cfg, es[..last], k);
      assert CrashAt(cfg, es, k);
    }
  }

  /** The process dies exactly when some step uses a session that a disconnect had
    * ended: egress to an address that still resolves to it, or an ingress thread that
    * found it before. */
  lemma {:induction false} CrashesExactlyWhen(cfg: Config, es: seq<Event>)
    ensures Run(cfg, es).crashed <==> exists k | 0 <= k < |es| :: CrashAt(cfg, es, k)
  {
    hide Step, Fatal, CrashAt, TableInv;
    if es != [] {
      var p, e := es[..|es| - 1], es[|es| - 1];
      RunLast(cfg, es);
      hide Run;
      CrashesExactlyWhen(cfg, p);
      TableRun(cfg, p);
      CrashStep(cfg, Run(cfg, p), e);
      CrashLast(cfg, es);
    }
  }

  // Nothing is written to the TUN device twice.

  /** A task beyond the window, with the session and counter that it holds. */
  predicate Holds(s: State, t: nat, id: nat, c: uint64) {
    t in s.tasks && !s.tasks[t].Found? && s.tasks[t].id == id && s.tasks[t].h.Counter == c
  }

  predicate Wrote(s: State, id: nat, c: uint64) {
    exists w <- s.written :: w.id == id && w.h.Counter == c
  }

  /** Session and counter tell apart what was written and what tasks hold, except that a
    * dead session may count again, which never opens. */
  ghost predicate OnceInv(s: State) {
    && (forall a, b | 0 <= a < b < |s.written| ::
          s.written[a].id != s.written[b].id || s.written[a].h.Counter != s.written[b].h.Counter)
    && (forall w <- s.written :: w.id < |s.tunnels|)
    && (forall id: nat, c: uint64 | Wrote(s, id, c) && Live(s.tunnels, id) :: c in s.tunnels[id].marked)
    && (forall t: nat, id: nat, c: uint64 | Holds(s, t, id, c) && Live(s.tunnels, id) :: c in s.tunnels[id].marked)
    && (forall t: nat, id: nat, c: uint64 | Holds(s, t, id, c) && (Live(s.tunnels, id) || s.tasks[t].Opened?) :: !Wrote(s, id, c))
    && (forall t: nat, t': nat, id: nat, c: uint64 | Holds(s, t, id, c) && Holds(s, t', id, c) && t != t' ::
          !Live(s.tunnels, id) && !(s.tasks[t].Opened? && s.tasks[t'].Opened?))
  }

  lemma OnceCount(cfg: Config, s: State, t: nat)
    requires TableInv(s) && OnceInv(s)
    ensures OnceInv(CountStep(s, t))
  {
    hide Passes, Current;
    var s' := CountStep(s, t);
    if s' != s {
      var n, c := s.tasks[t].id, s.tasks[t].h.Counter;
      var u := s.tunnels[n];
      assert forall id: nat :: Live(s'.tunnels, id) <==> Live(s.tunnels, id);
      assert forall id: nat, c': uint64 :: Wrote(s', id, c') <==> Wrote(s, id, c');
      forall t': nat, id: nat, c': uint64
        ensures Holds(s', t', id, c') ==> Holds(s, t', id, c') || (t' == t && id == n && c' == c && Passes(u.accepted, u.marked, c))
      {
      }
      if Passes(u.accepted, u.marked, c) {
        NotMarked(u, c);
      }
      assert forall id: nat | Live(s.tunnels, id) :: s.tunnels[id].marked <= s'.tunnels[id].marked;
    }
  }

  lemma NotMarked(u: Tunnel, c: uint64)
    requires Passes(u.accepted, u.marked, c)
    ensures c !in u.marked
  {
  }

  /** Opening needs a live session. */
  lemma OnceOpen(s: State, t: nat)
    requires TableInv(s) && OnceInv(s)
    ensures OnceInv(OpenStep(s, t))
  {
    hide Current, Unwire;
    var s' := OpenStep(s, t);
    if s' != s {
      assert s.tunnels[s.tasks[t].id] in s.tunnels;
      assert forall id: nat, c: uint64 :: Wrote(s', id, c) <==> Wrote(s, id, c);
      forall t': nat, id: nat, c: uint64 ensures Holds(s', t', id, c) ==> Holds(s, t', id, c) {
      }
    }
  }

  lemma OnceForget(s: State, t: nat)
    requires OnceInv(s)
    ensures OnceInv(s.(tasks := s.tasks - {t}))
  {
    var s' := s.(tasks := s.tasks - {t});
    forall t': nat, id: nat, c: uint64 ensures Holds(s', t', id, c) ==> Holds(s, t', id, c) && s'.tasks[t'] == s.tasks[t'] {
    }
    assert forall id: nat, c: uint64 :: Wrote(s', id, c) <==> Wrote(s, id, c);
  }

  /** Acting on an opened packet may write it: no one else holds its counter. */
  lemma OnceWrite(s: State, t: nat, w: Delivery)
    requires TableInv(s) && OnceInv(s) && t in s.tasks && s.tasks[t].Opened?
    requires w.id == s.tasks[t].id && w.h == s.tasks[t].h
    ensures OnceInv(s.(tasks := s.tasks - {t}, written := s.written + [w]))
  {
    hide Current;
    var s' := s.(tasks := s.tasks - {t}, written := s.written + [w]);
    var n, c := w.id, w.h.Counter;
    assert Holds(s, t, n, c);
    forall id: nat, c': uint64 ensures Wrote(s', id, c') <==> Wrote(s, id, c') || (id == n && c' == c) {
      if id == n && c' == c {
        assert w in s'.written;
      }
    }
    forall t': nat, id: nat, c': uint64 ensures Holds(s', t', id, c') ==> Holds(s, t', id, c') && t' != t && s'.tasks[t'] == s.tasks[t'] {
    }
    forall a | 0 <= a < |s.written| ensures s.written[a].id != n || s.written[a].h.Counter != c {
      assert s.written[a] in s.written;
    }
  }

  lemma OnceRemove(s: State, index: uint32)
    requires TableInv(s) && OnceInv(s)
    ensures OnceInv(Removed(s, index))
  {
    hide Current;
    var s' := Removed(s, index);
    forall id: nat ensures Live(s'.tunnels, id) ==> Live(s.tunnels, id) && s'.tunnels[id] == s.tunnels[id] {
    }
    assert forall id: nat, c: uint64 :: Wrote(s', id, c) <==> Wrote(s, id, c);
    assert forall t: nat, id: nat, c: uint64 :: Holds(s', t, id, c) <==> Holds(s, t, id, c);
  }

  /** Steps that touch neither windows nor tasks beyond the window. */
  lemma OnceKept(s: State, s': State)
    requires TableInv(s) && OnceInv(s) && s'.written == s.written && |s.tunnels| <= |s'.tunnels|
    requires forall id: nat | id < |s.tunnels| :: s'.tunnels[id].send == s.tunnels[id].send && s'.tunnels[id].marked == s.tunnels[id].marked
    requires forall t <- s'.tasks :: s'.tasks[t].Found? || (t in s.tasks && s.tasks[t] == s'.tasks[t])
    ensures OnceInv(s')
  {
    hide Current;
    assert forall id: nat, c: uint64 :: Wrote(s', id, c) <==> Wrote(s, id, c);
    forall t: nat, id: nat, c: uint64 ensures Holds(s', t, id, c) ==> Holds(s, t, id, c) && s'.tasks[t] == s.tasks[t] && id < |s.tunnels| {
    }
    forall id: nat, c: uint64 | Wrote(s', id, c) ensures id < |s.tunnels| {
    }
  }

  lemma OnceAct(cfg: Config, s: State, t: nat)
    requires TableInv(s) && OnceInv(s)
    ensures OnceInv(ActStep(cfg, s, t))
  {
    hide TableInv, OnceInv, SourceOf;
    if t in s.tasks && s.tasks[t].Opened? {
      var k, u, s' := s.tasks[t], s.(tasks := s.tasks - {t}), ActStep(cfg, s, t);
      OnceForget(s, t);
      Forgets(s, t);
      if k.h.Type == TYPE_DISCONNECT {
        OnceRemove(u, k.h.ReceiverIndex);
      } else if k.h.Type == TYPE_DATA && cfg.hasTun {
        var w := Delivery(k.id, k.h, k.payload);
        OnceWrite(s, t, w);
        OnceLog(s.(tasks := s.tasks - {t}, written := s.written + [w]), s'.log);
      } else {
        OnceLog(u, s'.log);
      }
    }
  }

  lemma Forgets(s: State, t: nat)
    requires TableInv(s)
    ensures TableInv(s.(tasks := s.tasks - {t}))
  {
  }

  lemma OnceLog(s: State, log: seq<Registration<nat>>)
    requires OnceInv(s)
    ensures OnceInv(s.(log := log))
  {
    var s' := s.(log := log);
    assert forall id: nat, c: uint64 :: Wrote(s', id, c) <==> Wrote(s, id, c);
    assert forall t: nat, id: nat, c: uint64 :: Holds(s', t, id, c) <==> Holds(s, t, id, c);
  }

  lemma OnceStep(cfg: Config, s: State, e: Event)
    requires TableInv(s) && OnceInv(s)
    ensures OnceInv(Step(cfg, s, e))
  {
    hide OnceInv, Answered, Unwire, SourceOf, DestinationOf, Resolve, Passes, Wire, SealOutcome, DispatchOf, Current;
    if !s.crashed {
      match e {
        case Count(t) => OnceCount(cfg, s, t);
        case Open(t) => OnceOpen(s, t);
        case Act(t) => OnceAct(cfg, s, t);
        case _ => hide CountStep, OpenStep, ActStep; OnceKept(s, Step(cfg, s, e));
      }
    }
  }

  lemma {:induction false} OnceRun(cfg: Config, es: seq<Event>)
    ensures OnceInv(Run(cfg, es))
  {
    if es != [] {
      var p := es[..|es| - 1];
      RunLast(cfg, es);
      hide Run, Step, TableInv, OnceInv;
      OnceRun(cfg, p);
      TableRun(cfg, p);
      OnceStep(cfg, Run(cfg, p), es[|es| - 1]);
    }
  }

  /** For every interleaving, also across disconnects and replaced sessions, and whoever
    * made the packets: no packet of a session reaches the TUN device twice. */
  lemma WrittenAtMostOnce(cfg: Config, es: seq<Event>, a: nat, b: nat)
    requires a < b < |Run(cfg, es).written|
    ensures var w := Run(cfg, es).written; w[a].id != w[b].id || w[a].h.Counter != w[b].h.Counter
  {
    OnceRun(cfg, es);
    hide Run;
  }

  // A session's window sees its own packets.

  /** Event e presents a packet to session id. */
  ghost predicate Presents(s: State, e: Event, id: nat) {
    e.Count? && !s.crashed && e.t in s.tasks && s.tasks[e.t].Found? && s.tasks[e.t].id == id && id < |s.tunnels|
  }

  /** The counters that a run presents to a session, in order. */
  ghost function CountersOf(cfg: Config, es: seq<Event>, id: nat): seq<uint64> {
    if es == [] then [] else
    var s, e := Run(cfg, es[..|es| - 1]), es[|es| - 1];
    CountersOf(cfg, es[..|es| - 1], id) + if Presents(s, e, id) then [s.tasks[e.t].h.Counter] else []
  }

  /** What a step does to the window of a live session. */
  lemma WindowStep(cfg: Config, s: State, e: Event, id: nat)
    requires TableInv(s) && id < |Step(cfg, s, e).tunnels| && Live(Step(cfg, s, e).tunnels, id)
    ensures var u' := Step(cfg, s, e).tunnels[id];
      if id >= |s.tunnels| then u'.accepted == {} && u'.marked == {} && !Presents(s, e, id)
      else
        && Live(s.tunnels, id)
        && u' == (if Presents(s, e, id) then Counted(s.tunnels[id], s.tasks[e.t].h.Counter)
                  else s.tunnels[id].(calls := u'.calls))
  {
    StepChanges(cfg, s, e);
    hide Answered, Unwire, DestinationOf, Resolve, Passes, Wire, SealOutcome, DispatchOf, Newest;
    hide CountStep, OpenStep, ActStep, EgressStep;
  }

  lemma {:induction false} NoneBeforeBirth(cfg: Config, es: seq<Event>, id: nat)
    requires id >= |Run(cfg, es).tunnels|
    ensures CountersOf(cfg, es, id) == []
  {
    if es != [] {
      var p := es[..|es| - 1];
      RunLast(cfg, es);
      TableRun(cfg, p);
      hide Run, Step, TableInv;
      Grows(cfg, Run(cfg, p), es[|es| - 1]);
      NoneBeforeBirth(cfg, p, id);
    }
  }

  /** For every interleaving: the window of a live session is where its own counters took
    * it, as if no other session and no other thread were there. */
  lemma {:induction false} WindowsAreIndependent(cfg: Config, es: seq<Event>, id: nat)
    requires Live(Run(cfg, es).tunnels, id)
    ensures var u := Run(cfg, es).tunnels[id];
            u.accepted == Accepted(CountersOf(cfg, es, id)) && u.marked == u.accepted
    decreases |es|
  {
    if es == [] {
      assert false;
    } else {
      var p, e := es[..|es| - 1], es[|es| - 1];
      RunLast(cfg, es);
      TableRun(cfg, p);
      hide Run, Step, TableInv, Presents, Accepted;
      var s := Run(cfg, p);
      WindowStep(cfg, s, e, id);
      if id < |s.tunnels| {
        WindowsAreIndependent(cfg, p, id);
        AcceptedMore(CountersOf(cfg, p, id), if Presents(s, e, id) && e.Count? && e.t in s.tasks then s.tasks[e.t].h.Counter else 0);
      } else {
        NoneBeforeBirth(cfg, p, id);
        assert CountersOf(cfg, es, id) == [] + [];
        NothingAccepted();
      }
    }
  }

  lemma NothingAccepted()
    ensures Accepted([]) == {}
  {
  }

  // Whose packets a session delivers.

  /** The keys that a responder run gives the server. */
  function KeysOf(y: Answering): Noise.SessionKeys {
    if Answered(y.run, y.msg).Some? then Answered(y.run, y.msg).value.keys
    else Noise.SessionKeys(Noise.LowOrder, Noise.LowOrder, 0, 0)
  }

  /** Session u came from handshake run y, and keeps its keys while it lives. */
  ghost predicate CameFrom(cfg: Config, u: Tunnel, y: Answering) {
    && y.run.own == cfg.own && Answered(y.run, y.msg).Some?
    && u.local == KeysOf(y).SenderID && u.remote == KeysOf(y).PeerID
    && (u.send.Some? ==> u.send.value == cfg.lib(CIPHER_CHACHA20_POLY1305, KeysOf(y).SendKey))
    && (u.recv.Some? ==> u.recv.value == cfg.lib(CIPHER_CHACHA20_POLY1305, KeysOf(y).RecvKey))
  }

  /** The packets that reached the server. */
  function Packets(es: seq<Event>): set<seq<byte>> {
    set e <- es | e.Arrive? :: e.packet
  }

  /** A packet that reached the server names the session of run y, and gives this header
    * and payload when opened under the key of that session. */
  ghost predicate OpenedFrom(cfg: Config, seen: set<seq<byte>>, y: Answering, h: Header, payload: seq<byte>) {
    && h.ReceiverIndex == KeysOf(y).SenderID
    && exists body | Encode(h) + body in seen ::
         Unwire(cfg.lib(CIPHER_CHACHA20_POLY1305, KeysOf(y).RecvKey), h, body) == Some(payload)
  }

  /** A task's packet is one that reached the server, or opened from one. */
  ghost predicate TaskFrom(cfg: Config, seen: set<seq<byte>>, s: State, k: Task) {
    && k.id < |s.made| && k.h.ReceiverIndex == KeysOf(s.made[k.id]).SenderID
    && if k.Opened? then OpenedFrom(cfg, seen, s.made[k.id], k.h, k.payload) else Encode(k.h) + k.body in seen
  }

  ghost predicate OriginInv(cfg: Config, seen: set<seq<byte>>, s: State) {
    && |s.made| == |s.tunnels|
    && (forall id | 0 <= id < |s.tunnels| :: CameFrom(cfg, s.tunnels[id], s.made[id]))
    && (forall t <- s.tasks :: TaskFrom(cfg, seen, s, s.tasks[t]))
    && (forall w <- s.written :: w.id < |s.made| && OpenedFrom(cfg, seen, s.made[w.id], w.h, w.payload))
  }

  lemma SeenMore(cfg: Config, seen: set<seq<byte>>, more: set<seq<byte>>, s: State)
    requires OriginInv(cfg, seen, s) && seen <= more
    ensures OriginInv(cfg, more, s)
  {
    hide CameFrom, KeysOf, Unwire, Encode;
    forall y: Answering, h: Header, p: seq<byte> | OpenedFrom(cfg, seen, y, h, p) ensures OpenedFrom(cfg, more, y, h, p) {
    }
    hide OpenedFrom;
  }

  lemma OriginAdmit(cfg: Config, seen: set<seq<byte>>, s: State, e: Event)
    requires OriginInv(cfg, seen, s) && e.Arrive?
    ensures OriginInv(cfg, seen, Admitted(cfg, s, e))
  {
    hide OpenedFrom, Encode;
    var s' := Admitted(cfg, s, e);
    if s' != s {
      assert CameFrom(cfg, s'.tunnels[|s.tunnels|], s'.made[|s.tunnels|]) by { hide OriginInv, Answered; }
      hide CameFrom, KeysOf, Answered;
    }
  }

  lemma OriginArrive(cfg: Config, seen: set<seq<byte>>, s: State, e: Event)
    requires TableInv(s) && OriginInv(cfg, seen, s) && e.Arrive? && e.t !in s.tasks && e.packet in seen
    ensures OriginInv(cfg, seen, Arrived(cfg, s, e))
  {
    hide OpenedFrom, Admitted, Current, Answered, Encode, Decode;
    if DispatchOf(e.packet).Handshake? {
      OriginAdmit(cfg, seen, s, e);
    } else if DispatchOf(e.packet).ToSession? {
      var h := DispatchOf(e.packet).h;
      if h.ReceiverIndex in s.table {
        TableNames(s, h.ReceiverIndex);
        assert CameFrom(cfg, s.tunnels[s.table[h.ReceiverIndex]], s.made[s.table[h.ReceiverIndex]]);
        EncodeAfterDecode(e.packet);
        assert Encode(h) + e.packet[HEADER_SIZE..] == e.packet;
      }
      hide CameFrom, KeysOf;
    }
  }

  lemma TableNames(s: State, i: uint32)
    requires TableInv(s) && i in s.table
    ensures s.table[i] < |s.tunnels| && s.tunnels[s.table[i]].local == i
  {
    assert Newest(s.tunnels, i, s.table[i]);
  }

  lemma OriginOpen(cfg: Config, seen: set<seq<byte>>, s: State, t: nat)
    requires OriginInv(cfg, seen, s)
    ensures OriginInv(cfg, seen, OpenStep(s, t))
  {
    hide Answered, KeysOf, Unwire, Encode;
    if t in s.tasks && s.tasks[t].Passed? {
      var k := s.tasks[t];
      assert TaskFrom(cfg, seen, s, k) && CameFrom(cfg, s.tunnels[k.id], s.made[k.id]);
      if s.tunnels[k.id].recv.Some? && Unwire(s.tunnels[k.id].recv.value, k.h, k.body).Some? {
        assert OpenedFrom(cfg, seen, s.made[k.id], k.h, Unwire(s.tunnels[k.id].recv.value, k.h, k.body).value);
      }
    }
    hide OpenedFrom, CameFrom;
  }

  lemma OriginActed(cfg: Config, seen: set<seq<byte>>, s: State, t: nat, log: seq<Registration<nat>>, written: seq<Delivery>)
    requires OriginInv(cfg, seen, s) && t in s.tasks && s.tasks[t].Opened?
    requires written == s.written || written == s.written + [Delivery(s.tasks[t].id, s.tasks[t].h, s.tasks[t].payload)]
    ensures OriginInv(cfg, seen, s.(tasks := s.tasks - {t}, log := log, written := written))
  {
    hide CameFrom, KeysOf, OpenedFrom, Encode;
    assert TaskFrom(cfg, seen, s, s.tasks[t]);
  }

  lemma OriginRemove(cfg: Config, seen: set<seq<byte>>, s: State, index: uint32)
    requires OriginInv(cfg, seen, s)
    ensures OriginInv(cfg, seen, Removed(s, index))
  {
    hide KeysOf, OpenedFrom, Encode;
    var s' := Removed(s, index);
    forall id | 0 <= id < |s'.tunnels| ensures CameFrom(cfg, s'.tunnels[id], s'.made[id]) {
      assert CameFrom(cfg, s.tunnels[id], s.made[id]);
    }
  }

  lemma OriginAct(cfg: Config, seen: set<seq<byte>>, s: State, t: nat)
    requires OriginInv(cfg, seen, s)
    ensures OriginInv(cfg, seen, ActStep(cfg, s, t))
  {
    hide OriginInv, SourceOf, Removed;
    if t in s.tasks && s.tasks[t].Opened? {
      var s' := ActStep(cfg, s, t);
      if s.tasks[t].h.Type == TYPE_DISCONNECT {
        OriginActed(cfg, seen, s, t, s.log, s.written);
        OriginRemove(cfg, seen, s.(tasks := s.tasks - {t}), s.tasks[t].h.ReceiverIndex);
      } else {
        OriginActed(cfg, seen, s, t, s'.log, s'.written);
      }
    }
  }

  /** Counting moves a task on with its packet. */
  lemma OriginCount(cfg: Config, seen: set<seq<byte>>, s: State, t: nat)
    requires OriginInv(cfg, seen, s)
    ensures OriginInv(cfg, seen, CountStep(s, t))
  {
    hide Answered, KeysOf, OpenedFrom, Encode, Passes;
    if t in s.tasks {
      assert TaskFrom(cfg, seen, s, s.tasks[t]);
    }
  }

  lemma OriginStep(cfg: Config, seen: set<seq<byte>>, s: State, e: Event)
    requires TableInv(s) && OriginInv(cfg, seen, s) && (e.Arrive? ==> e.packet in seen)
    ensures OriginInv(cfg, seen, Step(cfg, s, e))
  {
    hide Answered, KeysOf, OpenedFrom, TaskFrom, Encode, DestinationOf, Resolve, Wire, SealOutcome;
    hide DispatchOf, Current, Arrived, CountStep, OpenStep, ActStep;
    match e {
      case Arrive(t, _, _, _, _, _) =>
        if t !in s.tasks {
          OriginArrive(cfg, seen, s, e);
        }
      case Count(t) => OriginCount(cfg, seen, s, t);
      case Open(t) => OriginOpen(cfg, seen, s, t);
      case Act(t) => OriginAct(cfg, seen, s, t);
      case Egress(offset, packet) => OriginEgress(cfg, seen, s, offset, packet);
    }
  }

  lemma OriginEgress(cfg: Config, seen: set<seq<byte>>, s: State, offset: nat, packet: seq<byte>)
    requires OriginInv(cfg, seen, s)
    ensures OriginInv(cfg, seen, EgressStep(s, offset, packet))
  {
    hide Answered, KeysOf, OpenedFrom, Encode, DestinationOf, Resolve, Route;
  }

  lemma {:induction false} OriginRun(cfg: Config, es: seq<Event>)
    ensures OriginInv(cfg, Packets(es), Run(cfg, es))
  {
    hide Step, TableInv, OriginInv;
    if es == [] {
      OriginInit(cfg);
    } else {
      var p, e := es[..|es| - 1], es[|es| - 1];
      RunLast(cfg, es);
      hide Run;
      OriginRun(cfg, p);
      TableRun(cfg, p);
      assert e in es && forall d <- p :: d in es;
      SeenMore(cfg, Packets(p), Packets(es), Run(cfg, p));
      OriginStep(cfg, Packets(es), Run(cfg, p), e);
    }
  }

  lemma OriginInit(cfg: Config)
    ensures OriginInv(cfg, Packets([]), Init())
  {
  }

  /** Handshake, sessions and dispatch together: what the server writes to the TUN device
    * from a session came in a packet that reached the server, names the index that the
    * client of that session was given, and is what this packet opens to under the key
    * that this client seals with. The client is any initiator that accepted a response
    * with the payload that the session's run sealed. */
  lemma WrittenIsTheClients(cfg: Config, es: seq<Event>, w: Delivery,
                            i: Initiator, refused: seq<Noise.Response>, resp: Noise.Response)
    requires w in Run(cfg, es).written
    requires Initiated(i).0.Some? && Finished(i, refused, resp).Some?
    requires w.id < |Run(cfg, es).made| ==> SealedBy(Accepting(i, refused, resp), Run(cfg, es).made[w.id])
    ensures w.id < |Run(cfg, es).made| && i.point == Noise.Pub(cfg.own)
    ensures var keys := Finished(i, refused, resp).value;
            && w.h.ReceiverIndex == keys.PeerID
            && exists e <- es :: e.Arrive? && |e.packet| >= HEADER_SIZE && Decode(e.packet) == w.h &&
                 Unwire(cfg.lib(CIPHER_CHACHA20_POLY1305, keys.SendKey), w.h, e.packet[HEADER_SIZE..]) == Some(w.payload)
  {
    OriginRun(cfg, es);
    hide Run, Initiated, Answered, Finished, Unwire, Encode, Decode;
    var y := Run(cfg, es).made[w.id];
    assert CameFrom(cfg, Run(cfg, es).tunnels[w.id], y);
    AcceptanceImpliesMatch(i, refused, resp, y.run, y.msg);
    var body :| Encode(w.h) + body in Packets(es) &&
      Unwire(cfg.lib(CIPHER_CHACHA20_POLY1305, KeysOf(y).RecvKey), w.h, body) == Some(w.payload);
    var e :| e in es && e.Arrive? && e.packet == Encode(w.h) + body;
    DecodeAfterEncode(w.h, body);
    assert e.packet[HEADER_SIZE..] == body;
  }

  // The steps of one thread, alone.

  /** The steps of one packet, one after another. */
  ghost function Handled(cfg: Config, s: State, tr: nat, addr: Addr, packet: seq<byte>, index: uint32, ephemeral: Option<nat>): State {
    Step(cfg, Step(cfg, Step(cfg, Step(cfg, s, Arrive(0, tr, addr, packet, index, ephemeral)), Count(0)), Open(0)), Act(0))
  }

  lemma Idle(cfg: Config, s: State)
    requires s.tasks == map[]
    ensures Step(cfg, s, Count(0)) == Step(cfg, s, Open(0)) == Step(cfg, s, Act(0)) == s
  {
  }

  lemma SameArrival(cfg: Config, s: State, tr: nat, addr: Addr, packet: seq<byte>, index: uint32, ephemeral: Option<nat>)
    requires |packet| != Noise.HANDSHAKE_INIT_SIZE
    ensures Step(cfg, s, Arrive(0, tr, addr, packet, index, ephemeral)) == Step(cfg, s, Arrive(0, tr, addr, packet, 0, None))
  {
    hide Admitted;
  }

  lemma ActAlone(cfg: Config, s: State, id: nat, h: Header, plain: seq<byte>, tr: nat, addr: Addr)
    requires s.tasks == map[0 := Opened(id, h, plain, tr, addr)] && !s.crashed
    ensures var s' := Step(cfg, s, Act(0)); var u := s.(tasks := map[]);
            s' == if h.Type == TYPE_DATA then
                    u.(log := s.log + [Registration(SourceOf(plain, cfg.defaultPeerIP), id, tr, addr)],
                       written := if cfg.hasTun then s.written + [Delivery(id, h, plain)] else s.written)
                  else if h.Type == TYPE_KEEPALIVE then u.(log := s.log + [Registration(cfg.defaultPeerIP, id, tr, addr)])
                  else if h.Type == TYPE_DISCONNECT then Removed(u, h.ReceiverIndex)
                  else u
  {
    hide SourceOf, Removed;
    assert s.tasks - {0} == map[];
  }

  lemma ArriveTunnel(cfg: Config, s: State, tr: nat, addr: Addr, packet: seq<byte>)
    requires |packet| != Noise.HANDSHAKE_INIT_SIZE && s.tasks == map[] && !s.crashed
    ensures var s' := Step(cfg, s, Arrive(0, tr, addr, packet, 0, None));
            if |packet| < HEADER_SIZE || Decode(packet).ReceiverIndex !in s.table then s' == s
            else s' == s.(tasks := map[0 := Found(s.table[Decode(packet).ReceiverIndex], Decode(packet), packet[HEADER_SIZE..], tr, addr)])
  {
  }

  /** Session u opens a body behind h. */
  ghost predicate Opens(u: Tunnel, h: Header, body: seq<byte>)
    requires u.recv.Some?
  {
    Passes(u.accepted, u.marked, h.Counter) && Unwire(u.recv.value, h, body).Some?
  }

  lemma CountOpen(cfg: Config, s: State, id: nat, h: Header, body: seq<byte>, tr: nat, addr: Addr)
    requires id < |s.tunnels| && s.tunnels[id].recv.Some? && !s.crashed
    requires s.tasks == map[0 := Found(id, h, body, tr, addr)]
    ensures var s' := Step(cfg, Step(cfg, s, Count(0)), Open(0)); var u := s.tunnels[id];
            s' == s.(tunnels := s.tunnels[id := Counted(u, h.Counter)],
                     tasks := if Opens(u, h, body) then map[0 := Opened(id, h, Unwire(u.recv.value, h, body).value, tr, addr)] else map[])
  {
    assert s.tasks - {0} == map[];
  }

  /** The state after a handshake made session u. */
  ghost function Entered(cfg: Config, s: State, u: Tunnel, y: Answering, tr: nat, addr: Addr): State {
    s.(tunnels := s.tunnels + [u], made := s.made + [y], table := s.table[u.local := |s.tunnels|],
       log := s.log + [Registration(cfg.defaultPeerIP, |s.tunnels|, tr, addr)])
  }

  lemma ArriveHandshake(cfg: Config, s: State, e: Event)
    requires e.Arrive? && |e.packet| == Noise.HANDSHAKE_INIT_SIZE && s.tasks == map[] && !s.crashed
    ensures Step(cfg, s, e) == Admitted(cfg, s, e)
  {
  }

  lemma AdmittedIsEntered(cfg: Config, s: State, e: Event, y: Answering, u: Tunnel)
    requires e.Arrive? && e.ephemeral.Some?
    requires y == Answering(Responder(cfg.own, e.ephemeral.value, e.index), cfg.reading(e.packet))
    requires Answered(y.run, y.msg).Some?
    requires var keys := Answered(y.run, y.msg).value.keys;
             u == Tunnel(keys.SenderID, keys.PeerID, Some(cfg.lib(CIPHER_CHACHA20_POLY1305, keys.SendKey)),
                         Some(cfg.lib(CIPHER_CHACHA20_POLY1305, keys.RecvKey)), 0, {}, {})
    ensures Admitted(cfg, s, e) == Entered(cfg, s, u, y, e.tr, e.addr)
  {
    hide Answered;
  }

  /** Without a fresh key, or when the message does not answer, nothing changes. */
  lemma NotAdmitted(cfg: Config, s: State, e: Event)
    requires e.Arrive?
    requires e.ephemeral.None? || Answered(Responder(cfg.own, e.ephemeral.value, e.index), cfg.reading(e.packet)).None?
    ensures Admitted(cfg, s, e) == s
  {
    hide Answered;
  }

  lemma EgressAlone(cfg: Config, s: State, offset: nat, p: seq<byte>)
    requires !s.crashed
    ensures var to := Resolve<nat>(s.log, DestinationOf(p)); var s' := Step(cfg, s, Egress(offset, p));
      if to.None? then Route(s, offset, p) == NoPeer && s' == s
      else if to.value.session < |s.tunnels| then
        var id := to.value.session; var u := s.tunnels[id];
        var v := s.(tunnels := s.tunnels[id := u.(calls := (u.calls + 1) % TWO_TO_64)]);
        match SealOutcome(u.send.Some?, offset, |p|, DEFAULT_BUFFER_SIZE)
        case Failed(_) => Route(s, offset, p) == Dropped && s' == v
        case Crashed => Route(s, offset, p) == PeerCrash && s' == v.(crashed := true)
        case Done =>
          var w := Wire(u.send.value, Header(TYPE_DATA, 0, u.remote, u.calls), p);
          s' == v && Route(s, offset, p) == Forwarded(w, to.value.transport, to.value.addr)
      else true
  {
    hide Resolve, DestinationOf, Wire, SealOutcome;
  }

  // The steps in terms of bytes and numbers.

  /** Which packet is dispatched where. */
  lemma DispatchLaw(w: seq<byte>)
    ensures DispatchOf(w) == Handshake <==> |w| == 108
    ensures DispatchOf(w) == Truncated <==> |w| < 14
    ensures forall h :: DispatchOf(w) == ToSession(h) <==> |w| >= 14 && |w| != 108 && Layout(w, h)
  {
    if |w| >= 14 {
      forall h ensures Layout(w, h) <==> Decode(w) == h {
        LayoutDetermines(w, h);
      }
    }
  }

  /** The source address of an IPv4 packet is the text of its bytes 12 to 15. */
  lemma SourceLaw(p: seq<byte>, defaultPeerIP: string)
    ensures if |p| >= 20 && 64 <= p[0] <= 79
            then IsQuad(SourceOf(p, defaultPeerIP), p[12], p[13], p[14], p[15])
            else SourceOf(p, defaultPeerIP) == defaultPeerIP
  {
    if |p| >= 20 {
      QuadIsText(p[12..16]);
    }
    hide IsQuad;
  }

  /** Its destination is that of bytes 16 to 19. */
  lemma DestinationLaw(p: seq<byte>)
    ensures if |p| >= 20 && 64 <= p[0] <= 79
            then IsQuad(DestinationOf(p), p[16], p[17], p[18], p[19])
            else DestinationOf(p) == ""
  {
    if |p| >= 20 {
      QuadIsText(p[16..20]);
    }
    hide IsQuad;
  }

  /** A handshake packet: nothing happens, or exactly one session is made for exactly the
    * keys, indices, transport and address of this handshake. */
  lemma AdmitLaw(cfg: Config, s: State, e: Event)
    requires e.Arrive? && |e.packet| == 108 && !s.crashed && e.t !in s.tasks
    ensures var s' := Step(cfg, s, e); var n := |s.tunnels|;
            if e.ephemeral.None? || Answered(Responder(cfg.own, e.ephemeral.value, e.index), cfg.reading(e.packet)).None? then s' == s
            else
              var y := Answering(Responder(cfg.own, e.ephemeral.value, e.index), cfg.reading(e.packet));
              var keys := Answered(y.run, y.msg).value.keys;
              && keys.SenderID == e.index
              && s'.tunnels == s.tunnels + [Tunnel(e.index, keys.PeerID, Some(cfg.lib(1, keys.SendKey)), Some(cfg.lib(1, keys.RecvKey)), 0, {}, {})]
              && s'.made == s.made + [y] && s'.table == s.table[e.index := n]
              && s'.log == s.log + [Registration(cfg.defaultPeerIP, n, e.tr, e.addr)]
              && s'.written == s.written && s'.tasks == s.tasks && !s'.crashed
  {
    if e.ephemeral.Some? && Answered(Responder(cfg.own, e.ephemeral.value, e.index), cfg.reading(e.packet)).Some? {
      AnsweredChain(Responder(cfg.own, e.ephemeral.value, e.index), cfg.reading(e.packet));
    }
    hide Answered;
  }

  /** Any other packet: a thread takes it up for the session that its header names. */
  lemma ArriveLaw(cfg: Config, s: State, e: Event, h: Header)
    requires e.Arrive? && |e.packet| != 108 && !s.crashed && e.t !in s.tasks
    requires |e.packet| >= 14 ==> Layout(e.packet, h)
    ensures Step(cfg, s, e) ==
              if |e.packet| < 14 || h.ReceiverIndex !in s.table then s
              else s.(tasks := s.tasks[e.t := Found(s.table[h.ReceiverIndex], h, e.packet[14..], e.tr, e.addr)])
  {
    if |e.packet| >= 14 {
      LayoutDetermines(e.packet, h);
    }
    hide Layout, Decode, Admitted;
  }

  /** An opened packet, by the number of its type. */
  lemma ActLaw(cfg: Config, s: State, t: nat)
    requires !s.crashed && t in s.tasks && s.tasks[t].Opened?
    ensures var s' := Step(cfg, s, Act(t)); var k, u := s.tasks[t], s.(tasks := s.tasks - {t});
            && (k.h.Type == 3 ==>
                  s' == u.(log := s.log + [Registration(SourceOf(k.payload, cfg.defaultPeerIP), k.id, k.tr, k.addr)],
                           written := s.written + if cfg.hasTun then [Delivery(k.id, k.h, k.payload)] else []))
            && (k.h.Type == 4 ==> s' == u.(log := s.log + [Registration(cfg.defaultPeerIP, k.id, k.tr, k.addr)]))
            && (k.h.Type == 5 && k.h.ReceiverIndex in s.table && s.table[k.h.ReceiverIndex] < |s.tunnels| ==>
                  var id := s.table[k.h.ReceiverIndex];
                  s' == u.(tunnels := s.tunnels[id := s.tunnels[id].(send := None, recv := None, marked := {})],
                           table := s.table - {k.h.ReceiverIndex}))
            && (k.h.Type == 5 && k.h.ReceiverIndex !in s.table ==> s' == u)
            && (k.h.Type != 3 && k.h.Type != 4 && k.h.Type != 5 ==> s' == u)
  {
    hide SourceOf;
  }

  /** A packet from the TUN device: when it is sent, with which bytes, and where to. */
  lemma RouteLaw(cfg: Config, s: State, offset: nat, p: seq<byte>, r: Registration<nat>)
    requires !s.crashed && Resolve<nat>(s.log, DestinationOf(p)) == Some(r) && r.session < |s.tunnels|
    ensures var u, v := s.tunnels[r.session], Route(s, offset, p);
            && (v.Forwarded? <==> u.send.Some? && (if offset >= 14 then offset else 14) + |p| + 16 <= 2048)
            && (v.PeerCrash? <==> u.send.None? && offset + |p| + 16 <= 2048)
            && !v.NoPeer?
            && (v.Forwarded? ==>
                  && v.tr == r.transport && v.addr == r.addr
                  && |v.packet| == |p| + 30 && Layout(v.packet, Header(3, 0, u.remote, u.calls))
                  && v.packet[14..] == u.send.value.seal([0, 0, 0, 0] + v.packet[6..14], v.packet[..14], p))
            && Step(cfg, s, Egress(offset, p)) ==
                 s.(tunnels := s.tunnels[r.session := u.(calls := (u.calls + 1) % 0x1_0000_0000_0000_0000)], crashed := v.PeerCrash?)
  {
    var u := s.tunnels[r.session];
    hide Resolve, DestinationOf, Layout;
    if u.send.Some? {
      WireLayout(u.send.value, Header(TYPE_DATA, 0, u.remote, u.calls), p);
    }
    hide Wire;
  }

  /** It goes nowhere only before any registration. */
  lemma RouteNowhere(s: State, offset: nat, p: seq<byte>)
    ensures Route(s, offset, p) == NoPeer <==> s.log == []
  {
    if s.log != [] {
      ResolvesToLatest<nat>(s.log, DestinationOf(p), s.log[|s.log| - 1]);
    }
    hide DestinationOf, Wire, SealOutcome;
  }

  // Replies find their way back.

  lemma LogStep(cfg: Config, s: State, e: Event)
    ensures s.log <= Step(cfg, s, e).log
  {
    hide Answered, Unwire, SourceOf, DestinationOf, Resolve, Passes, Wire, SealOutcome, DispatchOf;
  }

  lemma {:induction false} LogGrows(cfg: Config, es: seq<Event>, k: nat, n: nat)
    requires k <= n <= |es|
    ensures Run(cfg, es[..k]).log <= Run(cfg, es[..n]).log
    decreases n
  {
    hide Run, Step;
    if k < n {
      LogGrows(cfg, es, k, n - 1);
      assert es[..n][..n - 1] == es[..n - 1];
      RunLast(cfg, es[..n]);
      LogStep(cfg, Run(cfg, es[..n - 1]), es[n - 1]);
    }
  }

  /** The last registration of an address takes its packets. */
  lemma LastOfItsAddress(log: seq<Registration<nat>>, k: nat)
    requires k < |log| && forall j | k < j < |log| :: log[j].ip != log[k].ip
    ensures Resolve<nat>(log, log[k].ip) == Some(log[k])
  {
    assert IsLatestFor<nat>(log, log[k].ip, log[k]);
    ResolvesToLatest<nat>(log, log[k].ip, log[k]);
    assert log[k] in log;
  }

  ghost predicate SameAddress(q: seq<byte>, p: seq<byte>) {
    && |q| >= 20 && 64 <= q[0] <= 79
    && |p| >= 20 && 64 <= p[0] <= 79
    && p[16] == q[12] && p[17] == q[13] && p[18] == q[14] && p[19] == q[15]
  }

  /** Step k of a run acts on an IPv4 data packet q that session id opened from transport
    * tr and address addr. Until someone else registers its source address, every packet
    * from the TUN device for that address goes to that session, transport and address. */
  lemma RepliesReturn(cfg: Config, es: seq<Event>, k: nat, q: seq<byte>, p: seq<byte>)
    requires k < |es| && es[k].Act? && !Run(cfg, es[..k]).crashed
    requires es[k].t in Run(cfg, es[..k]).tasks
    requires var task := Run(cfg, es[..k]).tasks[es[k].t]; task.Opened? && task.h.Type == 3 && task.payload == q
    requires SameAddress(q, p)
    requires var n := |Run(cfg, es[..k]).log|;
             forall j | n < j < |Run(cfg, es).log| :: Run(cfg, es).log[j].ip != SourceOf(q, cfg.defaultPeerIP)
    ensures var task := Run(cfg, es[..k]).tasks[es[k].t];
            Resolve<nat>(Run(cfg, es).log, DestinationOf(p)) ==
              Some(Registration(DestinationOf(p), task.id, task.tr, task.addr))
  {
    hide Run, Step, SourceOf, DestinationOf, IsQuad, Resolve;
    var s, n := Run(cfg, es[..k]), |Run(cfg, es[..k]).log|;
    var ip := SourceOf(q, cfg.defaultPeerIP);
    ActLaw(cfg, s, es[k].t);
    assert es[..k + 1][..k] == es[..k];
    RunLast(cfg, es[..k + 1]);
    LogGrows(cfg, es, k + 1, |es|);
    assert es[..|es|] == es;
    var log := Run(cfg, es).log;
    assert log[n] == Run(cfg, es[..k + 1]).log[n];
    LastOfItsAddress(log, n);
    SourceLaw(q, cfg.defaultPeerIP);
    DestinationLaw(p);
    QuadUnique(ip, DestinationOf(p), q[12], q[13], q[14], q[15]);
  }

  // A run that dies.

  /** A peer completes a handshake and disconnects, and the TUN device gives a packet. */
  function ShortVisit(cfg: Config, i: Initiator, index: uint32, ephemeral: nat, initiation: seq<byte>, p: seq<byte>): seq<Event> {
    [Arrive(0, 0, "", initiation, index, Some(ephemeral)),
     Arrive(0, 0, "", Farewell(cfg, i, index, ephemeral), 0, None), Count(0), Open(0), Act(0),
     Egress(0, p)]
  }

  /** The peer's disconnect packet. */
  function Farewell(cfg: Config, i: Initiator, index: uint32, ephemeral: nat): seq<byte> {
    var msg := Initiated(i).0;
    if msg.None? then [] else
    var keys := KeysOf(Answering(Responder(cfg.own, ephemeral, index), msg.value));
    Wire(cfg.lib(CIPHER_CHACHA20_POLY1305, keys.RecvKey), Header(TYPE_DISCONNECT, 0, index, 0), [])
  }

  /** The state after the handshake, on a server that is handling nothing else. */
  lemma Visited(cfg: Config, s: State, i: Initiator, index: uint32, ephemeral: nat, initiation: seq<byte>)
    requires |initiation| == Noise.HANDSHAKE_INIT_SIZE && i.point == Noise.Pub(cfg.own)
    requires Initiated(i).0 == Some(cfg.reading(initiation))
    requires s.tasks == map[] && !s.crashed
    ensures var s' := Step(cfg, s, Arrive(0, 0, "", initiation, index, Some(ephemeral)));
            var keys := KeysOf(Answering(Responder(cfg.own, ephemeral, index), Initiated(i).0.value));
            var n := |s.tunnels|;
            && |s'.tunnels| == n + 1 && s'.tunnels[n].accepted == s'.tunnels[n].marked == {}
            && s'.tunnels[n].recv == Some(cfg.lib(CIPHER_CHACHA20_POLY1305, keys.RecvKey))
            && s'.table == s.table[index := n] && s'.log == s.log + [Registration(cfg.defaultPeerIP, n, 0, "")]
            && s'.tasks == map[] && !s'.crashed
  {
    var r := Responder(cfg.own, ephemeral, index);
    HonestRunCompletes(i, r);
    AnsweredChain(r, Initiated(i).0.value);
    hide Answered, Initiated;
  }

  /** The state once the disconnect has been acted on. */
  lemma Left(cfg: Config, s: State, n: nat, index: uint32, a: LawfulAead)
    requires n < |s.tunnels| && s.tunnels[n].accepted == s.tunnels[n].marked == {} && s.tunnels[n].recv == Some(a)
    requires index in s.table && s.table[index] == n && s.tasks == map[] && !s.crashed
    ensures var w := Wire(a, Header(TYPE_DISCONNECT, 0, index, 0), []);
            var s' := Step(cfg, Step(cfg, Step(cfg, Step(cfg, s, Arrive(0, 0, "", w, 0, None)), Count(0)), Open(0)), Act(0));
            |s'.tunnels| == |s.tunnels| && s'.tunnels[n].send.None? && s'.log == s.log && !s'.crashed
  {
    var h := Header(TYPE_DISCONNECT, 0, index, 0);
    var w := Wire(a, h, []);
    hide Encode, Decode, Nonce, Step, Unwire;
    GenuineDispatch(a, h, []);
    WireRoundTrip(a, h, []);
    ArriveTunnel(cfg, s, 0, "", w);
    hide Wire, DispatchOf;
    var s1, body := Step(cfg, s, Arrive(0, 0, "", w, 0, None)), w[HEADER_SIZE..];
    CountOpen(cfg, s1, n, h, body, 0, "");
    var s3 := Step(cfg, Step(cfg, s1, Count(0)), Open(0));
    ActAlone(cfg, s3, n, h, [], 0, "");
  }

  /** Whatever happened before: a peer that completes a handshake and sends a disconnect
    * makes the server die on the next packet from the TUN device that is not for an
    * address learned before. */
  lemma ShortVisitCrashes(cfg: Config, es: seq<Event>, i: Initiator, index: uint32, ephemeral: nat,
                          initiation: seq<byte>, p: seq<byte>)
    requires Run(cfg, es).tasks == map[] && !Run(cfg, es).crashed
    requires |initiation| == Noise.HANDSHAKE_INIT_SIZE && i.point == Noise.Pub(cfg.own)
    requires Initiated(i).0 == Some(cfg.reading(initiation))
    requires |p| + TAG_SIZE <= DEFAULT_BUFFER_SIZE
    requires DestinationOf(p) == cfg.defaultPeerIP || forall r <- Run(cfg, es).log :: r.ip != DestinationOf(p)
    ensures Run(cfg, es + ShortVisit(cfg, i, index, ephemeral, initiation, p)).crashed
  {
    hide Run, Step, KeysOf, Wire, Initiated, Answered, DestinationOf;
    var fs, s := ShortVisit(cfg, i, index, ephemeral, initiation, p), Run(cfg, es);
    var a := cfg.lib(CIPHER_CHACHA20_POLY1305, KeysOf(Answering(Responder(cfg.own, ephemeral, index), Initiated(i).0.value)).RecvKey);
    Visited(cfg, s, i, index, ephemeral, initiation);
    var s1 := Step(cfg, s, fs[0]);
    Left(cfg, s1, |s.tunnels|, index, a);
    RunSix(cfg, es, fs);
    var dead := Run(cfg, es + fs[..5]);
    LastRoute(s.log, Registration(cfg.defaultPeerIP, |s.tunnels|, 0, ""), DestinationOf(p));
    EgressAlone(cfg, dead, 0, p);
  }

  lemma RunSix(cfg: Config, es: seq<Event>, fs: seq<Event>)
    requires |fs| == 6
    ensures Run(cfg, es + fs[..5]) ==
      Step(cfg, Step(cfg, Step(cfg, Step(cfg, Step(cfg, Run(cfg, es), fs[0]), fs[1]), fs[2]), fs[3]), fs[4])
    ensures Run(cfg, es + fs) == Step(cfg, Run(cfg, es + fs[..5]), fs[5])
  {
    hide Run, Step;
    assert es + fs[..0] == es && fs[..6] == fs;
    RunNext(cfg, es, fs, 0);
    RunNext(cfg, es, fs, 1);
    RunNext(cfg, es, fs, 2);
    RunNext(cfg, es, fs, 3);
    RunNext(cfg, es, fs, 4);
    RunNext(cfg, es, fs, 5);
  }

  lemma RunNext(cfg: Config, es: seq<Event>, fs: seq<Event>, k: nat)
    requires k < |fs|
    ensures Run(cfg, es + fs[..k + 1]) == Step(cfg, Run(cfg, es + fs[..k]), fs[k])
  {
    var ds := es + fs[..k + 1];
    assert ds[..|ds| - 1] == es + fs[..k] && ds[|ds| - 1] == fs[k];
    RunLast(cfg, ds);
  }

  /** The last registration takes its own address and those never registered. */
  lemma LastRoute(log: seq<Registration<nat>>, r: Registration<nat>, ip: string)
    requires ip == r.ip || forall q <- log :: q.ip != ip
    ensures Resolve<nat>(log + [r], ip) == Some(r)
  {
    LatestAppend<nat>(log, r);
    LatestKeys<nat>(log, ip);
  }
}
