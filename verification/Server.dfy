/** The server's objects. Every method moves the state that they stand for by steps of
  * the state machine in Service, so what is proved there of every run holds of them. */
module Server {
  import opened Words
  import opened Buffer
  import opened Packet
  import opened Cipher
  import opened Replay
  import opened Session
  import opened Peers
  import opened Service
  import opened Agreement
  import Noise

  ghost function Snap(s: Session): Tunnel
    reads s, s.replay
  {
    Tunnel(s.LocalIndex, s.RemoteIndex, s.SendCipher, s.RecvCipher, s.sendCounter, s.replay.accepted, s.replay.marked)
  }

  ghost function Snaps(ss: seq<Session>): (us: seq<Tunnel>)
    reads ss, set s <- ss :: s.replay
    ensures |us| == |ss| && forall k | 0 <= k < |ss| :: us[k] == Snap(ss[k])
  {
    if ss == [] then [] else [Snap(ss[0])] + Snaps(ss[1..])
  }

  lemma SnapsMore(ss: seq<Session>, s: Session)
    ensures Snaps(ss + [s]) == Snaps(ss) + [Snap(s)]
  {
  }

  /** The routing log with sessions by number. */
  function ByNumber(log: seq<Registration<Session>>, who: seq<nat>): (r: seq<Registration<nat>>)
    ensures |log| == |who| ==>
      |r| == |log| && forall k | 0 <= k < |r| :: r[k] == Registration(log[k].ip, who[k], log[k].transport, log[k].addr)
  {
    if log == [] || who == [] then []
    else ByNumber(log[..|log| - 1], who[..|who| - 1]) +
         [Registration(log[|log| - 1].ip, who[|who| - 1], log[|log| - 1].transport, log[|log| - 1].addr)]
  }

  lemma ByNumberMore(log: seq<Registration<Session>>, who: seq<nat>, r: Registration<Session>, n: nat)
    requires |log| == |who|
    ensures ByNumber(log + [r], who + [n]) == ByNumber(log, who) + [Registration(r.ip, n, r.transport, r.addr)]
  {
  }

  /** Numbering the sessions does not change where a packet goes. */
  lemma {:induction false} SameRoute(log: seq<Registration<Session>>, who: seq<nat>, ip: string)
    requires |log| == |who|
    ensures ip in Latest(log) <==> ip in Latest(ByNumber(log, who))
    ensures ip in Latest(log) ==>
      exists k | 0 <= k < |log| :: log[k] == Latest(log)[ip] && ByNumber(log, who)[k] == Latest(ByNumber(log, who))[ip]
  {
    if log != [] {
      var n := |log| - 1;
      SameRoute(log[..n], who[..n], ip);
      var bs := ByNumber(log, who);
      assert bs[..n] == ByNumber(log[..n], who[..n]);
      if log[n].ip != ip && ip in Latest(log[..n]) {
        var k :| 0 <= k < n && log[..n][k] == Latest(log[..n])[ip] && bs[..n][k] == Latest(bs[..n])[ip];
        assert log[k] == Latest(log)[ip] && bs[k] == Latest(bs)[ip];
      } else if log[n].ip == ip {
        assert log[n] == Latest(log)[ip] && bs[n] == Latest(bs)[ip];
      }
    }
  }

  lemma SameResolution(log: seq<Registration<Session>>, who: seq<nat>, ip: string)
    requires |log| == |who|
    ensures Resolve(log, ip).None? <==> Resolve(ByNumber(log, who), ip).None?
    ensures Resolve(log, ip).Some? ==>
      exists k | 0 <= k < |log| :: Resolve(log, ip) == Some(log[k]) && Resolve(ByNumber(log, who), ip) == Some(ByNumber(log, who)[k])
  {
    SameRoute(log, who, ip);
    if ip !in Latest(log) && log != [] {
      var k := |log| - 1;
      assert Resolve(log, ip) == Some(log[k]);
    }
  }

  /** A responder run of the server and the session that it gives. */
  method AnswerInitiation(cfg: Config, msg: Noise.Initiation, index: uint32, ephemeral: Option<nat>)
    returns (made: Option<(Session, Noise.Response)>)
    ensures made.Some? <==> ephemeral.Some? && Answered(Responder(cfg.own, ephemeral.value, index), msg).Some?
    ensures made.Some? ==>
      var s := made.value.0; var answer := Answered(Responder(cfg.own, ephemeral.value, index), msg).value;
      && fresh(s) && fresh(s.replay) && s.Live() && made.value.1 == answer.response
      && Snap(s) == Tunnel(answer.keys.SenderID, answer.keys.PeerID,
                           Some(cfg.lib(CIPHER_CHACHA20_POLY1305, answer.keys.SendKey)),
                           Some(cfg.lib(CIPHER_CHACHA20_POLY1305, answer.keys.RecvKey)), 0, {}, {})
  {
    hide Noise.Respond, Session.Live;
    NoEphemeral(cfg.own, index, msg, Noise.Start(Noise.Pub(cfg.own)));
    var responder := new Noise.ResponderHandshake(cfg.own, index);
    var answer := responder.ConsumeInitiation(msg, ephemeral);
    if answer.None? {
      return None;
    }
    var session := NewSession(cfg.lib, answer.value.keys, CIPHER_CHACHA20_POLY1305);
    return Some((session.value, answer.value.response));
  }

  /** The numbers in slots stand for the sessions in the table. */
  ghost predicate Numbers(made: seq<Session>, members: set<Session>, slots: map<uint32, nat>, table: map<uint32, Session>) {
    && (forall k | 0 <= k < |made| :: made[k] in members)
    && (forall a, b | 0 <= a < b < |made| :: made[a] != made[b])
    && slots.Keys == table.Keys
    && (forall i <- slots :: slots[i] < |made| && made[slots[i]] == table[i])
  }

  /** The numbers in who stand for the sessions in the routing log. */
  ghost predicate Names(made: seq<Session>, who: seq<nat>, log: seq<Registration<Session>>) {
    && |who| == |log|
    && (forall k | 0 <= k < |who| :: who[k] < |made| && made[who[k]] == log[k].session)
  }

  /** The responses that went out are those of the handshake runs. */
  ghost predicate Replied(runs: seq<Answering>, replies: seq<Noise.Response>) {
    && |replies| == |runs|
    && (forall k | 0 <= k < |runs| :: Answered(runs[k].run, runs[k].msg).Some? &&
          replies[k] == Answered(runs[k].run, runs[k].msg).value.response)
  }

  lemma NumbersEnter(made: seq<Session>, members: set<Session>, slots: map<uint32, nat>, table: map<uint32, Session>,
                     s: Session, i: uint32)
    requires Numbers(made, members, slots, table) && s !in members
    ensures Numbers(made + [s], members + {s}, slots[i := |made|], table[i := s])
  {
  }

  lemma NamesEnter(made: seq<Session>, who: seq<nat>, log: seq<Registration<Session>>, s: Session)
    requires Names(made, who, log)
    ensures Names(made + [s], who, log)
  {
  }

  lemma NamesMore(made: seq<Session>, who: seq<nat>, log: seq<Registration<Session>>, id: nat, r: Registration<Session>)
    requires Names(made, who, log) && id < |made| && r.session == made[id]
    ensures Names(made, who + [id], log + [r])
  {
  }

  lemma RepliedEnter(runs: seq<Answering>, replies: seq<Noise.Response>, y: Answering)
    requires Replied(runs, replies) && Answered(y.run, y.msg).Some?
    ensures Replied(runs + [y], replies + [Answered(y.run, y.msg).value.response])
  {
  }

  class Server {
    const sessionMgr: SessionManager
    const peerTable: PeerTable<Session>
    const cfg: Config
    var tun: seq<seq<byte>>               // packets written to the TUN device
    var replies: seq<Noise.Response>      // handshake responses sent
    ghost var made: seq<Session>          // the sessions, in the order in which they were made
    ghost var runs: seq<Answering>
    ghost var slots: map<uint32, nat>     // the table, by number
    ghost var who: seq<nat>               // the sessions of the routing log, by number
    ghost var written: seq<Delivery>
    ghost var tasks: map<nat, Task>
    ghost var crashed: bool

    constructor (cfg: Config)
      ensures Valid() && fresh(sessionMgr) && fresh(peerTable) && this.cfg == cfg
      ensures sessionMgr.members == {} && sessionMgr.windows == {} && peerTable.entries == {}
      ensures View() == Init()
    {
      sessionMgr := new SessionManager();
      peerTable := new PeerTable();
      this.cfg := cfg;
      tun, replies := [], [];
      made, runs, slots, who, written, tasks, crashed := [], [], map[], [], [], map[], false;
    }

    ghost predicate Valid()
      reads this, sessionMgr, sessionMgr.members, sessionMgr.windows, peerTable, peerTable.entries
    {
      sessionMgr.Valid() && peerTable.Valid() && Numbered() && Noted() && Tasked()
    }

    ghost predicate Numbered()
      reads `made, `slots, `who, sessionMgr`sessions, sessionMgr`members, peerTable`log
    {
      && Numbers(made, sessionMgr.members, slots, sessionMgr.sessions)
      && Names(made, who, peerTable.log)
    }

    ghost predicate Tasked()
      reads `tasks, `made
    {
      forall t <- tasks :: tasks[t].id < |made|
    }

    ghost predicate Noted()
      reads `tun, `written, `replies, `runs, `made
    {
      && |tun| == |written| && (forall k | 0 <= k < |tun| :: tun[k] == written[k].payload)
      && |made| == |runs| && Replied(runs, replies)
    }

    /** The state that the objects stand for. */
    ghost function View(): State
      reads this, peerTable`log, made, set s <- made :: s.replay
    {
      State(Snaps(made), runs, slots, ByNumber(peerTable.log, who), written, tasks, crashed)
    }

    lemma Shape()
      ensures View().tasks == tasks && View().table == slots && View().crashed == crashed
      ensures |View().tunnels| == |made|
    {
    }

    /** The tables gain only new objects. */
    twostate predicate GrowsFresh()
      reads sessionMgr, peerTable
    {
      && fresh(sessionMgr.members - old(sessionMgr.members))
      && fresh(sessionMgr.windows - old(sessionMgr.windows))
      && fresh(peerTable.entries - old(peerTable.entries))
    }

    /** PeerTable.Register, for session number id. */
    method Learn(ip: string, session: Session, tr: nat, raddr: Addr, ghost id: nat)
      requires Valid() && id < |made| && made[id] == session
      modifies `who, peerTable, peerTable.entries
      ensures Valid() && fresh(peerTable.entries - old(peerTable.entries))
      ensures View() == old(View()).(log := old(View()).log + [Registration(ip, id, tr, raddr)])
    {
      hide SessionManager.Valid, PeerTable.Valid, Noted, ByNumber, Snaps, Numbers, Names;
      NamesMore(made, who, peerTable.log, id, Registration(ip, session, tr, raddr));
      peerTable.Register(ip, session, tr, raddr);
      ByNumberMore(old(peerTable.log), who, Registration(ip, session, tr, raddr), id);
      who := who + [id];
    }

    /** What a valid handshake does: a new session, in the table and the routing log. */
    method Enter(session: Session, tr: nat, raddr: Addr, response: Noise.Response, ghost y: Answering)
      requires Valid() && session.Live() && session.replay !in sessionMgr.windows && session !in sessionMgr.members
      requires Answered(y.run, y.msg).Some? && response == Answered(y.run, y.msg).value.response
      modifies `tun, `replies, `made, `runs, `slots, `who, sessionMgr, peerTable, peerTable.entries
      ensures Valid() && tasks == old(tasks)
      ensures sessionMgr.members == old(sessionMgr.members) + {session}
      ensures sessionMgr.windows == old(sessionMgr.windows) + {session.replay}
      ensures fresh(peerTable.entries - old(peerTable.entries))
      ensures View() == Entered(cfg, old(View()), Snap(session), y, tr, raddr)
    {
      hide Valid, ByNumber, Snaps, Answered, Session.Live;
      ghost var n := |made|;
      SnapsMore(made, session);
      EnterTable(session, response, y);
      Learn(cfg.defaultPeerIP, session, tr, raddr, n);
    }

    method EnterTable(session: Session, response: Noise.Response, ghost y: Answering)
      requires Valid() && session.Live() && session.replay !in sessionMgr.windows && session !in sessionMgr.members
      requires Answered(y.run, y.msg).Some? && response == Answered(y.run, y.msg).value.response
      modifies `replies, `made, `runs, `slots, sessionMgr
      ensures Valid() && made == old(made) + [session] && runs == old(runs) + [y]
      ensures slots == old(slots)[session.LocalIndex := |old(made)|]
      ensures sessionMgr.members == old(sessionMgr.members) + {session}
      ensures sessionMgr.windows == old(sessionMgr.windows) + {session.replay}
    {
      hide SessionManager.Valid, PeerTable.Valid, Session.Live, Answered, Numbers, Names, Replied;
      NumbersEnter(made, sessionMgr.members, slots, sessionMgr.sessions, session, session.LocalIndex);
      NamesEnter(made, who, peerTable.log, session);
      RepliedEnter(runs, replies, y);
      sessionMgr.Register(session);
      slots := slots[session.LocalIndex := |made|];
      made, runs := made + [session], runs + [y];
      replies := replies + [response];
    }

    /** A packet of the size of an initiation. */
    method HandleHandshake(tr: nat, raddr: Addr, packet: seq<byte>, index: uint32, ephemeral: Option<nat>)
      requires Valid() && |packet| == Noise.HANDSHAKE_INIT_SIZE && tasks == map[] && !crashed
      modifies this, sessionMgr, peerTable, peerTable.entries
      ensures Valid() && GrowsFresh() && tasks == map[] && !crashed
      ensures View() == Step(cfg, old(View()), Arrive(0, tr, raddr, packet, index, ephemeral))
    {
      hide Valid, Answered, Session.Live, View, Step, Admitted, Entered, Snap;
      ghost var e, s := Arrive(0, tr, raddr, packet, index, ephemeral), View();
      Shape();
      ArriveHandshake(cfg, s, e);
      var made := AnswerInitiation(cfg, cfg.reading(packet), index, ephemeral);
      if made.None? {
        NotAdmitted(cfg, s, e);
        return;
      }
      ghost var y := Answering(Responder(cfg.own, ephemeral.value, index), cfg.reading(packet));
      AdmittedIsEntered(cfg, s, e, y, Snap(made.value.0));
      Enter(made.value.0, tr, raddr, made.value.1, y);
    }

    ghost method Note(ts: map<nat, Task>)
      requires Valid() && forall t <- ts :: ts[t].id < |made|
      modifies `tasks
      ensures Valid() && tasks == ts
      ensures View() == old(View()).(tasks := ts)
    {
      hide SessionManager.Valid, PeerTable.Valid, Noted, Numbered, Snaps, ByNumber;
      tasks := ts;
    }

    /** Strips the header and looks up the session that it names. */
    method Find(tr: nat, raddr: Addr, buf: PacketBuffer) returns (session: Session?, h: Header)
      requires Valid() && buf.Valid() && buf.Length != Noise.HANDSHAKE_INIT_SIZE && tasks == map[] && !crashed
      modifies `tasks, buf
      ensures Valid() && buf.Valid()
      ensures View() == Step(cfg, old(View()), Arrive(0, tr, raddr, old(buf.Bytes()), 0, None))
      ensures session == null ==> tasks == map[]
      ensures session != null ==>
        && h.ReceiverIndex in slots && slots[h.ReceiverIndex] < |made| && made[slots[h.ReceiverIndex]] == session
        && session.Live() && session.LocalIndex == h.ReceiverIndex
        && session in sessionMgr.members && session.replay in sessionMgr.windows
        && tasks == map[0 := Found(slots[h.ReceiverIndex], h, buf.Bytes(), tr, raddr)]
    {
      hide Valid, View, PacketBuffer.Bytes, Step, Decode, Session.Live;
      Members();
      Shape();
      ArriveTunnel(cfg, View(), tr, raddr, buf.Bytes());
      var stripped := Strip(buf);
      if stripped.None? {
        return null, Header(0, 0, 0, 0);
      }
      h := stripped.value;
      session := sessionMgr.Get(h.ReceiverIndex);
      if session != null {
        LiveAt(h.ReceiverIndex);
        Note(map[0 := Found(slots[h.ReceiverIndex], h, buf.Bytes(), tr, raddr)]);
      }
    }

    /** The window of session id counts the packet and the cipher opens it. */
    method Unseal(session: Session, buf: PacketBuffer, h: Header, ghost id: nat) returns (ok: bool)
      requires Valid() && buf.Valid()
      requires id < |made| && made[id] == session && session.Live()
      modifies session.replay, buf, buf.Data
      ensures Valid() && buf.Valid()
      ensures Snaps(made) == old(Snaps(made))[id := Counted(old(Snaps(made))[id], h.Counter)]
      ensures ok <==> Opens(old(Snap(session)), h, old(buf.Bytes()))
      ensures ok ==> Some(buf.Bytes()) == Unwire(session.RecvCipher.value, h, old(buf.Bytes()))
    {
      hide SessionManager.Valid, PeerTable.Valid, Numbered, Noted, Tasked, PacketBuffer.Bytes, Counted, Opens, Unwire, Snap, Snaps, Session.Live;
      Apart(id);
      Members();
      ghost var before := Snaps(made);
      ok := UnsealOne(session, buf, h);
      CountedAlone(before, Snaps(made), id, h.Counter);
    }

    method UnsealOne(session: Session, buf: PacketBuffer, h: Header) returns (ok: bool)
      requires sessionMgr.Valid() && buf.Valid() && session in sessionMgr.members && session.Live()
      modifies session.replay, buf, buf.Data
      ensures sessionMgr.Valid() && buf.Valid()
      ensures Snap(session) == Counted(old(Snap(session)), h.Counter)
      ensures ok <==> Opens(old(Snap(session)), h, old(buf.Bytes()))
      ensures ok ==> Some(buf.Bytes()) == Unwire(session.RecvCipher.value, h, old(buf.Bytes()))
    {
      hide SessionManager.Valid, PacketBuffer.Bytes, ReplayWindow.Valid, Passes;
      var r := sessionMgr.Decrypt(session, buf, h);
      ok := r.Done?;
    }

    lemma Members()
      requires Valid()
      ensures sessionMgr.Valid()
      ensures slots.Keys == sessionMgr.sessions.Keys
      ensures forall i <- slots :: slots[i] < |made| && made[slots[i]] == sessionMgr.sessions[i]
      ensures forall k | 0 <= k < |made| :: made[k] in sessionMgr.members
    {
    }

    lemma Apart(id: nat)
      requires Valid() && id < |made|
      ensures forall k | 0 <= k < |made| && k != id :: made[k] != made[id] && made[k].replay != made[id].replay
    {
    }

    method Decrypt(session: Session, buf: PacketBuffer, h: Header, tr: nat, raddr: Addr, ghost id: nat) returns (ok: bool)
      requires Valid() && buf.Valid() && !crashed
      requires id < |made| && made[id] == session && session.Live()
      requires tasks == map[0 := Found(id, h, buf.Bytes(), tr, raddr)]
      modifies `tasks, session.replay, buf, buf.Data
      ensures Valid() && buf.Valid()
      ensures View() == Step(cfg, Step(cfg, old(View()), Count(0)), Open(0))
      ensures tasks == if ok then map[0 := Opened(id, h, buf.Bytes(), tr, raddr)] else map[]
    {
      hide SessionManager.Valid, PeerTable.Valid, PacketBuffer.Bytes, Unwire, ByNumber, Counted, Opens, Noted, Numbered, Step, Snaps;
      CountOpen(cfg, View(), id, h, buf.Bytes(), tr, raddr);
      ok := Unseal(session, buf, h, id);
      tasks := if ok then map[0 := Opened(id, h, buf.Bytes(), tr, raddr)] else map[];
    }

    method WriteTun(packet: seq<byte>, ghost w: Delivery)
      requires Valid() && packet == w.payload
      modifies `tun, `written
      ensures Valid()
      ensures View() == old(View()).(written := old(View()).written + [w])
    {
      hide SessionManager.Valid, PeerTable.Valid, Numbered, Tasked, Snaps, ByNumber, Replied;
      tun := tun + [packet];
      written := written + [w];
    }

    /** SessionManager.Remove, which wipes the session. */
    method End(index: uint32, s: Session, ghost id: nat)
      requires Valid() && index in sessionMgr.sessions && sessionMgr.sessions[index] == s && s.LocalIndex == index
      requires index in slots && slots[index] == id && id < |made|
      modifies `slots, sessionMgr`sessions, s, s.replay
      ensures Valid() && View() == Removed(old(View()), index)
    {
      hide SessionManager.Valid, PeerTable.Valid, Noted, Tasked, ByNumber, Names, Numbers, Snap, Snaps;
      SlotAt(index);
      NumbersRemove(made, sessionMgr.members, slots, sessionMgr.sessions, index);
      WipeNumbered(s, id);
      slots := slots - {index};
    }

    method WipeNumbered(s: Session, ghost id: nat)
      requires Valid() && s.LocalIndex in sessionMgr.sessions && sessionMgr.sessions[s.LocalIndex] == s
      requires id < |made| && made[id] == s
      modifies sessionMgr`sessions, s, s.replay
      ensures sessionMgr.Valid() && sessionMgr.sessions == old(sessionMgr.sessions) - {s.LocalIndex}
      ensures Snaps(made) == old(Snaps(made))[id := Wiped(old(Snaps(made))[id])]
    {
      hide Valid, SessionManager.Valid, ReplayWindow.Valid, Snap, Snaps;
      Apart(id);
      Members();
      ghost var before := Snaps(made);
      RemoveOne(s);
      WipedAlone(before, Snaps(made), id);
    }

    method RemoveOne(s: Session)
      requires sessionMgr.Valid() && s.LocalIndex in sessionMgr.sessions && sessionMgr.sessions[s.LocalIndex] == s
      modifies sessionMgr`sessions, s, s.replay
      ensures sessionMgr.Valid() && sessionMgr.sessions == old(sessionMgr.sessions) - {s.LocalIndex}
      ensures Snap(s) == Wiped(old(Snap(s)))
    {
      hide SessionManager.Valid;
      sessionMgr.RemoveSession(s);
    }

    /** What an opened packet does. */
    method ActOn(session: Session, plain: seq<byte>, h: Header, tr: nat, raddr: Addr, ghost id: nat)
      requires Valid() && !crashed && id < |made| && made[id] == session && session.LocalIndex == h.ReceiverIndex
      requires h.ReceiverIndex in slots && slots[h.ReceiverIndex] == id
      requires tasks == map[0 := Opened(id, h, plain, tr, raddr)]
      modifies `tasks, `tun, `written, `who, `slots, sessionMgr`sessions, peerTable, peerTable.entries
      modifies session, session.replay
      ensures Valid() && tasks == map[] && fresh(peerTable.entries - old(peerTable.entries))
      ensures View() == Step(cfg, old(View()), Act(0))
    {
      hide Valid, View, Step, Removed, SourceOf;
      Shape();
      SlotAt(h.ReceiverIndex);
      ActAlone(cfg, View(), id, h, plain, tr, raddr);
      Note(map[]);
      if h.Type == TYPE_DATA {
        Learn(SourceOf(plain, cfg.defaultPeerIP), session, tr, raddr, id);
        if cfg.hasTun {
          WriteTun(plain, Delivery(id, h, plain));
        }
      } else if h.Type == TYPE_KEEPALIVE {
        Learn(cfg.defaultPeerIP, session, tr, raddr, id);
      } else if h.Type == TYPE_DISCONNECT {
        End(h.ReceiverIndex, session, id);
      }
    }

    /** What follows once the session is found. */
    method HandleSessionPacket(session: Session, tr: nat, raddr: Addr, buf: PacketBuffer, h: Header, ghost id: nat)
      requires Valid() && buf.Valid() && !crashed
      requires id < |made| && made[id] == session && session.Live() && session.LocalIndex == h.ReceiverIndex
      requires h.ReceiverIndex in slots && slots[h.ReceiverIndex] == id
      requires tasks == map[0 := Found(id, h, buf.Bytes(), tr, raddr)]
      modifies `tasks, `tun, `written, `who, `slots, sessionMgr`sessions, session, session.replay
      modifies peerTable, peerTable.entries, buf, buf.Data
      ensures Valid() && tasks == map[] && fresh(peerTable.entries - old(peerTable.entries))
      ensures View() == Step(cfg, Step(cfg, Step(cfg, old(View()), Count(0)), Open(0)), Act(0))
    {
      hide Valid, View, Step, Session.Live, PacketBuffer.Bytes;
      var ok := Decrypt(session, buf, h, tr, raddr, id);
      if !ok {
        Shape();
        Idle(cfg, View());
      } else {
        ActOn(session, buf.Bytes(), h, tr, raddr, id);
      }
    }

    /** Everything but a handshake. */
    method HandleTunnelPacket(tr: nat, raddr: Addr, buf: PacketBuffer)
      requires Valid() && buf.Valid() && buf.Length != Noise.HANDSHAKE_INIT_SIZE && tasks == map[] && !crashed
      modifies `tasks, `tun, `written, `who, `slots, sessionMgr`sessions, sessionMgr.members, sessionMgr.windows
      modifies peerTable, peerTable.entries, buf, buf.Data
      ensures Valid() && GrowsFresh() && tasks == map[] && !crashed
      ensures View() == Handled(cfg, old(View()), tr, raddr, old(buf.Bytes()), 0, None)
    {
      hide Valid, View, Step, Session.Live, PacketBuffer.Bytes;
      var session, h := Find(tr, raddr, buf);
      if session == null {
        Shape();
        Idle(cfg, View());
      } else {
        HandleSessionPacket(session, tr, raddr, buf, h, slots[h.ReceiverIndex]);
      }
    }

    lemma SlotAt(i: uint32)
      requires Valid() && i in slots
      ensures i in sessionMgr.sessions && slots[i] < |made| && made[slots[i]] == sessionMgr.sessions[i]
    {
    }

    lemma LiveAt(i: uint32)
      requires Valid() && i in sessionMgr.sessions
      ensures var s := sessionMgr.sessions[i];
        s.Live() && s.LocalIndex == i && s in sessionMgr.members && s.replay in sessionMgr.windows
    {
      sessionMgr.Members();
    }

    /** The dispatch step on one packet: what an ingress thread does with it, alone. */
    method HandleIncomingPacket(tr: nat, raddr: Addr, buf: PacketBuffer, index: uint32, ephemeral: Option<nat>)
      requires Valid() && buf.Valid() && tasks == map[] && !crashed
      modifies this, sessionMgr, sessionMgr.members, sessionMgr.windows, peerTable, peerTable.entries, buf, buf.Data
      ensures Valid() && GrowsFresh() && tasks == map[] && !crashed
      ensures View() == Handled(cfg, old(View()), tr, raddr, old(buf.Bytes()), index, ephemeral)
    {
      hide Valid, View, Step;
      Shape();
      if buf.Length == Noise.HANDSHAKE_INIT_SIZE {
        HandleHandshake(tr, raddr, buf.Bytes(), index, ephemeral);
        Shape();
        Idle(cfg, View());
      } else {
        SameArrival(cfg, View(), tr, raddr, buf.Bytes(), index, ephemeral);
        HandleTunnelPacket(tr, raddr, buf);
      }
    }

    /** EncryptPacket for session id. */
    method Seal(session: Session, buf: PacketBuffer, ghost id: nat) returns (e: Outcome<SealError>)
      requires Valid() && buf.Valid() && id < |made| && made[id] == session
      modifies session`sendCounter, buf, buf.Data
      ensures Valid() && buf.Valid()
      ensures View() == var s := old(View());
        s.(tunnels := s.tunnels[id := s.tunnels[id].(calls := (s.tunnels[id].calls + 1) % TWO_TO_64)])
      ensures e == SealOutcome(old(View()).tunnels[id].send.Some?, old(buf.Offset), old(buf.Length), buf.Data.Length)
      ensures e.Done? ==> var u := old(View()).tunnels[id];
        buf.Bytes() == Wire(u.send.value, Header(TYPE_DATA, 0, u.remote, u.calls), old(buf.Bytes()))
    {
      hide Wire, PeerTable.Valid, SessionManager.Valid, PacketBuffer.Bytes, Noted, Tasked, ByNumber, Names, Numbers, ReplayWindow.Valid, OutsideUnchanged, Snaps, SealOutcome;
      Members();
      Apart(id);
      ghost var before := Snaps(made);
      e := session.EncryptPacket(buf, TYPE_DATA, 0);
      SealedAlone(before, Snaps(made), id);
    }

    /** One packet from the TUN device to a client. */
    method RouteEgress(buf: PacketBuffer) returns (r: Routed)
      requires Valid() && buf.Valid() && buf.Data.Length == DEFAULT_BUFFER_SIZE && !crashed
      modifies `crashed, sessionMgr.members`sendCounter, buf, buf.Data
      ensures Valid() && r == Route(old(View()), old(buf.Offset), old(buf.Bytes()))
      ensures View() == Step(cfg, old(View()), Egress(old(buf.Offset), old(buf.Bytes())))
    {
      hide Valid, View, Wire, Resolve, DestinationOf, PacketBuffer.Bytes, Step, Route, SealOutcome;
      ghost var s, at, p := View(), buf.Offset, buf.Bytes();
      Shape();
      EgressAlone(cfg, s, at, p);
      var peer := LookUp(DestinationOf(buf.Bytes()));
      if peer == null {
        return NoPeer;
      }
      ghost var id := Resolve<nat>(s.log, DestinationOf(p)).value.session;
      var e := Seal(peer.session, buf, id);
      match e {
        case Failed(_) => r := Dropped;
        case Crashed => r := PeerCrash; Crash();
        case Done => r := Forwarded(buf.Bytes(), peer.transport, peer.remoteAddr);
      }
    }

    /** PeerTable.Lookup, by number. */
    method LookUp(ip: string) returns (peer: ClientPeer?<Session>)
      requires Valid()
      ensures var to := Resolve<nat>(View().log, ip);
        if peer == null then to.None?
        else to.Some? && to.value.session < |made| && peer.session == made[to.value.session]
             && peer.transport == to.value.transport && peer.remoteAddr == to.value.addr
             && peer in peerTable.entries && peer.session in sessionMgr.members
    {
      hide SessionManager.Valid, PeerTable.Valid, Resolve, Noted, Tasked, Snaps, ByNumber;
      peer := peerTable.Lookup(ip);
      SameResolution(peerTable.log, who, ip);
      if peer != null {
        ghost var k :| 0 <= k < |who| && Resolve(peerTable.log, ip) == Some(peerTable.log[k]) &&
                       Resolve(ByNumber(peerTable.log, who), ip) == Some(ByNumber(peerTable.log, who)[k]);
      }
    }

    ghost method Crash()
      requires Valid()
      modifies `crashed
      ensures Valid() && View() == old(View()).(crashed := true)
    {
      hide SessionManager.Valid, PeerTable.Valid, Noted, Numbered, Tasked, Snaps, ByNumber;
      crashed := true;
    }

    /** One turn of an ingress loop or of the egress loop, with a buffer from the pool. */
    method ServeOne(w: Work) returns (alive: bool)
      requires Valid() && tasks == map[] && !crashed && Fits(w)
      modifies this, sessionMgr, sessionMgr.members, sessionMgr.windows, peerTable, peerTable.entries
      ensures Valid() && GrowsFresh() && tasks == map[] && (alive <==> !crashed)
      ensures View() == Worked(cfg, old(View()), w)
    {
      hide Valid, View, Step, Route, Handled, DEFAULT_BUFFER_SIZE;
      alive := true;
      var buf := new PacketBuffer(DEFAULT_BUFFER_SIZE);
      match w {
        case FromClient(tr, addr, packet, index, ephemeral) =>
          buf.Fill(packet);
          HandleIncomingPacket(tr, addr, buf, index, ephemeral);
        case FromTun(offset, packet) =>
          FillAt(buf, offset, packet);
          Shape();
          EgressShape(cfg, View(), offset, packet);
          var r := RouteEgress(buf);
          Shape();
          alive := !r.PeerCrash?;
      }
    }

    /** The loops on any work, one packet after another, until the process dies. */
    method ServeAll(ws: seq<Work>) returns (alive: bool)
      requires Valid() && tasks == map[] && !crashed && forall w <- ws :: Fits(w)
      modifies this, sessionMgr, sessionMgr.members, sessionMgr.windows, peerTable, peerTable.entries
      ensures Valid() && GrowsFresh() && tasks == map[] && (alive <==> !crashed)
      ensures View() == RunFrom(cfg, old(View()), EventsOf(ws))
    {
      hide Valid, View, RunFrom, EventsOf, Worked, Fits;
      ghost var s0 := View();
      var k := 0;
      alive := true;
      NothingDone(cfg, s0);
      assert ws[..0] == [];
      while k < |ws| && alive
        invariant k <= |ws| && Valid() && GrowsFresh() && tasks == map[] && (alive <==> !crashed)
        invariant View() == RunFrom(cfg, s0, EventsOf(ws[..k]))
      {
        WorkStep(cfg, s0, ws, k);
        alive := ServeOne(ws[k]);
        k := k + 1;
      }
      Shape();
      if alive {
        assert ws[..k] == ws;
      } else {
        NothingAfterCrash(cfg, s0, ws, k);
      }
    }
  }

  /** A packet from a client, with what the random source gives should it be an
    * initiation; or one from the TUN device. */
  datatype Work =
    | FromClient(tr: nat, addr: Addr, packet: seq<byte>, index: uint32, ephemeral: Option<nat>)
    | FromTun(offset: nat, packet: seq<byte>)

  predicate Fits(w: Work) {
    (if w.FromTun? then w.offset else 0) + |w.packet| <= DEFAULT_BUFFER_SIZE
  }

  ghost function Worked(cfg: Config, s: State, w: Work): State {
    match w
    case FromClient(tr, addr, packet, index, ephemeral) => Handled(cfg, s, tr, addr, packet, index, ephemeral)
    case FromTun(offset, packet) => Step(cfg, s, Egress(offset, packet))
  }

  /** The steps that a list of work takes. */
  function EventsOf(ws: seq<Work>): seq<Event> {
    if ws == [] then [] else
    EventsOf(ws[..|ws| - 1]) +
    match ws[|ws| - 1]
      case FromClient(tr, addr, packet, index, ephemeral) =>
        [Arrive(0, tr, addr, packet, index, ephemeral), Count(0), Open(0), Act(0)]
      case FromTun(offset, packet) => [Egress(offset, packet)]
  }

  lemma NothingDone(cfg: Config, s: State)
    ensures RunFrom(cfg, s, EventsOf([])) == s
  {
  }

  lemma RunFromMore(cfg: Config, s: State, es: seq<Event>, e: Event)
    ensures RunFrom(cfg, s, es + [e]) == Step(cfg, RunFrom(cfg, s, es), e)
  {
    assert (es + [e])[..|es|] == es;
  }

  lemma WorkStep(cfg: Config, s: State, ws: seq<Work>, k: nat)
    requires k < |ws|
    ensures RunFrom(cfg, s, EventsOf(ws[..k + 1])) == Worked(cfg, RunFrom(cfg, s, EventsOf(ws[..k])), ws[k])
  {
    hide Step, RunFrom;
    assert ws[..k + 1][..k] == ws[..k];
    var es := EventsOf(ws[..k]);
    match ws[k] {
      case FromClient(tr, addr, packet, index, ephemeral) =>
        var a := Arrive(0, tr, addr, packet, index, ephemeral);
        RunFromMore(cfg, s, es, a);
        RunFromMore(cfg, s, es + [a], Count(0));
        RunFromMore(cfg, s, es + [a] + [Count(0)], Open(0));
        RunFromMore(cfg, s, es + [a] + [Count(0)] + [Open(0)], Act(0));
        assert EventsOf(ws[..k + 1]) == es + [a] + [Count(0)] + [Open(0)] + [Act(0)];
      case FromTun(offset, packet) =>
        RunFromMore(cfg, s, es, Egress(offset, packet));
    }
  }

  lemma {:induction false} NothingAfterCrash(cfg: Config, s: State, ws: seq<Work>, k: nat)
    requires k <= |ws| && RunFrom(cfg, s, EventsOf(ws[..k])).crashed
    ensures RunFrom(cfg, s, EventsOf(ws)) == RunFrom(cfg, s, EventsOf(ws[..k]))
    decreases |ws| - k
  {
    if k == |ws| {
      assert ws[..k] == ws;
    } else {
      WorkStep(cfg, s, ws, k);
      hide RunFrom, EventsOf;
      NothingAfterCrash(cfg, s, ws, k + 1);
    }
  }

  lemma EgressShape(cfg: Config, s: State, offset: nat, packet: seq<byte>)
    requires !s.crashed
    ensures Step(cfg, s, Egress(offset, packet)).tasks == s.tasks
    ensures Step(cfg, s, Egress(offset, packet)).crashed <==> Route(s, offset, packet).PeerCrash?
  {
    hide Resolve, DestinationOf, Wire, SealOutcome;
  }

  /** A server from start to finish: it dies exactly when it uses a session that a genuine
    * disconnect ended, and what it writes to the TUN device is what the runs of the
    * state machine write. */
  method RunServer(cfg: Config, ws: seq<Work>) returns (alive: bool, tun: seq<seq<byte>>)
    requires forall w <- ws :: Fits(w)
    ensures alive <==> forall k | 0 <= k < |EventsOf(ws)| :: !CrashAt(cfg, EventsOf(ws), k)
    ensures var written := Run(cfg, EventsOf(ws)).written;
            |tun| == |written| && forall k | 0 <= k < |tun| :: tun[k] == written[k].payload
  {
    hide RunFrom, CrashAt, EventsOf, Server.View, Fits, SessionManager.Valid, PeerTable.Valid;
    var server := new Server(cfg);
    StartsIdle(server);
    alive := server.ServeAll(ws);
    WhatWentOut(server);
    CrashesExactlyWhen(cfg, EventsOf(ws));
    tun := server.tun;
  }

  lemma StartsIdle(server: Server)
    requires server.View() == Init()
    ensures server.tasks == map[] && !server.crashed
  {
  }

  lemma WhatWentOut(server: Server)
    requires server.Valid()
    ensures server.View().written == server.written && server.View().crashed == server.crashed
    ensures |server.tun| == |server.written| && forall k | 0 <= k < |server.tun| :: server.tun[k] == server.written[k].payload
  {
  }

  // Helpers on values.

  lemma SealedAlone(us: seq<Tunnel>, vs: seq<Tunnel>, id: nat)
    requires |us| == |vs| && id < |us| && vs[id] == us[id].(calls := (us[id].calls + 1) % TWO_TO_64)
    requires forall k | 0 <= k < |us| && k != id :: vs[k] == us[k]
    ensures vs == us[id := us[id].(calls := (us[id].calls + 1) % TWO_TO_64)]
  {
  }

  lemma CountedAlone(us: seq<Tunnel>, vs: seq<Tunnel>, id: nat, c: uint64)
    requires |us| == |vs| && id < |us| && vs[id] == Counted(us[id], c)
    requires forall k | 0 <= k < |us| && k != id :: vs[k] == us[k]
    ensures vs == us[id := Counted(us[id], c)]
  {
  }

  lemma WipedAlone(us: seq<Tunnel>, vs: seq<Tunnel>, id: nat)
    requires |us| == |vs| && id < |us| && vs[id] == Wiped(us[id])
    requires forall k | 0 <= k < |us| && k != id :: vs[k] == us[k]
    ensures vs == us[id := Wiped(us[id])]
  {
  }

  lemma NumbersRemove(made: seq<Session>, members: set<Session>, slots: map<uint32, nat>, table: map<uint32, Session>, i: uint32)
    requires Numbers(made, members, slots, table)
    ensures Numbers(made, members, slots - {i}, table - {i})
  {
  }

  lemma NoEphemeral(own: nat, index: uint32, msg: Noise.Initiation, n0: Noise.Symmetric)
    ensures Noise.Respond(own, None, index, msg, n0).0 == None
  {
  }
}
