/** The client's packet loops, and the daemon's, which are the same. Every turn of a loop
  * moves the two directions of the tunnel by steps of the state machine in Channel, so
  * what is proved there of every run holds of these objects. */
module Client {
  import opened Words
  import opened Buffer
  import opened Packet
  import opened Cipher
  import opened Replay
  import opened Session
  import opened Channel

  /** The packets that carry some records. */
  function Packets(link: Link, rs: seq<Record>): seq<seq<byte>> {
    if rs == [] then [] else Packets(link, rs[..|rs| - 1]) + [PacketFor(link, rs[|rs| - 1])]
  }

  /** The payloads of data packets, type 3, in order. */
  function DataOf(rs: seq<Record>): seq<seq<byte>> {
    if rs == [] then []
    else DataOf(rs[..|rs| - 1]) + if rs[|rs| - 1].h.Type == 3 then [rs[|rs| - 1].payload] else []
  }

  class TunnelClient {
    const session: Session
    const hasTun: bool
    var sent: seq<seq<byte>>      // packets handed to the transport
    var tun: seq<seq<byte>>       // packets written to the TUN device
    ghost const upLink: Link
    ghost const downLink: Link
    ghost var up: State
    ghost var down: State

    constructor (session: Session, hasTun: bool)
      requires session.Live() && session.replay.accepted == {} && session.sendCounter == 0
      ensures Valid() && this.session == session && this.hasTun == hasTun && up == down == Init()
      ensures upLink == Link(session.SendCipher.value, session.RemoteIndex, session.RemoteIndex, true)
      ensures downLink == Link(session.RecvCipher.value, session.LocalIndex, session.LocalIndex, false)
    {
      this.session, this.hasTun := session, hasTun;
      sent, tun := [], [];
      upLink := Link(session.SendCipher.value, session.RemoteIndex, session.RemoteIndex, true);
      downLink := Link(session.RecvCipher.value, session.LocalIndex, session.LocalIndex, false);
      up, down := Init(), Init();
    }

    /** The session is where the two runs took it, and what went out is what they say. */
    ghost predicate Valid()
      reads this, session, session.replay
    {
      && session.Live()
      && Sends() && Receives()
    }

    ghost predicate Sends()
      reads `sent, `up, session
    {
      && session.SendCipher == Some(upLink.cipher) && session.RemoteIndex == upLink.remoteIndex
      && up.held == map[] && session.sendCounter == up.calls % TWO_TO_64
      && sent == Packets(upLink, up.sent)
    }

    ghost predicate Receives()
      reads `tun, `down, session, session.replay
    {
      && session.RecvCipher == Some(downLink.cipher) && session.LocalIndex == downLink.localIndex && !downLink.toServer
      && down.opening == map[] && session.replay.accepted == down.accepted
      && tun == if hasTun then DataOf(down.delivered) else []
    }

    /** TUN to network: whatever fits is sealed as data under the next counter and sent. */
    method EgressTurn(offset: nat, packet: seq<byte>)
      requires Valid() && offset + |packet| <= DEFAULT_BUFFER_SIZE
      modifies `sent, `up, session`sendCounter
      ensures Valid() && tun == old(tun)
      ensures up == AfterSeal(upLink, old(up), 3, offset, packet)
    {
      hide Valid, AfterSeal;
      var _ := SealTurn(TYPE_DATA, offset, packet);
    }

    /** The heartbeat: an empty packet of type 4, which always fits. */
    method KeepaliveTurn()
      requires Valid()
      modifies `sent, `up, session`sendCounter
      ensures Valid() && tun == old(tun)
      ensures up == AfterSeal(upLink, old(up), 4, 0, []) && |sent| == |old(sent)| + 1
    {
      hide Valid, AfterSeal;
      var _ := SealTurn(TYPE_KEEPALIVE, 0, []);
    }

    /** Fills a buffer from the pool, seals it and sends it. */
    method SealTurn(ty: byte, offset: nat, packet: seq<byte>) returns (ok: bool)
      requires Valid() && offset + |packet| <= DEFAULT_BUFFER_SIZE
      modifies `sent, `up, session`sendCounter
      ensures Valid() && tun == old(tun)
      ensures up == AfterSeal(upLink, old(up), ty, offset, packet)
      ensures ok <==> (if offset >= 14 then offset else 14) + |packet| + 16 <= 2048
      ensures |sent| == |old(sent)| + if ok then 1 else 0
    {
      hide Wire, SealOutcome, PacketBuffer.Bytes, Packets, Session.Live, AfterSeal, OutsideUnchanged;
      Alive();
      var buf := new PacketBuffer(DEFAULT_BUFFER_SIZE);
      FillAt(buf, offset, packet);
      SealSteps(upLink, up, ty, offset, packet);
      assert up.sent + [] == up.sent;
      var r := session.EncryptPacket(buf, ty, 0);
      up := AfterSeal(upLink, up, ty, offset, packet);
      ok := r.Done?;
      if ok {
        PacketsMore(upLink, old(up).sent, Record(Header(ty, 0, session.RemoteIndex, old(session.sendCounter)), packet));
        sent := sent + [buf.Bytes()];
      }
    }

    lemma WhatItDid()
      requires Valid()
      ensures sent == Packets(upLink, up.sent)
      ensures tun == if hasTun then DataOf(down.delivered) else []
    {
    }

    lemma Alive()
      requires Valid()
      ensures session.SendCipher.Some? && session.RecvCipher.Some? && session.replay.Whole()
    {
    }

    /** Network to TUN: a packet that names this session goes to its window and cipher,
      * and its payload to the TUN device when it is data. */
    method IngressTurn(packet: seq<byte>)
      requires Valid() && |packet| <= DEFAULT_BUFFER_SIZE
      modifies `tun, `down, session.replay
      ensures Valid() && sent == old(sent)
      ensures down == Step(downLink, Step(downLink, old(down), Arrive(0, packet)), OpenPacket(0))
    {
      hide Decode, Encode, PacketBuffer.Bytes, DataOf, Passes, Represents, Step;
      ReceiveSteps(downLink, down, packet);
      assert down.delivered + [] == down.delivered;
      var buf := new PacketBuffer(DEFAULT_BUFFER_SIZE);
      buf.Fill(packet);
      down := Step(downLink, Step(downLink, down, Arrive(0, packet)), OpenPacket(0));
      var stripped := Strip(buf);
      if stripped.None? {
        return;
      }
      var h := stripped.value;
      if h.ReceiverIndex != session.LocalIndex {
        return;
      }
      var r := session.DecryptPacket(buf, h);
      if !r.Done? {
        return;
      }
      DataMore(old(down).delivered, Record(h, buf.Bytes()));
      if h.Type == TYPE_DATA && hasTun {
        tun := tun + [buf.Bytes()];
      }
    }
  }

  /** A client from its handshake on, whatever its loops do: what it sends and what it writes
    * to its TUN device are what two runs of the state machine send and deliver. */
  method RunClient(session: Session, hasTun: bool, ws: seq<Turn>) returns (sent: seq<seq<byte>>, tun: seq<seq<byte>>)
    requires session.Live() && session.replay.accepted == {} && session.sendCounter == 0
    requires forall w <- ws :: Fits(w)
    modifies session`sendCounter, session.replay
    ensures var up := Link(old(session.SendCipher).value, session.RemoteIndex, session.RemoteIndex, true);
            sent == Packets(up, Run(up, UpEvents(ws)).sent)
    ensures var down := Link(old(session.RecvCipher).value, session.LocalIndex, session.LocalIndex, false);
            tun == if hasTun then DataOf(Run(down, DownEvents(ws)).delivered) else []
  {
    hide Run, Step, UpEvents, DownEvents, AfterSeal, TunnelClient.Valid;
    assert session.SendCipher.Some? && session.RecvCipher.Some?;
    hide Session.Live;
    var client := new TunnelClient(session, hasTun);
    NoTurns(client.upLink);
    NoTurns(client.downLink);
    assert ws[..0] == [];
    for k := 0 to |ws|
      invariant client.Valid()
      invariant client.up == Run(client.upLink, UpEvents(ws[..k]))
      invariant client.down == Run(client.downLink, DownEvents(ws[..k]))
    {
      OneTurn(client.upLink, client.downLink, ws, k);
      assert ws[k] in ws && Fits(ws[k]);
      match ws[k] {
        case Outward(offset, packet) => client.EgressTurn(offset, packet);
        case Heartbeat => client.KeepaliveTurn();
        case Inward(packet) => client.IngressTurn(packet);
      }
    }
    assert ws[..|ws|] == ws;
    client.WhatItDid();
    return client.sent, client.tun;
  }

  /** What a call of EncryptPacket comes to in a buffer of 2048 bytes. */
  function SealEvent(ty: byte, offset: nat, payload: seq<byte>): Event {
    if offset + |payload| + 16 > 2048 then NoRoomForTag(0)
    else if (if offset >= 14 then offset else 14) + |payload| + 16 > 2048 then NoRoomForHeader(0)
    else SealAndSend(0, ty, 0, payload)
  }

  /** The sender after one call and, if that made a packet, its sending. */
  ghost function AfterSeal(link: Link, s: State, ty: byte, offset: nat, payload: seq<byte>): State {
    Step(link, Step(link, s, Take(0)), SealEvent(ty, offset, payload))
  }

  /** The turns of the three loops. */
  datatype Turn = Outward(offset: nat, packet: seq<byte>) | Heartbeat | Inward(packet: seq<byte>)

  predicate Fits(w: Turn) {
    match w
    case Outward(offset, packet) => offset + |packet| <= 2048
    case Heartbeat => true
    case Inward(packet) => |packet| <= 2048
  }

  function UpEvents(ws: seq<Turn>): seq<Event> {
    if ws == [] then [] else
    UpEvents(ws[..|ws| - 1]) +
    match ws[|ws| - 1]
      case Outward(offset, packet) => [Take(0), SealEvent(3, offset, packet)]
      case Heartbeat => [Take(0), SealEvent(4, 0, [])]
      case Inward(_) => []
  }

  function DownEvents(ws: seq<Turn>): seq<Event> {
    if ws == [] then [] else
    DownEvents(ws[..|ws| - 1]) + if ws[|ws| - 1].Inward? then [Arrive(0, ws[|ws| - 1].packet), OpenPacket(0)] else []
  }

  lemma RunTwice(link: Link, es: seq<Event>, a: Event, b: Event)
    ensures Run(link, es + [a, b]) == Step(link, Step(link, Run(link, es), a), b)
  {
    hide Run, Step;
    RunAppend(link, es, a);
    RunAppend(link, es + [a], b);
    assert es + [a, b] == es + [a] + [b];
  }

  lemma OneTurn(up: Link, down: Link, ws: seq<Turn>, k: nat)
    requires k < |ws|
    ensures Run(up, UpEvents(ws[..k + 1])) ==
      match ws[k]
        case Outward(offset, packet) => AfterSeal(up, Run(up, UpEvents(ws[..k])), 3, offset, packet)
        case Heartbeat => AfterSeal(up, Run(up, UpEvents(ws[..k])), 4, 0, [])
        case Inward(_) => Run(up, UpEvents(ws[..k]))
    ensures Run(down, DownEvents(ws[..k + 1])) ==
      if ws[k].Inward? then Step(down, Step(down, Run(down, DownEvents(ws[..k])), Arrive(0, ws[k].packet)), OpenPacket(0))
      else Run(down, DownEvents(ws[..k]))
  {
    hide Run, Step, SealEvent;
    assert ws[..k + 1][..k] == ws[..k];
    var us, ds := UpEvents(ws[..k]), DownEvents(ws[..k]);
    match ws[k] {
      case Outward(offset, packet) => RunTwice(up, us, Take(0), SealEvent(3, offset, packet));
      case Heartbeat => RunTwice(up, us, Take(0), SealEvent(4, 0, []));
      case Inward(packet) => RunTwice(down, ds, Arrive(0, packet), OpenPacket(0));
    }
    assert us + [] == us && ds + [] == ds;
  }

  lemma NoTurns(link: Link)
    ensures Run(link, UpEvents([])) == Run(link, DownEvents([])) == Init()
  {
  }

  lemma SealSteps(link: Link, s: State, ty: byte, offset: nat, payload: seq<byte>)
    requires s.held == map[]
    ensures var s' := AfterSeal(link, s, ty, offset, payload); var c := s.calls % TWO_TO_64;
            && s'.held == map[] && s'.calls == s.calls + 1
            && s'.sent == s.sent + if SealOutcome(true, offset, |payload|, DEFAULT_BUFFER_SIZE).Done?
                                   then [Record(Header(ty, 0, link.remoteIndex, c), payload)] else []
    ensures (s.calls + 1) % TWO_TO_64 == (s.calls % TWO_TO_64 + 1) % TWO_TO_64
  {
    assert map[0 := s.calls % TWO_TO_64] - {0} == map[];
  }

  lemma ReceiveSteps(link: Link, s: State, packet: seq<byte>)
    requires s.opening == map[] && !link.toServer
    ensures var s' := Step(link, Step(link, s, Arrive(0, packet)), OpenPacket(0));
            && s'.opening == map[]
            && if |packet| < 14 || Decode(packet).ReceiverIndex != link.localIndex then s' == s
               else
                 var h, p := Decode(packet), Unwire(link.cipher, Decode(packet), packet[14..]);
                 && s'.accepted == Admit(s.accepted, h.Counter)
                 && s'.delivered == s.delivered +
                      if Admits(s.accepted, h.Counter) && p.Some? then [Record(h, p.value)] else []
  {
    hide Decode, Unwire, Admits;
    assert map[0 := packet] - {0} == map[];
  }

  lemma PacketsMore(link: Link, rs: seq<Record>, r: Record)
    ensures Packets(link, rs + [r]) == Packets(link, rs) + [PacketFor(link, r)]
  {
  }

  lemma DataMore(rs: seq<Record>, r: Record)
    ensures DataOf(rs + [r]) == DataOf(rs) + if r.h.Type == 3 then [r.payload] else []
  {
    assert (rs + [r])[..|rs|] == rs;
  }
}
