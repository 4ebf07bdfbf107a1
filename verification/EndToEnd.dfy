/** The layers together: a completed handshake gives two sessions, and a tunnel made
  * of them delivers what was sent, in legal frames. */
module EndToEnd {
  import opened Words
  import opened Buffer
  import opened Packet
  import opened Cipher
  import opened Session
  import opened Channel
  import opened Agreement
  import Replay
  import Noise
  import Framing
  import Service

  /** A direction of a tunnel, with the sender's key and the receiver's index. */
  function LinkOf(lib: Library, suite: byte, client: Noise.SessionKeys, server: Noise.SessionKeys, toServer: bool): Link {
    if toServer then Link(lib(suite, client.SendKey), client.PeerID, server.SenderID, true)
    else Link(lib(suite, server.SendKey), server.PeerID, client.SenderID, false)
  }

  /** After a matched handshake each end opens with the cipher that the other seals
    * with, and writes the index that the other expects. */
  lemma MatchedEndsConnect(lib: Library, suite: byte, i: Initiator, keys: Noise.SessionKeys,
                           resp: Noise.Response, r: Responder, msg: Noise.Initiation, toServer: bool)
    requires Matched(i, keys, resp, r, msg)
    ensures var other := Answered(r, msg).value.keys;
            var link := LinkOf(lib, suite, keys, other, toServer);
            && link.cipher == lib(suite, if toServer then other.RecvKey else keys.RecvKey)
            && link.remoteIndex == link.localIndex == if toServer then r.index else i.index
  {
    hide Answered, Initiated;
  }

  // What the senders put on the wire.

  function Packets(link: Link, rs: seq<Record>): seq<seq<byte>> {
    seq(|rs|, i requires 0 <= i < |rs| => PacketFor(link, rs[i]))
  }

  lemma {:induction false} SentRecords(link: Link, es: seq<Event>)
    ensures forall r <- Run(link, es).sent :: r.h.ReceiverIndex == link.remoteIndex
  {
    if es != [] {
      SentRecords(link, es[..|es| - 1]);
    }
  }

  /** Every packet of every run names the receiver and has at least 30 bytes. */
  lemma SentPackets(link: Link, es: seq<Event>)
    ensures forall w <- Packets(link, Run(link, es).sent) ::
      |w| >= 30 && Decode(w).ReceiverIndex == link.remoteIndex
  {
    hide Run, Decode;
    var rs := Run(link, es).sent;
    var ws := Packets(link, rs);
    SentRecords(link, es);
    forall w <- ws ensures |w| >= 30 && Decode(w).ReceiverIndex == link.remoteIndex {
      var k :| 0 <= k < |ws| && ws[k] == w;
      assert rs[k] in rs;
      WireRoundTrip(link.cipher, rs[k].h, rs[k].payload);
    }
  }

  /** A server that reads the packets of a run as they were sent takes the connection for
    * a tunnel and recovers them all, up to the first that does not fit a buffer; there
    * it stops. */
  lemma SentPacketsSurviveFraming(link: Link, es: seq<Event>, n: nat)
    requires 0 < n <= |Packets(link, Run(link, es).sent)|
    requires forall k | 0 <= k < n :: |Packets(link, Run(link, es).sent)[k]| <= DEFAULT_BUFFER_SIZE
    ensures var ws := Packets(link, Run(link, es).sent);
            && Framing.Serve(Framing.Stream(ws)) == Framing.Tunnel(ws[..n] + Framing.Parse(Framing.Stream(ws[n..])))
            && (n == |ws| || DEFAULT_BUFFER_SIZE < |ws[n]| < 0x1_0000 ==>
                  Framing.Serve(Framing.Stream(ws)) == Framing.Tunnel(ws[..n]))
  {
    var ws := Packets(link, Run(link, es).sent);
    SentPackets(link, es);
    hide Run, Packets, Decode;
    assert forall k | 0 <= k < n :: ws[k] in ws;
    Framing.ServePrefix(ws, n);
    if n == |ws| {
      assert ws[n..] == [];
      Framing.ParseNothing();
      assert ws[..n] + [] == ws[..n];
    } else if DEFAULT_BUFFER_SIZE < |ws[n]| < 0x1_0000 {
      Framing.TooLongStops(ws[n], Framing.Stream(ws[n..][1..]));
      assert ws[n..][0] == ws[n];
      assert ws[..n] + [] == ws[..n];
    }
  }

  /** What a direction's runs promise. */
  ghost predicate Faithful(link: Link, es: seq<Event>) {
    var s := Run(link, es);
    && multiset(s.delivered) <= multiset(s.sent)
    && Distinct(Counters(s.delivered))
    && Distinct(Nonces(s.used))
    && (s.opening == map[] ==> forall q <- s.sent :: q in s.delivered <==> Took(s, PacketFor(link, q)))
    && (Genuine(link, es) && s.opening == map[] && BoundedReordering(s.arrived) ==>
          forall q <- s.sent :: q in s.delivered <==> q.h.Counter in s.arrived)
  }

  lemma RunIsFaithful(link: Link, es: seq<Event>)
    requires Unforged(link, es) && Run(link, es).calls <= TWO_TO_64
    ensures Faithful(link, es)
  {
    DeliveryIsFaithful(link, es);
    NoncesNeverRepeat(link, es);
    hide Run, Unforged, Genuine, Distinct, BoundedReordering, Took, PacketFor, Nonces, Counters;
    var s := Run(link, es);
    if s.opening == map[] {
      forall q <- s.sent ensures q in s.delivered <==> Took(s, PacketFor(link, q)) {
        DeliveredExactlyWhenTaken(link, es, q);
      }
      if Genuine(link, es) && BoundedReordering(s.arrived) {
        forall q <- s.sent ensures q in s.delivered <==> q.h.Counter in s.arrived {
          BoundedReorderingLosesNothing(link, es, q);
        }
      }
    }
  }

  /** Both directions of the tunnel that a matched handshake makes: the receiver opens
    * with the sender's key and expects its index, and over every run delivery is
    * faithful. */
  lemma TunnelIsFaithful(lib: Library, suite: byte, i: Initiator, refused: seq<Noise.Response>, resp: Noise.Response,
                         r: Responder, msg: Noise.Initiation, toServer: bool, es: seq<Event>)
    requires Initiated(i).0.Some? && Answered(r, msg).Some? && Finished(i, refused, resp).Some?
    requires SealedBy(Accepting(i, refused, resp), Answering(r, msg))
    requires var link := LinkOf(lib, suite, Finished(i, refused, resp).value, Answered(r, msg).value.keys, toServer);
             Run(link, es).calls <= TWO_TO_64 && Unforged(link, es)
    ensures var keys, other := Finished(i, refused, resp).value, Answered(r, msg).value.keys;
            var link := LinkOf(lib, suite, keys, other, toServer);
            && link.cipher == lib(suite, if toServer then other.RecvKey else keys.RecvKey)
            && (forall q <- Run(link, es).sent :: q.h.ReceiverIndex == if toServer then r.index else i.index)
            && Faithful(link, es)
  {
    AcceptanceImpliesMatch(i, refused, resp, r, msg);
    var keys := Finished(i, refused, resp).value;
    MatchedEndsConnect(lib, suite, i, keys, resp, r, msg, toServer);
    hide Answered, Initiated, Finished, Run, Unforged, Faithful;
    var link := LinkOf(lib, suite, keys, Answered(r, msg).value.keys, toServer);
    SentRecords(link, es);
    RunIsFaithful(link, es);
  }

  // The server with all its sessions, and the clients' senders.

  /** What session id wrote to the TUN device, in order. */
  function WrittenBy(ws: seq<Service.Delivery>, id: nat): seq<Record> {
    if ws == [] then [] else
    var last := ws[|ws| - 1];
    WrittenBy(ws[..|ws| - 1], id) + if last.id == id then [Record(last.h, last.payload)] else []
  }

  lemma {:induction false} WrittenByFrom(ws: seq<Service.Delivery>, id: nat, r: Record)
    requires r in WrittenBy(ws, id)
    ensures exists w <- ws :: w.id == id && w.h == r.h && w.payload == r.payload
  {
    var p, last := ws[..|ws| - 1], ws[|ws| - 1];
    assert last in ws;
    if r in WrittenBy(p, id) {
      WrittenByFrom(p, id, r);
      var w :| w in p && w.id == id && w.h == r.h && w.payload == r.payload;
      assert w in ws;
    }
  }

  lemma {:induction false} WrittenByDistinct(ws: seq<Service.Delivery>, id: nat)
    requires forall a, b | 0 <= a < b < |ws| :: ws[a].id != ws[b].id || ws[a].h.Counter != ws[b].h.Counter
    ensures Distinct(WrittenBy(ws, id))
  {
    if ws != [] {
      var p, last := ws[..|ws| - 1], ws[|ws| - 1];
      WrittenByDistinct(p, id);
      var r := Record(last.h, last.payload);
      if last.id == id {
        if r in WrittenBy(p, id) {
          WrittenByFrom(p, id, r);
          assert false;
        }
        DistinctAppend(WrittenBy(p, id), r);
      }
    }
  }

  /** The one direction from a client to the server's session id. */
  function ClientLink(cfg: Service.Config, keys: Noise.SessionKeys, y: Answering): Link {
    LinkOf(cfg.lib, CIPHER_CHACHA20_POLY1305, keys, Service.KeysOf(y), true)
  }

  /** Every packet that reached the server and opens under the client's key is one that
    * the client's senders sent: the integrity of the AEAD, as a hypothesis on two runs. */
  ghost predicate NoneForged(link: Link, es: seq<Service.Event>, cs: seq<Event>) {
    forall w <- Service.Packets(es) | OpenedTo(link, w).Some? :: IsPacketOf(link, Run(link, cs).sent, w)
  }

  lemma WrittenIsInLog(link: Link, es: seq<Service.Event>, cs: seq<Event>, packet: seq<byte>, r: Record)
    requires NoneForged(link, es, cs) && packet in Service.Packets(es) && OpenedTo(link, packet) == Some(r)
    ensures r in Run(link, cs).sent
  {
    hide Run, Unwire, Decode, PacketFor;
    var q :| q in Run(link, cs).sent && packet == PacketFor(link, q);
    OpenGenuine(link, q);
  }

  /** What reaches the TUN device was sent, at most once. For every interleaving of the
    * server's threads over all its sessions, and every run of one client's senders: what
    * the client's session writes maps one to one into what the client sent, header and
    * payload. */
  lemma WrittenWasSent(cfg: Service.Config, es: seq<Service.Event>, id: nat,
                       i: Initiator, refused: seq<Noise.Response>, resp: Noise.Response, cs: seq<Event>)
    requires Initiated(i).0.Some? && Finished(i, refused, resp).Some?
    requires id < |Service.Run(cfg, es).made| && SealedBy(Accepting(i, refused, resp), Service.Run(cfg, es).made[id])
    requires NoneForged(ClientLink(cfg, Finished(i, refused, resp).value, Service.Run(cfg, es).made[id]), es, cs)
    ensures var link := ClientLink(cfg, Finished(i, refused, resp).value, Service.Run(cfg, es).made[id]);
            multiset(WrittenBy(Service.Run(cfg, es).written, id)) <= multiset(Run(link, cs).sent)
  {
    hide Run, Service.Run, Finished, Initiated, Answered, NoneForged, Unwire, Decode;
    var ws, keys := Service.Run(cfg, es).written, Finished(i, refused, resp).value;
    var link := ClientLink(cfg, keys, Service.Run(cfg, es).made[id]);
    forall a, b | 0 <= a < b < |ws| ensures ws[a].id != ws[b].id || ws[a].h.Counter != ws[b].h.Counter {
      Service.WrittenAtMostOnce(cfg, es, a, b);
    }
    WrittenByDistinct(ws, id);
    forall r <- WrittenBy(ws, id) ensures r in Run(link, cs).sent {
      WrittenByFrom(ws, id, r);
      var w :| w in ws && w.id == id && w.h == r.h && w.payload == r.payload;
      Service.WrittenIsTheClients(cfg, es, w, i, refused, resp);
      var e :| e in es && e.Arrive? && |e.packet| >= HEADER_SIZE && Decode(e.packet) == w.h &&
        Unwire(cfg.lib(CIPHER_CHACHA20_POLY1305, keys.SendKey), w.h, e.packet[HEADER_SIZE..]) == Some(w.payload);
      WrittenIsInLog(link, es, cs, e.packet, r);
    }
    DistinctWithin(WrittenBy(ws, id), Run(link, cs).sent);
  }

  /** Running the code's objects: an honest exchange leaves two live sessions, each of
    * which opens what the other seals. */
  method Establish(lib: Library, suite: byte, i: Initiator, r: Responder)
    returns (client: Session, server: Session)
    requires suite == CIPHER_CHACHA20_POLY1305 || suite == CIPHER_AES_GCM
    requires i.point == Noise.Pub(r.own)
    ensures client.Live() && server.Live() && fresh(client) && fresh(server) && client != server
    ensures client.SendCipher == server.RecvCipher && server.SendCipher == client.RecvCipher
    ensures client.LocalIndex == server.RemoteIndex == i.index
    ensures server.LocalIndex == client.RemoteIndex == r.index
    ensures client.replay != server.replay && client.replay.accepted == server.replay.accepted == {}
    ensures client.sendCounter == server.sendCounter == 0
  {
    HonestRunCompletes(i, r);
    var initiator := new Noise.InitiatorHandshake(i.own, i.point, i.index, i.ephemeral);
    var responder := new Noise.ResponderHandshake(r.own, r.index);
    var msg := initiator.CreateInitiation(i.time);
    var answer := responder.ConsumeInitiation(msg.value, Some(r.ephemeral));
    var keys := initiator.ConsumeResponse(answer.value.response);
    assert keys == Finished(i, [], answer.value.response);
    AnsweredTranscript(r, msg.value);
    AcceptanceImpliesMatch(i, [], answer.value.response, r, msg.value);
    hide Noise.Initiate, Noise.Respond, Noise.Finish, Replay.Represents;
    var c := NewSession(lib, keys.value, suite);
    var s := NewSession(lib, answer.value.keys, suite);
    client, server := c.value, s.value;
  }

  predicate NamesPackets(schedule: seq<uint64>, n: nat) {
    forall k | 0 <= k < |schedule| :: schedule[k] < n
  }

  /** What a network that delivers packet schedule[0], then schedule[1], and so on,
    * leaves of the payloads: those arrivals that are the first of their packet and have
    * nothing 128 or more ahead of them before. */
  ghost function Surviving(payloads: seq<seq<byte>>, schedule: seq<uint64>): seq<seq<byte>>
    requires NamesPackets(schedule, |payloads|)
  {
    if schedule == [] then [] else
    var last := |schedule| - 1;
    Surviving(payloads, schedule[..last]) +
    (if Replay.FirstInReach(schedule, last) then [payloads[schedule[last]]] else [])
  }

  lemma SurvivingStep(payloads: seq<seq<byte>>, schedule: seq<uint64>, k: nat)
    requires k < |schedule| && NamesPackets(schedule, |payloads|)
    ensures Surviving(payloads, schedule[..k + 1]) ==
      Surviving(payloads, schedule[..k]) +
        (if Replay.Admits(Replay.Accepted(schedule[..k]), schedule[k]) then [payloads[schedule[k]]] else [])
    ensures Replay.Accepted(schedule[..k + 1]) == Replay.Admit(Replay.Accepted(schedule[..k]), schedule[k])
  {
    var p := schedule[..k + 1];
    assert p[..k] == schedule[..k] && p[k] == schedule[k];
    Replay.AcceptsExactlyFirstInReach(p, k);
    Replay.AcceptedStep(schedule, k);
  }

  /** Seals a payload in a buffer of its own. */
  method SealOne(sender: Session, payload: seq<byte>) returns (wire: seq<byte>)
    requires sender.Live() && RoomNeeded(0, |payload|) <= DEFAULT_BUFFER_SIZE
    modifies sender`sendCounter
    ensures wire == Wire(sender.SendCipher.value, sender.HeaderFor(old(sender.sendCounter), TYPE_DATA, 0), payload)
    ensures sender.sendCounter == (old(sender.sendCounter) + 1) % TWO_TO_64
  {
    assert sender.SendCipher.Some?;
    hide Wire, Session.HeaderFor, Session.Live, SealOutcome, PacketBuffer.Bytes, OutsideUnchanged;
    var buf := new PacketBuffer(DEFAULT_BUFFER_SIZE);
    buf.Fill(payload);
    var r := sender.EncryptPacket(buf, TYPE_DATA, 0);
    wire := buf.Bytes();
  }

  method SealAll(sender: Session, payloads: seq<seq<byte>>) returns (wires: seq<seq<byte>>)
    requires sender.Live() && sender.sendCounter == 0 && |payloads| <= TWO_TO_64
    requires forall k | 0 <= k < |payloads| :: RoomNeeded(0, |payloads[k]|) <= DEFAULT_BUFFER_SIZE
    modifies sender`sendCounter
    ensures |wires| == |payloads|
    ensures forall k | 0 <= k < |payloads| ::
      wires[k] == Wire(sender.SendCipher.value, sender.HeaderFor(k, TYPE_DATA, 0), payloads[k])
  {
    hide Wire, Session.HeaderFor, Replay.Represents;
    wires := [];
    for k := 0 to |payloads|
      invariant |wires| == k && sender.sendCounter == k % TWO_TO_64
      invariant forall j | 0 <= j < k ::
        wires[j] == Wire(sender.SendCipher.value, sender.HeaderFor(j, TYPE_DATA, 0), payloads[j])
    {
      var wire := SealOne(sender, payloads[k]);
      wires := wires + [wire];
    }
  }

  /** Strips and opens a packet that was sealed for this session. */
  method OpenOne(receiver: Session, wire: seq<byte>, ghost h: Header, ghost payload: seq<byte>) returns (p: Option<seq<byte>>)
    requires receiver.Live() && |wire| <= DEFAULT_BUFFER_SIZE && wire == Wire(receiver.RecvCipher.value, h, payload)
    modifies receiver.replay
    ensures receiver.Live() && receiver.replay.accepted == Replay.Admit(old(receiver.replay.accepted), h.Counter)
    ensures p == if Replay.Admits(old(receiver.replay.accepted), h.Counter) then Some(payload) else None
  {
    hide Wire, PacketBuffer.Bytes, Encode, Replay.Represents;
    WireRoundTrip(receiver.RecvCipher.value, h, payload);
    var buf := new PacketBuffer(DEFAULT_BUFFER_SIZE);
    buf.Fill(wire);
    var stripped := StripHeader(buf);
    assert (Encode(h) + buf.Bytes())[HEADER_SIZE..] == buf.Bytes();
    var r := receiver.DecryptPacket(buf, stripped.value);
    p := if r.Done? then Some(buf.Bytes()) else None;
  }

  /** The code's objects over a network that reorders, loses and duplicates: the
    * receiver's output is exactly the surviving payloads. */
  method Relay(sender: Session, receiver: Session, payloads: seq<seq<byte>>, schedule: seq<uint64>)
    returns (delivered: seq<seq<byte>>)
    requires sender != receiver && sender.Live() && receiver.Live() && sender.SendCipher == receiver.RecvCipher
    requires sender.sendCounter == 0 && receiver.replay.accepted == {}
    requires |payloads| <= TWO_TO_64 && forall k | 0 <= k < |payloads| :: RoomNeeded(0, |payloads[k]|) <= DEFAULT_BUFFER_SIZE
    requires NamesPackets(schedule, |payloads|)
    modifies sender`sendCounter, receiver.replay
    ensures delivered == Surviving(payloads, schedule)
  {
    assert receiver.RecvCipher.Some?;
    hide Wire, Surviving, Session.Live, Replay.Admit, Replay.Admits, Replay.Accepted;
    var wires := SealAll(sender, payloads);
    delivered := [];
    assert schedule[..0] == [];
    EmptySchedule(payloads);
    for k := 0 to |schedule|
      invariant receiver.Live() && receiver.replay.accepted == Replay.Accepted(schedule[..k])
      invariant delivered == Surviving(payloads, schedule[..k])
    {
      var c := schedule[k];
      SurvivingStep(payloads, schedule, k);
      var p := OpenOne(receiver, wires[c], sender.HeaderFor(c, TYPE_DATA, 0), payloads[c]);
      if p.Some? {
        delivered := delivered + [p.value];
      }
    }
    assert schedule[..|schedule|] == schedule;
  }

  lemma EmptySchedule(payloads: seq<seq<byte>>)
    ensures Surviving(payloads, []) == [] && Replay.Accepted([]) == {}
  {
  }
}
