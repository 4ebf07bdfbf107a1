/** One direction of a tunnel as a state machine. Sender threads share a session's
  * counter; a network loses, duplicates, reorders and forges packets; receiver
  * threads share the replay window. Every step below is atomic in the code: a
  * fetch-and-add, a call on the window under its mutex, or thread-local work. */
module Channel {
  import opened Words
  import opened Packet
  import opened Cipher
  import opened Replay
  import opened Session
  import Noise

  /** The direction's cipher, the index the sender writes, the one the receiver
    * expects, and whether the receiver is the server. */
  datatype Link = Link(cipher: LawfulAead, remoteIndex: uint32, localIndex: uint32, toServer: bool)

  /** The packets that a receiver presents to the session's window. The server takes
    * every packet of the size of a handshake initiation for one. */
  predicate Presented(link: Link, packet: seq<byte>) {
    && |packet| >= HEADER_SIZE
    && Decode(packet).ReceiverIndex == link.localIndex
    && (link.toServer ==> |packet| != Noise.HANDSHAKE_INIT_SIZE)
  }

  /** A packet as the two ends see it. */
  datatype Record = Record(h: Header, payload: seq<byte>)

  datatype State = State(
    calls: nat,                    // calls of EncryptPacket so far
    held: map<nat, uint64>,        // counter taken by a sender thread that has not sealed yet
    used: seq<uint64>,             // counters under which something was sealed
    sent: seq<Record>,             // packets handed to the network
    presented: seq<seq<byte>>,     // packets presented to the window, in order
    arrived: seq<uint64>,          // and their counters
    accepted: set<uint64>,         // the window's accepted set
    opening: map<nat, seq<byte>>,  // packet that a receiver thread took past the window
    delivered: seq<Record>)

  datatype Event =
    | Take(t: nat)                                                // fetch-and-add
    | NoRoomForTag(t: nat)                                        // fails before sealing
    | NoRoomForHeader(t: nat)                                     // seals, but sends nothing
    | SealAndSend(t: nat, Type: byte, Flags: byte, payload: seq<byte>)
    | Arrive(t: nat, packet: seq<byte>)                           // any bytes, up to the window
    | OpenPacket(t: nat)

  function Init(): State {
    State(0, map[], [], [], [], [], {}, map[], [])
  }

  function PacketFor(link: Link, r: Record): seq<byte> {
    Wire(link.cipher, r.h, r.payload)
  }

  /** A packet reaches the window exactly when the indices agree and, towards the
    * server, the payload does not have 78 bytes. */
  lemma PresentedExactlyWhen(link: Link, r: Record)
    requires r.h.ReceiverIndex == link.remoteIndex
    ensures Presented(link, PacketFor(link, r)) <==>
              link.remoteIndex == link.localIndex && (link.toServer ==> |r.payload| != 78)
  {
    WireRoundTrip(link.cipher, r.h, r.payload);
  }

  /** A step that is not possible in a state leaves the state as it is. */
  ghost function Step(link: Link, s: State, e: Event): State {
    match e
    case Take(t) =>
      if t in s.held then s else s.(calls := s.calls + 1, held := s.held[t := s.calls % TWO_TO_64])
    case NoRoomForTag(t) =>
      s.(held := s.held - {t})
    case NoRoomForHeader(t) =>
      if t !in s.held then s else s.(held := s.held - {t}, used := s.used + [s.held[t]])
    case SealAndSend(t, ty, flags, payload) =>
      if t !in s.held then s else
      s.(held := s.held - {t}, used := s.used + [s.held[t]],
         sent := s.sent + [Record(Header(ty, flags, link.remoteIndex, s.held[t]), payload)])
    case Arrive(t, packet) =>
      if t in s.opening || !Presented(link, packet) then s else
      var c := Decode(packet).Counter;
      s.(presented := s.presented + [packet],
         arrived := s.arrived + [c],
         accepted := Admit(s.accepted, c),
         opening := if Admits(s.accepted, c) then s.opening[t := packet] else s.opening)
    case OpenPacket(t) =>
      if t !in s.opening || |s.opening[t]| < HEADER_SIZE then s else
      var h := Decode(s.opening[t]);
      var p := Unwire(link.cipher, h, s.opening[t][HEADER_SIZE..]);
      s.(opening := s.opening - {t},
         delivered := if p.Some? then s.delivered + [Record(h, p.value)] else s.delivered)
  }

  ghost function Run(link: Link, es: seq<Event>): State {
    if es == [] then Init() else Step(link, Run(link, es[..|es| - 1]), es[|es| - 1])
  }

  ghost predicate Distinct<T(!new)>(s: seq<T>) {
    forall i, j | 0 <= i < j < |s| :: s[i] != s[j]
  }

  function Counters(rs: seq<Record>): seq<uint64> {
    seq(|rs|, i requires 0 <= i < |rs| => rs[i].h.Counter)
  }

  // The sender: no nonce is used twice.

  /** While fewer than 2^64 calls were made, every counter was handed out once. */
  ghost predicate SenderInv(s: State) {
    && (forall t <- s.held :: s.held[t] < s.calls)
    && (forall t, t' | t in s.held && t' in s.held && t != t' :: s.held[t] != s.held[t'])
    && (forall c <- s.used :: c < s.calls)
    && (forall t <- s.held :: s.held[t] !in s.used)
    && Distinct(s.used)
    && (forall r <- s.sent :: r.h.Counter in s.used)
    && Distinct(Counters(s.sent))
  }

  lemma DistinctAppend<T(!new)>(s: seq<T>, x: T)
    requires Distinct(s) && x !in s
    ensures Distinct(s + [x])
  {
  }

  lemma SmallModulo(n: nat)
    requires n < TWO_TO_64
    ensures n % TWO_TO_64 == n
  {
  }

  lemma TakeStep(link: Link, s: State, t: nat)
    requires SenderInv(s) && Step(link, s, Take(t)).calls <= TWO_TO_64
    ensures SenderInv(Step(link, s, Take(t)))
  {
    hide Distinct, Counters;
    if t !in s.held {
      assert s.calls % TWO_TO_64 == s.calls by { SmallModulo(s.calls); }
    }
  }

  lemma SealStep(link: Link, s: State, t: nat, r: Record)
    requires SenderInv(s) && t in s.held && r.h.Counter == s.held[t]
    ensures var u := s.(held := s.held - {t}, used := s.used + [s.held[t]]);
            SenderInv(u) && SenderInv(u.(sent := s.sent + [r]))
  {
    DistinctAppend(s.used, s.held[t]);
    assert s.held[t] !in Counters(s.sent);
    DistinctAppend(Counters(s.sent), s.held[t]);
    assert Counters(s.sent + [r]) == Counters(s.sent) + [s.held[t]];
  }

  lemma SenderStep(link: Link, s: State, e: Event)
    requires SenderInv(s) && Step(link, s, e).calls <= TWO_TO_64
    ensures SenderInv(Step(link, s, e))
  {
    match e {
      case Take(t) =>
        TakeStep(link, s, t);
      case NoRoomForHeader(t) =>
        if t in s.held {
          SealStep(link, s, t, Record(Header(0, 0, 0, s.held[t]), []));
        }
      case SealAndSend(t, ty, flags, payload) =>
        if t in s.held {
          SealStep(link, s, t, Record(Header(ty, flags, link.remoteIndex, s.held[t]), payload));
        }
      case _ =>
    }
  }

  lemma {:induction false} SenderRun(link: Link, es: seq<Event>)
    requires Run(link, es).calls <= TWO_TO_64
    ensures SenderInv(Run(link, es))
  {
    if es != [] {
      SenderRun(link, es[..|es| - 1]);
      SenderStep(link, Run(link, es[..|es| - 1]), es[|es| - 1]);
    }
  }

  /** The nonces under which a run sealed, in order. */
  function Nonces(used: seq<uint64>): seq<seq<byte>> {
    seq(|used|, i requires 0 <= i < |used| => Nonce(used[i]))
  }

  /** Whatever the interleaving and whichever calls fail, up to 2^64 calls never
    * seal twice under one nonce. */
  lemma NoncesNeverRepeat(link: Link, es: seq<Event>)
    requires Run(link, es).calls <= TWO_TO_64
    ensures Distinct(Nonces(Run(link, es).used))
  {
    SenderRun(link, es);
    var used := Run(link, es).used;
    forall i, j | 0 <= i < j < |used| ensures Nonce(used[i]) != Nonce(used[j]) {
      NonceInjective(used[i], used[j]);
    }
  }

  /** n seals by one thread, one after another. */
  function SealOften(n: nat): seq<Event> {
    if n == 0 then [] else SealOften(n - 1) + [Take(0), SealAndSend(0, TYPE_DATA, 0, [])]
  }

  lemma RunAppend(link: Link, es: seq<Event>, e: Event)
    ensures Run(link, es + [e]) == Step(link, Run(link, es), e)
  {
    assert (es + [e])[..|es|] == es;
  }

  lemma SealOnce(link: Link, s: State)
    requires s.held == map[]
    ensures var s' := Step(link, Step(link, s, Take(0)), SealAndSend(0, TYPE_DATA, 0, []));
            s'.calls == s.calls + 1 && s'.held == map[] && s'.used == s.used + [s.calls % TWO_TO_64]
  {
    assert map[0 := s.calls % TWO_TO_64] - {0} == map[];
  }

  lemma SealOftenStep(link: Link, n: nat)
    requires n > 0
    ensures Run(link, SealOften(n)) ==
      Step(link, Step(link, Run(link, SealOften(n - 1)), Take(0)), SealAndSend(0, TYPE_DATA, 0, []))
  {
    var p, send := SealOften(n - 1), SealAndSend(0, TYPE_DATA, 0, []);
    RunAppend(link, p, Take(0));
    RunAppend(link, p + [Take(0)], send);
    assert SealOften(n) == p + [Take(0)] + [send];
  }

  lemma {:induction false} SealOftenUses(link: Link, n: nat)
    ensures var s := Run(link, SealOften(n));
            s.calls == n && s.held == map[] && |s.used| == n && forall k | 0 <= k < n :: s.used[k] == k % TWO_TO_64
  {
    hide Step, Nonces;
    if n > 0 {
      hide Run, SealOften;
      SealOftenUses(link, n - 1);
      SealOftenStep(link, n);
      SealOnce(link, Run(link, SealOften(n - 1)));
    }
  }

  /** The bound is exact: one call more and the first nonce comes back. */
  lemma OneCallMoreRepeats(link: Link)
    ensures var s := Run(link, SealOften(TWO_TO_64 + 1));
            s.calls == TWO_TO_64 + 1 && !Distinct(Nonces(s.used))
  {
    SealOftenUses(link, TWO_TO_64 + 1);
    var used := Run(link, SealOften(TWO_TO_64 + 1)).used;
    assert used[0] == used[TWO_TO_64];
    assert Nonces(used)[0] == Nonces(used)[TWO_TO_64];
  }

  // The receiver: nothing is delivered twice, whoever made the packets.

  ghost predicate ReceiverInv(link: Link, s: State) {
    && s.accepted == Accepted(s.arrived)
    && (forall t <- s.opening :: |s.opening[t]| >= HEADER_SIZE)
    && (forall t <- s.opening :: Decode(s.opening[t]).ReceiverIndex == link.localIndex)
    && (forall t <- s.opening :: Decode(s.opening[t]).Counter in s.accepted)
    && (forall t, t' | t in s.opening && t' in s.opening && t != t' ::
          Decode(s.opening[t]).Counter != Decode(s.opening[t']).Counter)
    && (forall t <- s.opening :: Decode(s.opening[t]).Counter !in Counters(s.delivered))
    && (forall c <- Counters(s.delivered) :: c in s.accepted)
    && Distinct(Counters(s.delivered))
  }

  lemma ArriveStep(link: Link, s: State, t: nat, packet: seq<byte>)
    requires ReceiverInv(link, s)
    ensures ReceiverInv(link, Step(link, s, Arrive(t, packet)))
  {
    hide Decode, Admits, Accepted, Counters, Distinct;
    var s' := Step(link, s, Arrive(t, packet));
    if s' != s {
      AcceptedMore(s.arrived, Decode(packet).Counter);
    }
  }

  lemma OpenStep(link: Link, s: State, t: nat)
    requires ReceiverInv(link, s)
    ensures ReceiverInv(link, Step(link, s, OpenPacket(t)))
  {
    hide Decode, Unwire, Accepted;
    var s' := Step(link, s, OpenPacket(t));
    if |s'.delivered| > |s.delivered| {
      var c := Decode(s.opening[t]).Counter;
      DistinctAppend(Counters(s.delivered), c);
      assert Counters(s'.delivered) == Counters(s.delivered) + [c];
    }
  }

  lemma ReceiverStep(link: Link, s: State, e: Event)
    requires ReceiverInv(link, s)
    ensures ReceiverInv(link, Step(link, s, e))
  {
    match e {
      case Arrive(t, packet) => ArriveStep(link, s, t, packet);
      case OpenPacket(t) => OpenStep(link, s, t);
      case _ =>
    }
  }

  lemma {:induction false} ReceiverRun(link: Link, es: seq<Event>)
    ensures ReceiverInv(link, Run(link, es))
  {
    if es != [] {
      ReceiverRun(link, es[..|es| - 1]);
      ReceiverStep(link, Run(link, es[..|es| - 1]), es[|es| - 1]);
    }
  }

  /** At most once, even among forged packets and however the receivers interleave. */
  lemma DeliveredAtMostOnce(link: Link, es: seq<Event>)
    ensures Distinct(Counters(Run(link, es).delivered))
  {
    ReceiverRun(link, es);
  }

  // Integrity: what is delivered was sent.

  /** The AEAD produced this ciphertext for a packet that was sent. */
  ghost predicate Logged(link: Link, s: State, nonce: seq<byte>, ad: seq<byte>, c: seq<byte>) {
    exists r <- s.sent ::
      Nonce(r.h.Counter) == nonce && Encode(r.h) == ad && link.cipher.seal(nonce, ad, r.payload) == c
  }

  /** If e opens a packet, its ciphertext was sealed and sent. */
  ghost predicate UnforgedStep(link: Link, s: State, e: Event) {
    e.OpenPacket? && e.t in s.opening && |s.opening[e.t]| >= HEADER_SIZE ==>
      var h, body := Decode(s.opening[e.t]), s.opening[e.t][HEADER_SIZE..];
      Unwire(link.cipher, h, body).Some? ==> Logged(link, s, Nonce(h.Counter), Encode(h), body)
  }

  /** No step of the run opened a ciphertext that was not sealed and sent: the
    * integrity of the AEAD, as a hypothesis on the run. */
  ghost predicate Unforged(link: Link, es: seq<Event>) {
    es == [] ||
    (Unforged(link, es[..|es| - 1]) && UnforgedStep(link, Run(link, es[..|es| - 1]), es[|es| - 1]))
  }

  lemma LoggedMeansSent(link: Link, s: State, h: Header, body: seq<byte>)
    requires Logged(link, s, Nonce(h.Counter), Encode(h), body)
    requires Unwire(link.cipher, h, body).Some?
    ensures Record(h, Unwire(link.cipher, h, body).value) in s.sent
  {
    var r :| r in s.sent && Nonce(r.h.Counter) == Nonce(h.Counter) && Encode(r.h) == Encode(h) &&
             link.cipher.seal(Nonce(h.Counter), Encode(h), r.payload) == body;
    DecodeAfterEncode(h, []);
    DecodeAfterEncode(r.h, []);
    assert Encode(h) + [] == Encode(r.h) + [];
    assert r == Record(h, Unwire(link.cipher, h, body).value);
  }

  lemma DeliveredStep(link: Link, s: State, e: Event)
    requires UnforgedStep(link, s, e) && forall r <- s.delivered :: r in s.sent
    ensures forall r <- Step(link, s, e).delivered :: r in Step(link, s, e).sent
  {
    hide Decode, Unwire, Logged, Presented;
    var s' := Step(link, s, e);
    if s'.delivered != s.delivered {
      var h, body := Decode(s.opening[e.t]), s.opening[e.t][HEADER_SIZE..];
      LoggedMeansSent(link, s, h, body);
      assert s'.delivered == s.delivered + [Record(h, Unwire(link.cipher, h, body).value)];
    }
  }

  lemma {:induction false} DeliveredWasSent(link: Link, es: seq<Event>)
    requires Unforged(link, es)
    ensures forall r <- Run(link, es).delivered :: r in Run(link, es).sent
  {
    if es != [] {
      DeliveredWasSent(link, es[..|es| - 1]);
      DeliveredStep(link, Run(link, es[..|es| - 1]), es[|es| - 1]);
    }
  }

  lemma {:induction false} DistinctWithin<T(!new)>(d: seq<T>, s: seq<T>)
    requires Distinct(d) && forall x <- d :: x in s
    ensures multiset(d) <= multiset(s)
  {
    if d != [] {
      var p, x := d[..|d| - 1], d[|d| - 1];
      DistinctWithin(p, s);
      assert d == p + [x];
      assert x in d && x in s;
      assert x !in multiset(p) && x in multiset(s);
    }
  }

  /** The delivered log maps one to one into the sent log: every delivered header and
    * payload was sent, each at most as often as it was sent, and both logs hold every
    * counter at most once. */
  lemma DeliveryIsFaithful(link: Link, es: seq<Event>)
    requires Unforged(link, es) && Run(link, es).calls <= TWO_TO_64
    ensures multiset(Run(link, es).delivered) <= multiset(Run(link, es).sent)
    ensures Distinct(Counters(Run(link, es).delivered)) && Distinct(Counters(Run(link, es).sent))
  {
    var s := Run(link, es);
    SenderRun(link, es);
    ReceiverRun(link, es);
    DeliveredWasSent(link, es);
    forall i, j | 0 <= i < j < |s.delivered| ensures s.delivered[i] != s.delivered[j] {
      assert Counters(s.delivered)[i] != Counters(s.delivered)[j];
    }
    DistinctWithin(s.delivered, s.sent);
  }

  // Exactly what gets through.

  /** The record that a packet opens to. */
  function OpenedTo(link: Link, packet: seq<byte>): Option<Record> {
    if |packet| < HEADER_SIZE then None
    else
      var p := Unwire(link.cipher, Decode(packet), packet[HEADER_SIZE..]);
      if p.Some? then Some(Record(Decode(packet), p.value)) else None
  }

  /** The window let this packet through: it was the first to bring its counter, and
    * nothing 128 or more ahead was presented before. */
  ghost predicate Took(s: State, packet: seq<byte>) {
    exists k | 0 <= k < |s.presented| && k < |s.arrived| :: s.presented[k] == packet && FirstInReach(s.arrived, k)
  }

  /** Every packet that the window let through is being opened or was opened, and
    * nothing else is delivered. */
  ghost predicate TraceInv(link: Link, s: State) {
    && |s.presented| == |s.arrived|
    && (forall k | 0 <= k < |s.presented| ::
          |s.presented[k]| >= HEADER_SIZE && Decode(s.presented[k]).Counter == s.arrived[k])
    && (forall t <- s.opening :: Took(s, s.opening[t]))
    && (forall w <- s.presented | Took(s, w) :: Settled(link, s, w))
    && (forall r <- s.delivered :: Source(link, s, r))
  }

  ghost predicate Settled(link: Link, s: State, packet: seq<byte>) {
    || (exists t <- s.opening :: s.opening[t] == packet)
    || (OpenedTo(link, packet).Some? ==> OpenedTo(link, packet).value in s.delivered)
  }

  ghost predicate Source(link: Link, s: State, r: Record) {
    exists w <- s.presented :: Took(s, w) && OpenedTo(link, w) == Some(r)
  }

  /** Presenting one more packet: the window's decision is the one on the history. */
  lemma PresentOne(s: State, s': State, packet: seq<byte>, c: uint64, w: seq<byte>)
    requires |s.presented| == |s.arrived| && s.accepted == Accepted(s.arrived)
    requires s'.presented == s.presented + [packet] && s'.arrived == s.arrived + [c]
    ensures Took(s', w) <==> Took(s, w) || (w == packet && Admits(s.accepted, c))
  {
    var n, h := |s.arrived|, s'.arrived;
    assert h[..n] == s.arrived;
    AcceptsExactlyFirstInReach(h, n);
    hide FirstInReach, Admits;
    forall k | 0 <= k < n ensures FirstInReach(h, k) <==> FirstInReach(s.arrived, k) {
      FirstInReachOfPrefix(h, n, k);
    }
    if Took(s, w) {
      var k :| 0 <= k < n && s.presented[k] == w && FirstInReach(s.arrived, k);
      assert s'.presented[k] == w;
    }
    if w == packet && Admits(s.accepted, c) {
      assert s'.presented[n] == w;
    }
  }

  lemma TraceArrive(link: Link, s: State, t: nat, packet: seq<byte>)
    requires TraceInv(link, s) && ReceiverInv(link, s)
    ensures TraceInv(link, Step(link, s, Arrive(t, packet)))
  {
    hide Decode, Admits, Accepted, Took, OpenedTo, Counters, Distinct;
    var s' := Step(link, s, Arrive(t, packet));
    if s' != s {
      var c := Decode(packet).Counter;
      forall w ensures Took(s', w) <==> Took(s, w) || (w == packet && Admits(s.accepted, c)) {
        PresentOne(s, s', packet, c, w);
      }
      forall w <- s'.presented | Took(s', w) ensures Settled(link, s', w) {
        if Took(s, w) {
          TookIsPresented(s, w);
          StillSettled(link, s, s', t, packet, w);
        } else {
          assert t in s'.opening && s'.opening[t] == w;
        }
      }
      forall r <- s'.delivered ensures Source(link, s', r) {
        var w :| w in s.presented && Took(s, w) && OpenedTo(link, w) == Some(r);
        assert w in s'.presented;
      }
    }
  }

  lemma TookIsPresented(s: State, w: seq<byte>)
    requires Took(s, w)
    ensures w in s.presented
  {
  }

  lemma StillSettled(link: Link, s: State, s': State, t: nat, packet: seq<byte>, w: seq<byte>)
    requires Settled(link, s, w) && t !in s.opening
    requires s'.delivered == s.delivered && (s'.opening == s.opening || s'.opening == s.opening[t := packet])
    ensures Settled(link, s', w)
  {
    hide OpenedTo;
    if t' :| t' in s.opening && s.opening[t'] == w {
      assert t' in s'.opening && s'.opening[t'] == w;
    }
  }

  lemma TraceOpen(link: Link, s: State, t: nat)
    requires TraceInv(link, s)
    ensures TraceInv(link, Step(link, s, OpenPacket(t)))
  {
    hide Decode, Unwire, Took;
    var s' := Step(link, s, OpenPacket(t));
    if s' != s {
      var w := s.opening[t];
      assert forall v :: Took(s', v) <==> Took(s, v) by {
        forall v ensures Took(s', v) <==> Took(s, v) {
          TookOnHistory(s, s', v);
        }
      }
      TookIsPresented(s, w);
      forall v <- s'.presented | Took(s', v) ensures Settled(link, s', v) {
        if t' :| t' in s.opening && s.opening[t'] == v && t' != t {
          assert t' in s'.opening && s'.opening[t'] == v;
        }
      }
      forall r <- s'.delivered ensures Source(link, s', r) {
        if r in s.delivered {
          var v :| v in s.presented && Took(s, v) && OpenedTo(link, v) == Some(r);
          assert v in s'.presented;
        } else {
          assert w in s'.presented && OpenedTo(link, w) == Some(r);
        }
      }
    }
  }

  lemma TookOnHistory(s: State, s': State, w: seq<byte>)
    requires s'.presented == s.presented && s'.arrived == s.arrived
    ensures Took(s', w) <==> Took(s, w)
  {
  }

  lemma TraceSend(link: Link, s: State, s': State)
    requires TraceInv(link, s)
    requires s'.presented == s.presented && s'.arrived == s.arrived
    requires s'.opening == s.opening && s'.delivered == s.delivered
    ensures TraceInv(link, s')
  {
    hide Decode, OpenedTo;
    forall w ensures Took(s', w) <==> Took(s, w) {
      TookOnHistory(s, s', w);
    }
    hide Took;
    forall r <- s'.delivered ensures Source(link, s', r) {
      assert Source(link, s, r);
    }
    forall w <- s'.presented | Took(s', w) ensures Settled(link, s', w) {
      assert Settled(link, s, w);
    }
  }

  lemma TraceStep(link: Link, s: State, e: Event)
    requires TraceInv(link, s) && ReceiverInv(link, s)
    ensures TraceInv(link, Step(link, s, e))
  {
    hide TraceInv, ReceiverInv;
    match e {
      case Arrive(t, packet) => TraceArrive(link, s, t, packet);
      case OpenPacket(t) => TraceOpen(link, s, t);
      case _ => TraceSend(link, s, Step(link, s, e));
    }
  }

  lemma {:induction false} TraceRun(link: Link, es: seq<Event>)
    ensures TraceInv(link, Run(link, es))
  {
    hide TraceInv, ReceiverInv, Step;
    if es == [] {
      TraceInit(link);
    } else {
      TraceRun(link, es[..|es| - 1]);
      ReceiverRun(link, es[..|es| - 1]);
      TraceStep(link, Run(link, es[..|es| - 1]), es[|es| - 1]);
    }
  }

  lemma TraceInit(link: Link)
    ensures TraceInv(link, Init())
  {
  }

  /** For every run, forged packets or not: once no receiver is in the middle of a
    * packet, what was delivered is exactly what the packets let through open to. */
  lemma DeliversExactlyWhatOpens(link: Link, es: seq<Event>, r: Record)
    requires Run(link, es).opening == map[]
    ensures r in Run(link, es).delivered <==>
              exists w <- Run(link, es).presented :: Took(Run(link, es), w) && OpenedTo(link, w) == Some(r)
  {
    TraceRun(link, es);
    hide Took, OpenedTo, Run;
    var s := Run(link, es);
    if r in s.delivered {
      assert Source(link, s, r);
    }
    if w :| w in s.presented && Took(s, w) && OpenedTo(link, w) == Some(r) {
      assert Settled(link, s, w);
    }
  }

  /** A packet whose ciphertext was logged is the packet of the record it opens to. */
  lemma LoggedIsPacket(link: Link, s: State, packet: seq<byte>)
    requires |packet| >= HEADER_SIZE && OpenedTo(link, packet).Some?
    requires var h := Decode(packet); Logged(link, s, Nonce(h.Counter), Encode(h), packet[HEADER_SIZE..])
    ensures packet == PacketFor(link, OpenedTo(link, packet).value)
  {
    var h, body := Decode(packet), packet[HEADER_SIZE..];
    LoggedMeansSent(link, s, h, body);
    var r :| r in s.sent && Nonce(r.h.Counter) == Nonce(h.Counter) && Encode(r.h) == Encode(h) &&
             link.cipher.seal(Nonce(h.Counter), Encode(h), r.payload) == body;
    EncodeAfterDecode(packet);
    assert packet == Encode(h) + body;
  }

  /** In a run without forgeries, every delivered record came in its own packet. */
  ghost predicate Authentic(link: Link, s: State) {
    forall r <- s.delivered :: Took(s, PacketFor(link, r))
  }

  lemma {:induction false} AuthenticRun(link: Link, es: seq<Event>)
    requires Unforged(link, es)
    ensures Authentic(link, Run(link, es))
  {
    if es != [] {
      var p := es[..|es| - 1];
      AuthenticRun(link, p);
      TraceRun(link, p);
      ReceiverRun(link, p);
      hide Run;
      AuthenticStep(link, Run(link, p), es[|es| - 1]);
      assert Run(link, es) == Step(link, Run(link, p), es[|es| - 1]) by {
        RunLast(link, es);
      }
    }
  }

  lemma RunLast(link: Link, es: seq<Event>)
    requires es != []
    ensures Run(link, es) == Step(link, Run(link, es[..|es| - 1]), es[|es| - 1])
  {
  }

  lemma AuthenticStep(link: Link, s: State, e: Event)
    requires Authentic(link, s) && TraceInv(link, s) && ReceiverInv(link, s) && UnforgedStep(link, s, e)
    ensures Authentic(link, Step(link, s, e))
  {
    hide Decode, Unwire, Logged, PacketFor, Accepted, Counters, Distinct;
    var s' := Step(link, s, e);
    forall r <- s'.delivered ensures Took(s', PacketFor(link, r)) {
      if r !in s.delivered {
        var w := s.opening[e.t];
        assert OpenedTo(link, w) == Some(r);
        LoggedIsPacket(link, s, w);
        TookOnHistory(s, s', w);
      } else {
        var w := PacketFor(link, r);
        if e.Arrive? && s'.presented != s.presented {
          PresentOne(s, s', e.packet, Decode(e.packet).Counter, w);
        } else {
          TookOnHistory(s, s', w);
        }
      }
    }
  }

  /** Exactly which packets get through when nothing is forged successfully, whatever
    * else the network presents: those that were sent and brought their counter to the
    * window first and in reach. */
  lemma DeliveredExactlyWhenTaken(link: Link, es: seq<Event>, r: Record)
    requires Unforged(link, es) && Run(link, es).opening == map[]
    ensures r in Run(link, es).delivered <==> r in Run(link, es).sent && Took(Run(link, es), PacketFor(link, r))
  {
    DeliveredWasSent(link, es);
    AuthenticRun(link, es);
    DeliversExactlyWhatOpens(link, es, r);
    OpenGenuine(link, r);
    hide Run, Took, Unwire, Decode, PacketFor;
    var s, w := Run(link, es), PacketFor(link, r);
    if Took(s, w) {
      TookIsPresented(s, w);
      assert OpenedTo(link, w) == Some(r);
    }
  }

  lemma OpenGenuine(link: Link, r: Record)
    ensures |PacketFor(link, r)| >= HEADER_SIZE && Decode(PacketFor(link, r)) == r.h
    ensures Unwire(link.cipher, r.h, PacketFor(link, r)[HEADER_SIZE..]) == Some(r.payload)
  {
    WireRoundTrip(link.cipher, r.h, r.payload);
  }

  /** The window counts before it authenticates: a bare header with the next counter,
    * which anyone can write, makes the receiver drop the genuine packet. */
  function Spoiled(link: Link, r: Record): seq<Event> {
    [Take(0), SealAndSend(0, r.h.Type, r.h.Flags, r.payload),
     Arrive(1, Encode(r.h)), OpenPacket(1), Arrive(1, PacketFor(link, r))]
  }

  lemma ForgedHeaderCostsPacket(link: Link, r: Record)
    requires link.remoteIndex == link.localIndex && (link.toServer ==> |r.payload| != 78)
    requires r.h.ReceiverIndex == link.remoteIndex && r.h.Counter == 0
    ensures var s := Run(link, Spoiled(link, r));
            && Unforged(link, Spoiled(link, r)) && s.opening == map[]
            && s.sent == [r] && s.presented == [Encode(r.h), PacketFor(link, r)]
            && BoundedReordering(s.arrived)
            && s.delivered == []
  {
    hide Encode, PacketFor, Decode, Presented, Run, Unforged, UnforgedStep, Logged, Init, Step, BoundedReordering;
    var es, head, w := Spoiled(link, r), Encode(r.h), PacketFor(link, r);
    SpoiledStart(link, r);
    OpenGenuine(link, r);
    PresentedExactlyWhen(link, r);
    RunPrefix(link, es, 3);
    RunPrefix(link, es, 4);
    SpoiledEnd(link, Run(link, es[..3]), head, w);
    TwiceInReach(Run(link, es).arrived);
    assert es[..5] == es;
  }

  lemma TwiceInReach(arrived: seq<uint64>)
    ensures arrived == [0, 0] ==> BoundedReordering(arrived)
  {
  }

  lemma SpoiledEnd(link: Link, s: State, head: seq<byte>, w: seq<byte>)
    requires |head| == HEADER_SIZE && Presented(link, w) && Decode(w).Counter == 0
    requires s.opening == map[1 := head] && s.accepted == {0} && s.arrived == [0]
    ensures var u := Step(link, s, OpenPacket(1)); var v := Step(link, u, Arrive(1, w));
            && UnforgedStep(link, s, OpenPacket(1)) && UnforgedStep(link, u, Arrive(1, w))
            && v.opening == map[] && v.sent == s.sent && v.delivered == s.delivered
            && v.presented == s.presented + [w] && v.arrived == [0, 0]
  {
    hide Encode, Decode, Presented;
    assert map[1 := head] - {1} == map[];
  }

  lemma SpoiledStart(link: Link, r: Record)
    requires link.remoteIndex == link.localIndex
    requires r.h.ReceiverIndex == link.remoteIndex && r.h.Counter == 0
    ensures var s := Run(link, Spoiled(link, r)[..3]);
            && Unforged(link, Spoiled(link, r)[..3])
            && s.sent == [r] && s.delivered == [] && s.accepted == {0}
            && s.presented == [Encode(r.h)] && s.arrived == [0] && s.opening == map[1 := Encode(r.h)]
    ensures |Encode(r.h)| == HEADER_SIZE && Decode(Encode(r.h)) == r.h
  {
    var es, head := Spoiled(link, r), Encode(r.h);
    DecodeAfterEncode(r.h, []);
    assert head + [] == head;
    hide Encode, PacketFor, Decode;
    RunPrefix(link, es, 0);
    RunPrefix(link, es, 1);
    RunPrefix(link, es, 2);
  }

  lemma RunPrefix(link: Link, es: seq<Event>, k: nat)
    requires k < |es|
    ensures Run(link, es[..k + 1]) == Step(link, Run(link, es[..k]), es[k])
    ensures Unforged(link, es[..k + 1]) <==> Unforged(link, es[..k]) && UnforgedStep(link, Run(link, es[..k]), es[k])
    ensures Run(link, es[..0]) == Init() && Unforged(link, es[..0])
  {
    assert es[..k + 1][..k] == es[..k];
  }

  // What the network may do without losing packets that arrive.

  /** Only packets that were sent before arrive, in any order and number. */
  ghost predicate Genuine(link: Link, es: seq<Event>) {
    es == [] ||
    var e := es[|es| - 1];
    && Genuine(link, es[..|es| - 1])
    && (e.Arrive? ==> IsPacketOf(link, Run(link, es[..|es| - 1]).sent, e.packet))
  }

  ghost predicate IsPacketOf(link: Link, rs: seq<Record>, packet: seq<byte>) {
    exists r <- rs :: packet == PacketFor(link, r)
  }

  lemma SentOnlyGrows(link: Link, s: State, e: Event)
    ensures s.sent <= Step(link, s, e).sent
  {
  }

  /** In such a run nothing is forged, and everything presented was sent. */
  lemma {:induction false} GenuineRun(link: Link, es: seq<Event>)
    requires Genuine(link, es)
    ensures Unforged(link, es)
    ensures forall w <- Run(link, es).presented :: IsPacketOf(link, Run(link, es).sent, w)
  {
    if es != [] {
      var p, e := es[..|es| - 1], es[|es| - 1];
      GenuineRun(link, p);
      TraceRun(link, p);
      GenuineStep(link, Run(link, p), e);
      hide Step, UnforgedStep, TraceInv, IsPacketOf;
    }
  }

  lemma GenuineStep(link: Link, s: State, e: Event)
    requires TraceInv(link, s) && forall w <- s.presented :: IsPacketOf(link, s.sent, w)
    requires e.Arrive? ==> IsPacketOf(link, s.sent, e.packet)
    ensures UnforgedStep(link, s, e)
    ensures forall w <- Step(link, s, e).presented :: IsPacketOf(link, Step(link, s, e).sent, w)
  {
    hide Decode, Unwire, PacketFor, Took;
    var s' := Step(link, s, e);
    SentOnlyGrows(link, s, e);
    forall w <- s'.presented ensures IsPacketOf(link, s'.sent, w) {
      assert IsPacketOf(link, s.sent, w);
      var r :| r in s.sent && w == PacketFor(link, r);
      assert r in s'.sent;
    }
    if e.OpenPacket? && e.t in s.opening {
      OpensGenuine(link, s, s.opening[e.t]);
    }
  }

  /** A packet that was sent has a logged ciphertext. */
  lemma OpensGenuine(link: Link, s: State, w: seq<byte>)
    requires Took(s, w) && forall v <- s.presented :: IsPacketOf(link, s.sent, v)
    ensures |w| >= HEADER_SIZE
    ensures var h := Decode(w); Logged(link, s, Nonce(h.Counter), Encode(h), w[HEADER_SIZE..])
  {
    TookIsPresented(s, w);
    var r :| r in s.sent && w == PacketFor(link, r);
    OpenGenuine(link, r);
    WireParts(link.cipher, r.h, r.payload);
  }

  /** The first copy of r to arrive was not preceded by anything 128 or more ahead. */
  ghost predicate ArrivedInReach(s: State, r: Record) {
    exists k | 0 <= k < |s.arrived| :: s.arrived[k] == r.h.Counter && FirstInReach(s.arrived, k)
  }

  /** What the window let through brought its counter in reach. */
  lemma TookInReach(link: Link, s: State, r: Record)
    requires TraceInv(link, s) && Took(s, PacketFor(link, r))
    ensures ArrivedInReach(s, r)
  {
    OpenGenuine(link, r);
    hide FirstInReach, PacketFor, Decode, OpenedTo;
    var k :| 0 <= k < |s.presented| && s.presented[k] == PacketFor(link, r) && FirstInReach(s.arrived, k);
    assert s.arrived[k] == r.h.Counter;
  }

  /** With genuine packets only, the counter can only have been brought by the record. */
  lemma InReachTook(link: Link, s: State, r: Record)
    requires TraceInv(link, s) && SenderInv(s) && forall w <- s.presented :: IsPacketOf(link, s.sent, w)
    requires r in s.sent && ArrivedInReach(s, r)
    ensures Took(s, PacketFor(link, r))
  {
    hide FirstInReach, PacketFor, Decode, OpenedTo, SenderInv, Settled, Source;
    var k :| 0 <= k < |s.arrived| && s.arrived[k] == r.h.Counter && FirstInReach(s.arrived, k);
    var w := s.presented[k];
    assert w in s.presented;
    var q :| q in s.sent && w == PacketFor(link, q);
    OpenGenuine(link, q);
    SameCounterSameRecord(s, r, q);
  }

  /** When only genuine packets arrive, the counters alone decide. */
  lemma DeliveredExactlyWhenInReach(link: Link, es: seq<Event>, r: Record)
    requires Genuine(link, es) && Run(link, es).calls <= TWO_TO_64
    requires Run(link, es).opening == map[]
    ensures r in Run(link, es).delivered <==> r in Run(link, es).sent && ArrivedInReach(Run(link, es), r)
  {
    GenuineRun(link, es);
    SenderRun(link, es);
    TraceRun(link, es);
    DeliveredExactlyWhenTaken(link, es, r);
    hide Run, Took, TraceInv, SenderInv, ArrivedInReach, IsPacketOf, Genuine;
    var s := Run(link, es);
    if r in s.delivered {
      TookInReach(link, s, r);
    } else if r in s.sent && ArrivedInReach(s, r) {
      InReachTook(link, s, r);
    }
  }

  lemma SameCounterSameRecord(s: State, r: Record, q: Record)
    requires SenderInv(s) && r in s.sent && q in s.sent && r.h.Counter == q.h.Counter
    ensures r == q
  {
    var i :| 0 <= i < |s.sent| && s.sent[i] == r;
    var j :| 0 <= j < |s.sent| && s.sent[j] == q;
    assert Counters(s.sent)[i] == Counters(s.sent)[j];
  }

  /** No first copy arrives after something 128 or more counters ahead of it. */
  ghost predicate BoundedReordering(arrived: seq<uint64>) {
    forall k | 0 <= k < |arrived| && arrived[k] !in arrived[..k] :: InReach(arrived, k)
  }

  /** Bounded reordering loses nothing that arrives. */
  lemma BoundedReorderingLosesNothing(link: Link, es: seq<Event>, r: Record)
    requires Genuine(link, es) && Run(link, es).calls <= TWO_TO_64
    requires Run(link, es).opening == map[] && BoundedReordering(Run(link, es).arrived)
    ensures r in Run(link, es).delivered <==> r in Run(link, es).sent && r.h.Counter in Run(link, es).arrived
  {
    var h := Run(link, es).arrived;
    DeliveredExactlyWhenInReach(link, es, r);
    if r.h.Counter in h {
      var k := FirstIndex(h, r.h.Counter);
      assert FirstInReach(h, k);
    }
  }

  function FirstIndex(h: seq<uint64>, c: uint64): (k: nat)
    requires c in h
    ensures k < |h| && h[k] == c && c !in h[..k]
  {
    if h[0] == c then 0 else
    var k := 1 + FirstIndex(h[1..], c);
    assert h[..k] == [h[0]] + h[1..][..k - 1];
    k
  }
}
