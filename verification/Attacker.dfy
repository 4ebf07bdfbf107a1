/** An attacker who is the network: it sees every message, computes what it can, and
  * delivers what it likes. Whatever honest ends accept was still made by honest ends. */
module Attacker {
  import opened Words
  import opened Noise
  import opened Agreement

  /** What happens, in order. The attacker chooses everything, also which honest runs
    * begin; an answer needs a message that the attacker can deliver. */
  datatype Move =
    | Begin(initiator: Initiator)
    | Consume(responder: Responder, msg: Initiation)
    | Make(t: Term)

  /** The terms that go over the network or are computed by the attacker. A private key
    * in secrets is unknown to the attacker; it has all others. */
  function Knowledge(secrets: set<nat>, moves: seq<Move>): set<Term> {
    if moves == [] then {} else
    var known := Knowledge(secrets, moves[..|moves| - 1]);
    match moves[|moves| - 1]
    case Begin(i) => known + Sent(Initiated(i).0)
    case Consume(r, msg) => if Sent(Some(msg)) <= known then known + Returned(Answered(r, msg)) else known
    case Make(t) => if Composes(secrets, known, t) || Opens(known, t) then known + {t} else known
  }

  function Sent(msg: Option<Initiation>): set<Term> {
    if msg.None? || msg.value.ShortInitiation? then {}
    else {msg.value.ephemeral, msg.value.sealedStatic, msg.value.sealedPayload}
  }

  function Returned(answer: Option<Answer>): set<Term> {
    if answer.None? || answer.value.response.ShortResponse? then {}
    else {answer.value.response.ephemeral, answer.value.response.sealedPayload}
  }

  /** t is public, or made in one step from known terms. */
  predicate Composes(secrets: set<nat>, known: set<Term>, t: Term) {
    match t
    case ProtocolName => true
    case LowOrder => true
    case Data(_) => true
    case Pub(_) => true
    case Hash(s, d) => s in known && d in known
    case NextChain(c, ikm) => c in known && ikm in known
    case TempKey(c, ikm) => c in known && ikm in known
    case SplitFirst(c) => c in known
    case SplitSecond(c) => c in known
    case Shared(a, b) => a !in secrets || b !in secrets
    case SharedWith(own, point) => own !in secrets && point in known
    case Sealed(k, ad, body) => k in known && ad in known && body in known
  }

  /** t is the body of a known ciphertext whose key is known. */
  predicate Opens(known: set<Term>, t: Term) {
    exists c <- known :: c.Sealed? && c.key in known && c.body == t
  }

  /** The ciphertexts that honest runs made. */
  function SealedIn(m: Move): set<Term> {
    match m
    case Begin(i) => set c <- Sent(Initiated(i).0) | c.Sealed?
    case Consume(r, msg) => set c <- Returned(Answered(r, msg)) | c.Sealed?
    case Make(_) => {}
  }

  function SealedBefore(moves: seq<Move>): set<Term> {
    if moves == [] then {} else SealedBefore(moves[..|moves| - 1]) + SealedIn(moves[|moves| - 1])
  }

  /** A bound on what the attacker can know: nothing derived from a secret of two
    * unknown keys, and no ciphertext under such a key except those in made. */
  predicate Bounded(secrets: set<nat>, made: set<Term>, t: Term) {
    match t
    case NextChain(c, ikm) => Bounded(secrets, made, c) && Bounded(secrets, made, ikm)
    case TempKey(c, ikm) => Bounded(secrets, made, c) && Bounded(secrets, made, ikm)
    case SplitFirst(c) => Bounded(secrets, made, c)
    case SplitSecond(c) => Bounded(secrets, made, c)
    case Shared(a, b) => a !in secrets || b !in secrets
    case Sealed(k, _, body) => t in made || (Bounded(secrets, made, k) && Bounded(secrets, made, body))
    case _ => true
  }

  lemma {:induction false} MoreMade(secrets: set<nat>, made: set<Term>, more: set<Term>, t: Term)
    requires made <= more && Bounded(secrets, made, t)
    ensures Bounded(secrets, more, t)
  {
    match t {
      case NextChain(c, ikm) => MoreMade(secrets, made, more, c); MoreMade(secrets, made, more, ikm);
      case TempKey(c, ikm) => MoreMade(secrets, made, more, c); MoreMade(secrets, made, more, ikm);
      case SplitFirst(c) => MoreMade(secrets, made, more, c);
      case SplitSecond(c) => MoreMade(secrets, made, more, c);
      case Sealed(k, _, body) =>
        if t !in made {
          MoreMade(secrets, made, more, k);
          MoreMade(secrets, made, more, body);
        }
      case _ =>
    }
  }

  /** How deep a chaining key is; honest seals use depths 0, 1 and 3. */
  function ChainDepth(c: Term): nat {
    if c.NextChain? then 1 + ChainDepth(c.chain) else 0
  }

  /** What an initiator seals. */
  lemma InitiationSeals(i: Initiator)
    requires Initiated(i).0.Some?
    ensures var m := Initiated(i).0.value;
            && m.Initiation? && m.ephemeral == Pub(i.ephemeral)
            && m.sealedStatic.Sealed? && m.sealedStatic.key.TempKey? && ChainDepth(m.sealedStatic.key.chain) == 0
            && m.sealedStatic.body == Pub(i.own)
            && m.sealedPayload.Sealed? && m.sealedPayload.key.TempKey? && ChainDepth(m.sealedPayload.key.chain) == 1
            && m.sealedPayload.body == InitiationPayload(i.index, i.time)
            && m.sealedPayload.ad == Hash(Hash(Hash(ProtocolName, i.point), m.ephemeral), m.sealedStatic)
  {
    var c := Initiated(i).0.value.sealedPayload.key.chain;
    assert c.NextChain? && c.chain == ProtocolName;
  }

  /** What a responder seals, and under which keys it opened the message. */
  lemma AnswerSeals(r: Responder, msg: Initiation)
    requires Answered(r, msg).Some?
    ensures var resp := Answered(r, msg).value.response;
            && resp.Response? && resp.ephemeral == Pub(r.ephemeral)
            && resp.sealedPayload.Sealed? && resp.sealedPayload.body == Data(LittleEndian(4, r.index))
            && resp.sealedPayload.key.TempKey? && ChainDepth(resp.sealedPayload.key.chain) == 3
    ensures msg.Initiation? && msg.sealedPayload.Sealed? && msg.sealedStatic.Sealed?
    ensures var key := msg.sealedPayload.key;
            && key.TempKey? && ChainDepth(key.chain) == 1
            && Some(key.ikm) == SharedSecret(r.own, Answered(r, msg).value.peerStatic)
    ensures msg.sealedPayload.ad == Hash(Hash(Hash(ProtocolName, Pub(r.own)), msg.ephemeral), msg.sealedStatic)
    ensures Answered(r, msg).value.peerStatic == msg.sealedStatic.body
  {
    var c, d := msg.sealedPayload.key.chain, Answered(r, msg).value.response.sealedPayload.key.chain;
    assert c.NextChain? && c.chain == ProtocolName;
    assert ChainDepth(d.chain.chain) == 1;
    assert ChainDepth(d.chain) == 2;
  }

  /** Honest messages stay within the bound once their ciphertexts count as made. */
  lemma HonestIsBounded(secrets: set<nat>, made: set<Term>, m: Move)
    requires SealedIn(m) <= made
    ensures m.Begin? ==> forall t <- Sent(Initiated(m.initiator).0) :: Bounded(secrets, made, t)
    ensures m.Consume? ==> forall t <- Returned(Answered(m.responder, m.msg)) :: Bounded(secrets, made, t)
  {
    match m {
      case Begin(i) =>
        if Initiated(i).0.Some? {
          InitiationSeals(i);
          hide Initiated;
        }
      case Consume(r, msg) =>
        if Answered(r, msg).Some? {
          AnswerSeals(r, msg);
          hide Answered;
        }
      case _ =>
    }
  }

  lemma SealedBodiesArePublic(m: Move, c: Term)
    requires c in SealedIn(m)
    ensures c.Sealed? && (c.body.Pub? || c.body.Data?)
  {
    match m {
      case Begin(i) =>
        InitiationSeals(i);
        hide Initiated;
      case Consume(r, msg) =>
        AnswerSeals(r, msg);
        hide Answered;
    }
  }

  lemma {:induction false} WhoSealed(moves: seq<Move>, c: Term)
    requires c in SealedBefore(moves)
    ensures exists m <- moves :: c in SealedIn(m)
  {
    var p, last := moves[..|moves| - 1], moves[|moves| - 1];
    assert last in moves;
    if c !in SealedIn(last) {
      WhoSealed(p, c);
      var m :| m in p && c in SealedIn(m);
      assert m in moves;
    }
  }

  lemma MakingStaysBounded(secrets: set<nat>, moves: seq<Move>, known: set<Term>, t: Term)
    requires forall k <- known :: Bounded(secrets, SealedBefore(moves), k)
    requires Composes(secrets, known, t) || Opens(known, t)
    ensures Bounded(secrets, SealedBefore(moves), t)
  {
    if !Composes(secrets, known, t) {
      var c :| c in known && c.Sealed? && c.key in known && c.body == t;
      if c in SealedBefore(moves) {
        WhoSealed(moves, c);
        var m :| m in moves && c in SealedIn(m);
        SealedBodiesArePublic(m, c);
      }
    }
  }

  lemma {:induction false} KnowledgeIsBounded(secrets: set<nat>, moves: seq<Move>)
    ensures forall t <- Knowledge(secrets, moves) :: Bounded(secrets, SealedBefore(moves), t)
  {
    if moves != [] {
      var p, last := moves[..|moves| - 1], moves[|moves| - 1];
      var before, made := SealedBefore(p), SealedBefore(moves);
      KnowledgeIsBounded(secrets, p);
      HonestIsBounded(secrets, made, last);
      hide SealedIn, Sent, Returned;
      forall t <- Knowledge(secrets, moves) ensures Bounded(secrets, made, t) {
        if t in Knowledge(secrets, p) {
          MoreMade(secrets, before, made, t);
        } else if last.Make? {
          MakingStaysBounded(secrets, p, Knowledge(secrets, p), t);
          MoreMade(secrets, before, made, t);
        }
      }
    }
  }

  /** The key that opens an accepted response is out of the attacker's reach. */
  lemma {:induction false} ChainIsSecret(secrets: set<nat>, made: set<Term>, i: Initiator, peer: nat, tried: seq<Response>)
    requires i.own in secrets && peer in secrets && i.point == Pub(peer)
    ensures !Bounded(secrets, made, AfterAttempts(i, tried).chain)
    ensures ChainDepth(AfterAttempts(i, tried).chain) >= 2
  {
    if tried == [] {
      var c := Initiated(i).1.chain;
      assert c.NextChain? && Some(c.ikm) == SharedSecret(i.own, Pub(peer));
      assert ChainDepth(c.chain) == 1;
    } else {
      ChainIsSecret(secrets, made, i, peer, tried[..|tried| - 1]);
      FinishExtends(i.own, i.ephemeral, i.index, AfterAttempts(i, tried[..|tried| - 1]), tried[|tried| - 1]);
    }
  }

  /** A response mixes none, one or two values into the chain. */
  lemma FinishExtends(own: nat, ephemeral: nat, index: uint32, n0: Symmetric, resp: Response)
    ensures var c := Finish(own, ephemeral, index, n0, resp).1.chain;
            c == n0.chain || (c.NextChain? && (c.chain == n0.chain || (c.chain.NextChain? && c.chain.chain == n0.chain)))
    ensures Finish(own, ephemeral, index, n0, resp).0.Some? ==>
              && resp.Response? && resp.sealedPayload.Sealed? && resp.sealedPayload.key.TempKey?
              && var c := resp.sealedPayload.key.chain; c.NextChain? && c.chain == n0.chain
  {
  }

  /** Against this attacker, however many runs it mixes and whatever it makes: a
    * response that an initiator accepts was made by a run of the responder that it
    * named, in answer to exactly its message, and the two ends match. Only the two
    * static keys need to be secret. */
  lemma AcceptedMeansAnswered(secrets: set<nat>, moves: seq<Move>, i: Initiator, peer: nat,
                              tried: seq<Response>, resp: Response)
    requires i.own in secrets && peer in secrets && i.point == Pub(peer)
    requires Initiated(i).0.Some? && Finished(i, tried, resp).Some?
    requires resp.Response? && resp.sealedPayload in Knowledge(secrets, moves)
    ensures exists m <- moves :: m.Consume? && m.responder.own == peer &&
              Matched(i, Finished(i, tried, resp).value, resp, m.responder, m.msg)
  {
    var made := SealedBefore(moves);
    var c := resp.sealedPayload;
    KnowledgeIsBounded(secrets, moves);
    ChainIsSecret(secrets, made, i, peer, tried);
    FinishExtends(i.own, i.ephemeral, i.index, AfterAttempts(i, tried), resp);
    hide Finished, Initiated, Answered, AfterAttempts, Knowledge, SealedBefore, Matched;
    OnlySealed(secrets, made, c);
    WhoSealed(moves, c);
    var m :| m in moves && c in SealedIn(m);
    SealDepth(m, c);
    AnswerSeals(m.responder, m.msg);
    MatchedHere(i, tried, resp, m.responder, m.msg);
  }

  /** A known ciphertext under an unknown key was made by an honest run. */
  lemma OnlySealed(secrets: set<nat>, made: set<Term>, c: Term)
    requires c.Sealed? && Bounded(secrets, made, c)
    requires c.key.TempKey? && (!Bounded(secrets, made, c.key.chain) || !Bounded(secrets, made, c.key.ikm))
    ensures c in made
  {
  }

  lemma SecretOfTwo(secrets: set<nat>, made: set<Term>, a: nat, b: nat)
    requires a in secrets && b in secrets
    ensures SharedSecret(a, Pub(b)).Some? && !Bounded(secrets, made, SharedSecret(a, Pub(b)).value)
  {
  }

  lemma MatchedHere(i: Initiator, tried: seq<Response>, resp: Response, r: Responder, msg: Initiation)
    requires Initiated(i).0.Some? && Answered(r, msg).Some? && Finished(i, tried, resp).Some?
    requires resp.Response? && resp.sealedPayload == Answered(r, msg).value.response.sealedPayload
    ensures Matched(i, Finished(i, tried, resp).value, resp, r, msg) && i.point == Pub(r.own)
  {
    AcceptanceImpliesMatch(i, tried, resp, r, msg);
  }

  /** And the other way: a message that a responder answers as coming from an honest
    * initiator was made by a run of that initiator, for that responder. It may be a
    * replay. */
  lemma AnsweredMeansBegun(secrets: set<nat>, moves: seq<Move>, r: Responder, peer: nat, msg: Initiation)
    requires r.own in secrets && peer in secrets
    requires Answered(r, msg).Some? && Answered(r, msg).value.peerStatic == Pub(peer)
    requires Sent(Some(msg)) <= Knowledge(secrets, moves)
    ensures exists m <- moves :: m.Begin? && Initiated(m.initiator).0 == Some(msg) &&
              m.initiator.own == peer && m.initiator.point == Pub(r.own)
  {
    hide Initiated, Answered, Knowledge, SealedBefore, SealedIn, Bounded, SharedSecret;
    AnswerSeals(r, msg);
    var made, c := SealedBefore(moves), msg.sealedPayload;
    KnowledgeIsBounded(secrets, moves);
    assert c in Sent(Some(msg));
    SecretOfTwo(secrets, made, r.own, peer);
    OnlySealed(secrets, made, c);
    WhoSealed(moves, c);
    var m :| m in moves && c in SealedIn(m);
    SealDepth(m, c);
    SealedAlike(m.initiator, r, msg);
  }

  /** Who made a ciphertext shows in the depth of its key. */
  lemma SealDepth(m: Move, c: Term)
    requires c in SealedIn(m)
    ensures c.Sealed? && c.key.TempKey? && !m.Make?
    ensures if m.Begin? then ChainDepth(c.key.chain) <= 1 else ChainDepth(c.key.chain) == 3
  {
    match m {
      case Begin(i) =>
        InitiationSeals(i);
        hide Initiated;
      case Consume(r, msg) =>
        AnswerSeals(r, msg);
        hide Answered;
    }
  }

  /** The payload's transcript fixes the whole message. */
  lemma SealedAlike(i: Initiator, r: Responder, msg: Initiation)
    requires Answered(r, msg).Some? && msg.Initiation? && msg.sealedPayload in SealedIn(Begin(i))
    ensures Initiated(i).0 == Some(msg) && i.point == Pub(r.own)
    ensures Answered(r, msg).value.peerStatic == Pub(i.own)
  {
    InitiationSeals(i);
    AnswerSeals(r, msg);
    hide Initiated, Answered;
    assert msg.sealedPayload == Initiated(i).0.value.sealedPayload;
  }

  /** The attacker may also just deliver: then it does see the response. */
  lemma DeliveryIsPossible(secrets: set<nat>, i: Initiator, r: Responder)
    requires i.point == Pub(r.own)
    ensures Initiated(i).0.Some? && Answered(r, Initiated(i).0.value).Some?
    ensures var msg := Initiated(i).0.value;
            Answered(r, msg).value.response.Response? &&
            Answered(r, msg).value.response.sealedPayload in Knowledge(secrets, [Begin(i), Consume(r, msg)])
  {
    HonestRunCompletes(i, r);
    var msg := Initiated(i).0.value;
    AnswerSeals(r, msg);
    hide Initiated, Answered;
    var begun, both := [Begin(i)], [Begin(i), Consume(r, msg)];
    assert begun[..0] == [] && Knowledge(secrets, begun) == {} + Sent(Some(msg));
    assert both[..1] == begun;
  }
}
