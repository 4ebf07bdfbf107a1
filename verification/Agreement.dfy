/** What the handshake guarantees to any number of concurrent runs whose messages
  * are lost, replayed, altered and misrouted. */
module Agreement {
  import opened Words
  import opened Noise

  /** Everything that distinguishes one run of each role; "point" is the responder
    * key the initiator means to reach. */
  datatype Initiator = Initiator(own: nat, ephemeral: nat, point: Term, index: uint32, time: uint64)
  datatype Responder = Responder(own: nat, ephemeral: nat, index: uint32)

  function Initiated(i: Initiator): (Option<Initiation>, Symmetric) {
    Initiate(i.own, i.ephemeral, Pub(i.ephemeral), i.point, InitiationPayload(i.index, i.time), Start(i.point))
  }

  function Answered(r: Responder, msg: Initiation): Option<Answer> {
    Respond(r.own, Some(r.ephemeral), r.index, msg, Start(Pub(r.own))).0
  }

  /** The symmetric state of an initiator after a list of responses that it refused. */
  function AfterAttempts(i: Initiator, tried: seq<Response>): Symmetric {
    if tried == [] then Initiated(i).1
    else Finish(i.own, i.ephemeral, i.index, AfterAttempts(i, tried[..|tried| - 1]), tried[|tried| - 1]).1
  }

  /** What the initiator makes of resp, having refused the responses in tried. */
  function Finished(i: Initiator, tried: seq<Response>, resp: Response): Option<SessionKeys> {
    Finish(i.own, i.ephemeral, i.index, AfterAttempts(i, tried), resp).0
  }

  lemma SecretsCommute(a: nat, b: nat)
    ensures SharedSecret(a, Pub(b)) == SharedSecret(b, Pub(a))
  {
  }

  lemma IndexRoundTrip(index: uint32, rest: seq<byte>)
    ensures IndexIn(Data(LittleEndian(4, index) + rest)) == index
  {
    Ranges();
    DecodeEncode(4, index);
    assert (LittleEndian(4, index) + rest)[..4] == LittleEndian(4, index);
  }

  // Which secrets the keys are made of.

  /** A shared secret tells which two private keys made it, and no more. */
  lemma SecretOfTwoKeys(a: nat, b: nat, c: nat, d: nat)
    ensures SharedSecret(a, Pub(b)).Some? && SharedSecret(a, LowOrder).None?
    ensures SharedSecret(a, Pub(b)) == SharedSecret(c, Pub(d)) <==> (a == c && b == d) || (a == d && b == c)
  {
  }

  /** The initiation, in full: es is the secret of the initiator's ephemeral key and the
    * responder's static one, ss that of the two static keys. */
  lemma InitiationIs(i: Initiator, responder: nat)
    requires i.point == Pub(responder)
    ensures var es, ss := SharedSecret(i.ephemeral, Pub(responder)).value, SharedSecret(i.own, Pub(responder)).value;
            var h := Hash(Hash(ProtocolName, Pub(responder)), Pub(i.ephemeral));
            var sealedStatic := Sealed(TempKey(ProtocolName, es), h, Pub(i.own));
            var sealedPayload := Sealed(TempKey(NextChain(ProtocolName, es), ss), Hash(h, sealedStatic),
                                        InitiationPayload(i.index, i.time));
            && Initiated(i).0 == Some(Initiation(Pub(i.ephemeral), sealedStatic, sealedPayload))
            && Initiated(i).1 == Symmetric(NextChain(NextChain(ProtocolName, es), ss), Hash(Hash(h, sealedStatic), sealedPayload))
  {
  }

  /** When a responder answers, on any message, and with what: es, ss, ee and se are the
    * secrets of its static and its ephemeral key with the initiator's ephemeral and
    * static ones, and the keys come from all four, in this order. */
  lemma AnswerIs(r: Responder, msg: Initiation)
    ensures Answered(r, msg).Some? <==>
              && msg.Initiation?
              && var es := SharedSecret(r.own, msg.ephemeral);
              && var h := Hash(Hash(ProtocolName, Pub(r.own)), msg.ephemeral);
              && es.Some? && msg.sealedStatic.Sealed?
              && msg.sealedStatic.key == TempKey(ProtocolName, es.value) && msg.sealedStatic.ad == h
              && var ss := SharedSecret(r.own, msg.sealedStatic.body);
              && ss.Some? && msg.sealedPayload.Sealed?
              && msg.sealedPayload.key == TempKey(NextChain(ProtocolName, es.value), ss.value)
              && msg.sealedPayload.ad == Hash(h, msg.sealedStatic)
              && SharedSecret(r.ephemeral, msg.ephemeral).Some? && SharedSecret(r.ephemeral, msg.sealedStatic.body).Some?
    ensures Answered(r, msg).Some? ==>
              var a, peer := Answered(r, msg).value, msg.sealedStatic.body;
              var es, ss := SharedSecret(r.own, msg.ephemeral).value, SharedSecret(r.own, peer).value;
              var ee, se := SharedSecret(r.ephemeral, msg.ephemeral).value, SharedSecret(r.ephemeral, peer).value;
              var c3 := NextChain(NextChain(NextChain(ProtocolName, es), ss), ee);
              && a.peerStatic == peer && a.response.Response? && a.response.ephemeral == Pub(r.ephemeral)
              && a.response.sealedPayload.Sealed? && a.response.sealedPayload.key == TempKey(c3, se)
              && a.keys == SessionKeys(SplitSecond(NextChain(c3, se)), SplitFirst(NextChain(c3, se)),
                                       r.index, IndexIn(msg.sealedPayload.body))
  {
  }

  /** When an initiator that refused the responses in tried accepts one, and with what. */
  lemma FinishIs(i: Initiator, tried: seq<Response>, resp: Response)
    ensures var n := AfterAttempts(i, tried);
            Finished(i, tried, resp).Some? <==>
              && resp.Response?
              && var ee, se := SharedSecret(i.ephemeral, resp.ephemeral), SharedSecret(i.own, resp.ephemeral);
              && ee.Some? && se.Some? && resp.sealedPayload.Sealed?
              && resp.sealedPayload.key == TempKey(NextChain(n.chain, ee.value), se.value)
              && resp.sealedPayload.ad == Hash(n.hash, resp.ephemeral)
    ensures Finished(i, tried, resp).Some? ==>
              var ee, se := SharedSecret(i.ephemeral, resp.ephemeral).value, SharedSecret(i.own, resp.ephemeral).value;
              var c := NextChain(NextChain(AfterAttempts(i, tried).chain, ee), se);
              Finished(i, tried, resp).value ==
                SessionKeys(SplitFirst(c), SplitSecond(c), i.index, IndexIn(resp.sealedPayload.body))
  {
    hide AfterAttempts;
  }

  /** What a refused response leaves in the initiator: its ephemeral key in the hash, and in
    * the chain those of the two secrets that exist. */
  lemma RefusedIs(i: Initiator, tried: seq<Response>, resp: Response)
    requires Finished(i, tried, resp).None?
    ensures var n, m := AfterAttempts(i, tried), AfterAttempts(i, tried + [resp]);
            if resp.ShortResponse? then m == n
            else
              var ee, se := SharedSecret(i.ephemeral, resp.ephemeral), SharedSecret(i.own, resp.ephemeral);
              && m.hash == Hash(n.hash, resp.ephemeral)
              && m.chain == if ee.None? then n.chain
                            else if se.None? then NextChain(n.chain, ee.value)
                            else NextChain(NextChain(n.chain, ee.value), se.value)
  {
    assert (tried + [resp])[..|tried|] == tried;
    hide SharedSecret;
  }

  /** A responder key of small order makes no initiation. */
  lemma NoInitiation(i: Initiator)
    requires i.point == LowOrder
    ensures Initiated(i).0 == None
    ensures Initiated(i).1 == Symmetric(ProtocolName, Hash(Hash(ProtocolName, LowOrder), Pub(i.ephemeral)))
  {
  }

  /** What a responder keeps of a message, answered or not: the peer's key when that part
    * opens, and the index when the payload opens. */
  lemma LearnedIs(own: nat, msg: Initiation)
    ensures var l := Learned(own, msg, Start(Pub(own)));
            var known := msg.Initiation? && SharedSecret(own, msg.ephemeral).Some? && msg.sealedStatic.Sealed?
              && msg.sealedStatic.key == TempKey(ProtocolName, SharedSecret(own, msg.ephemeral).value)
              && msg.sealedStatic.ad == Hash(Hash(ProtocolName, Pub(own)), msg.ephemeral);
            && l.0 == (if known then Some(msg.sealedStatic.body) else None)
            && l.1 ==
                 if known && SharedSecret(own, msg.sealedStatic.body).Some? && msg.sealedPayload.Sealed?
                   && msg.sealedPayload.key == TempKey(NextChain(ProtocolName, SharedSecret(own, msg.ephemeral).value),
                                                       SharedSecret(own, msg.sealedStatic.body).value)
                   && msg.sealedPayload.ad == Hash(msg.sealedStatic.ad, msg.sealedStatic)
                 then Some(IndexIn(msg.sealedPayload.body)) else None
  {
  }

  /** An honest handshake, in full: the four secrets, by the private keys of both ends,
    * and the keys and indices that each end gets. */
  lemma HonestKeys(i: Initiator, r: Responder)
    requires i.point == Pub(r.own)
    ensures Initiated(i).0.Some? && Answered(r, Initiated(i).0.value).Some?
    ensures var a := Answered(r, Initiated(i).0.value).value;
            var es, ss := SharedSecret(i.ephemeral, Pub(r.own)).value, SharedSecret(i.own, Pub(r.own)).value;
            var ee, se := SharedSecret(i.ephemeral, Pub(r.ephemeral)).value, SharedSecret(i.own, Pub(r.ephemeral)).value;
            var c3 := NextChain(NextChain(NextChain(ProtocolName, es), ss), ee);
            var c4 := NextChain(c3, se);
            && a.keys == SessionKeys(SplitSecond(c4), SplitFirst(c4), r.index, i.index)
            && a.response.Response? && a.response.sealedPayload.Sealed? && a.response.sealedPayload.key == TempKey(c3, se)
            && a.response.sealedPayload.body == Data(LittleEndian(4, r.index))
            && Finished(i, [], a.response) == Some(SessionKeys(SplitFirst(c4), SplitSecond(c4), i.index, r.index))
  {
    HonestRunCompletes(i, r);
    InitiationIs(i, r.own);
    var msg := Initiated(i).0.value;
    AnswerIs(r, msg);
    AnsweredTranscript(r, msg);
    var resp := Answered(r, msg).value.response;
    FinishIs(i, [], resp);
    hide Initiated, Answered, Finished, SharedSecret, IndexIn;
    SecretsCommute(r.own, i.ephemeral);
    SecretsCommute(r.own, i.own);
    SecretsCommute(r.ephemeral, i.ephemeral);
    SecretsCommute(r.ephemeral, i.own);
    IndexRoundTrip(i.index, LittleEndian(8, i.time));
    IndexRoundTrip(r.index, []);
    assert LittleEndian(4, r.index) + [] == LittleEndian(4, r.index);
    assert AfterAttempts(i, []) == Initiated(i).1;
  }

  /** The payloads, byte by byte: a little-endian index, and in an initiation the time. */
  lemma PayloadLayout(index: uint32, time: uint64, body: seq<byte>)
    requires |body| >= 4
    ensures InitiationPayload(index, time).Data? && |InitiationPayload(index, time).bytes| == 12
    ensures InitiationPayload(index, time).bytes[..4] == LittleEndian(4, index)
    ensures IndexIn(Data(body)) ==
              (body[0] as int) + 0x100 * (body[1] as int) + 0x1_0000 * (body[2] as int) + 0x100_0000 * (body[3] as int)
    ensures IndexIn(Data(LittleEndian(4, index))) == index
    ensures FromLittleEndian(InitiationPayload(index, time).bytes[4..]) == time
  {
    FourBytesValue(body[..4]);
    assert body[..4][4..] == [];
    IndexRoundTrip(index, []);
    assert LittleEndian(4, index) + [] == LittleEndian(4, index);
    Ranges();
    DecodeEncode(8, time);
    assert InitiationPayload(index, time).bytes[4..] == LittleEndian(8, time);
  }

  /** The number of values mixed into a hash. */
  function Depth(h: Term): nat {
    if h.Hash? then 1 + Depth(h.state) else 0
  }

  function FullLength(tried: seq<Response>): nat {
    if tried == [] then 0
    else FullLength(tried[..|tried| - 1]) + if tried[|tried| - 1].ShortResponse? then 0 else 1
  }

  /** Every refused full-length response stays mixed into the initiator's hash. */
  lemma {:induction false} RefusalsDeepenHash(i: Initiator, tried: seq<Response>)
    requires Initiated(i).0.Some?
    ensures Depth(AfterAttempts(i, tried).hash) >= 4 + FullLength(tried)
    ensures FullLength(tried) == 0 ==> AfterAttempts(i, tried) == Initiated(i).1
  {
    if tried == [] {
      InitiatedDepth(i);
    } else {
      RefusalsDeepenHash(i, tried[..|tried| - 1]);
    }
  }

  /** Every response in the list was refused. */
  predicate Refused(i: Initiator, tried: seq<Response>) {
    tried == [] ||
    (Refused(i, tried[..|tried| - 1]) && Finished(i, tried[..|tried| - 1], tried[|tried| - 1]).None?)
  }

  /** A hash that has taken in the ephemeral key of every full-length response. */
  function Absorbed(hash: Term, tried: seq<Response>): Term {
    if tried == [] then hash
    else
      var h, last := Absorbed(hash, tried[..|tried| - 1]), tried[|tried| - 1];
      if last.ShortResponse? then h else Hash(h, last.ephemeral)
  }

  /** The ephemeral key of every refused full-length response stays in the initiator's
    * transcript hash, in order, and nothing else is added. */
  lemma {:induction false} RefusalsStayInHash(i: Initiator, tried: seq<Response>)
    requires Refused(i, tried)
    ensures AfterAttempts(i, tried).hash == Absorbed(Initiated(i).1.hash, tried)
  {
    if tried != [] {
      RefusalsStayInHash(i, tried[..|tried| - 1]);
    }
  }

  lemma InitiatedDepth(i: Initiator)
    requires Initiated(i).0.Some?
    ensures var m := Initiated(i).0.value;
            Initiated(i).1.hash ==
              Hash(Hash(Hash(Hash(ProtocolName, i.point), m.ephemeral), m.sealedStatic), m.sealedPayload)
    ensures Initiated(i).0.value.Initiation? && Initiated(i).0.value.ephemeral == Pub(i.ephemeral)
    ensures var m := Initiated(i).0.value;
            && m.sealedStatic.Sealed? && m.sealedStatic.body == Pub(i.own)
            && m.sealedPayload.Sealed? && m.sealedPayload.body == InitiationPayload(i.index, i.time)
    ensures Depth(Initiated(i).1.hash) == 4
  {
    var h := Initiated(i).1.hash;
    assert Depth(h.state.state.state) == 1;
    assert Depth(h.state.state) == 2;
  }

  /** The responder's transcript just before it makes its ephemeral key. */
  lemma AnsweredTranscript(r: Responder, msg: Initiation)
    requires Answered(r, msg).Some?
    ensures msg.Initiation? && Answered(r, msg).value.response.Response?
    ensures msg.sealedStatic.Sealed? && msg.sealedPayload.Sealed?
    ensures Answered(r, msg).value.peerStatic == msg.sealedStatic.body
    ensures Answered(r, msg).value.keys.PeerID == IndexIn(msg.sealedPayload.body)
    ensures var resp := Answered(r, msg).value.response;
            && resp.ephemeral == Pub(r.ephemeral)
            && resp.sealedPayload.Sealed?
            && resp.sealedPayload.body == Data(LittleEndian(4, r.index))
            && resp.sealedPayload.ad ==
                 Hash(Hash(Hash(Hash(Hash(ProtocolName, Pub(r.own)), msg.ephemeral), msg.sealedStatic), msg.sealedPayload),
                      Pub(r.ephemeral))
  {
  }

  /** The split keys and the sealing key come from one chain. */
  lemma AnsweredChain(r: Responder, msg: Initiation)
    requires Answered(r, msg).Some?
    ensures var a := Answered(r, msg).value; var key := a.response.sealedPayload.key;
            && key.TempKey?
            && a.keys.RecvKey == SplitFirst(NextChain(key.chain, key.ikm))
            && a.keys.SendKey == SplitSecond(NextChain(key.chain, key.ikm))
            && a.keys.SenderID == r.index
  {
  }

  lemma FinishedChain(i: Initiator, tried: seq<Response>, resp: Response)
    requires Finished(i, tried, resp).Some?
    ensures resp.Response? && resp.sealedPayload.Sealed?
    ensures var k := Finished(i, tried, resp).value; var key := resp.sealedPayload.key;
            && key.TempKey?
            && k == SessionKeys(SplitFirst(NextChain(key.chain, key.ikm)), SplitSecond(NextChain(key.chain, key.ikm)),
                                i.index, IndexIn(resp.sealedPayload.body))
            && resp.sealedPayload.ad == Hash(AfterAttempts(i, tried).hash, resp.ephemeral)
  {
  }

  /** A completed handshake: both ends hold mirrored keys, know each other's static
    * key and saw the same messages. */
  ghost predicate Matched(i: Initiator, keys: SessionKeys, resp: Response, r: Responder, msg: Initiation) {
    && Initiated(i).0 == Some(msg)
    && Answered(r, msg).Some?
    && Answered(r, msg).value.response == resp
    && Mirrored(keys, Answered(r, msg).value.keys)
    && keys.SenderID == i.index && keys.PeerID == r.index
    && i.point == Pub(r.own) && Answered(r, msg).value.peerStatic == Pub(i.own)
  }

  /** Whatever the network did: if an initiator accepts a response whose payload was
    * sealed by some responder run, that run consumed exactly this initiator's
    * message, and the two ends match. */
  lemma AcceptanceImpliesMatch(i: Initiator, tried: seq<Response>, resp: Response, r: Responder, msg: Initiation)
    requires Initiated(i).0.Some? && Answered(r, msg).Some?
    requires Finished(i, tried, resp).Some?
    requires resp.Response? && resp.sealedPayload == Answered(r, msg).value.response.sealedPayload
    ensures Matched(i, Finished(i, tried, resp).value, resp, r, msg)
    ensures FullLength(tried) == 0
  {
    hide Initiate, Respond, Finish, AfterAttempts, FullLength;
    InitiatedDepth(i);
    RefusalsDeepenHash(i, tried);
    AnsweredTranscript(r, msg);
    AnsweredChain(r, msg);
    FinishedChain(i, tried, resp);
    var h := AfterAttempts(i, tried).hash;
    assert h == Hash(Hash(Hash(Hash(ProtocolName, Pub(r.own)), msg.ephemeral), msg.sealedStatic), msg.sealedPayload);
    assert Depth(h.state.state.state) == 1;
    assert Depth(h.state.state) == 2;
    IndexRoundTrip(r.index, []);
    assert LittleEndian(4, r.index) + [] == LittleEndian(4, r.index);
    IndexRoundTrip(i.index, LittleEndian(8, i.time));
  }

  /** Two honest ends whose messages are delivered complete the handshake. */
  lemma HonestRunCompletes(i: Initiator, r: Responder)
    requires i.point == Pub(r.own)
    ensures Initiated(i).0.Some?
    ensures Answered(r, Initiated(i).0.value).Some?
    ensures Finished(i, [], Answered(r, Initiated(i).0.value).value.response).Some?
  {
    SecretsCommute(i.ephemeral, r.own);
    SecretsCommute(i.own, r.own);
    SecretsCommute(r.ephemeral, i.ephemeral);
    SecretsCommute(r.ephemeral, i.own);
  }

  /** Exactly when a responder's response is accepted: it answers this initiator's
    * message, and no full-length response was refused before it. */
  lemma AcceptedExactlyWhen(i: Initiator, tried: seq<Response>, r: Responder, msg: Initiation)
    requires Initiated(i).0.Some? && Answered(r, msg).Some?
    ensures Finished(i, tried, Answered(r, msg).value.response).Some? <==>
              msg == Initiated(i).0.value && FullLength(tried) == 0
  {
    var resp := Answered(r, msg).value.response;
    if Finished(i, tried, resp).Some? {
      AcceptanceImpliesMatch(i, tried, resp, r, msg);
    } else if msg == Initiated(i).0.value && FullLength(tried) == 0 {
      RefusalsDeepenHash(i, tried);
      AnsweredTranscript(r, msg);
      InitiatedDepth(i);
      AnsweredOwnKey(i, r);
      HonestRunCompletes(i, r);
    }
  }

  /** Only the responder whose key the initiator named can answer it. */
  lemma AnsweredOwnKey(i: Initiator, r: Responder)
    requires Initiated(i).0.Some? && Answered(r, Initiated(i).0.value).Some?
    ensures i.point == Pub(r.own)
  {
  }

  /** A responder run with the message it consumed, and an initiator run with the
    * response it accepted after refusing others. */
  datatype Answering = Answering(run: Responder, msg: Initiation)
  datatype Accepting = Accepting(run: Initiator, refused: seq<Response>, resp: Response)

  /** Any number of completed runs of both roles. */
  datatype World = World(accepting: seq<Accepting>, answering: seq<Answering>)

  /** Every logged run did complete, and no two made the same ephemeral key. */
  ghost predicate Possible(w: World) {
    && (forall x <- w.accepting :: Initiated(x.run).0.Some? && Finished(x.run, x.refused, x.resp).Some?)
    && (forall y <- w.answering :: Answered(y.run, y.msg).Some?)
    && (forall a, b | 0 <= a < b < |w.accepting| :: w.accepting[a].run.ephemeral != w.accepting[b].run.ephemeral)
    && (forall a, b | 0 <= a < b < |w.answering| :: w.answering[a].run.ephemeral != w.answering[b].run.ephemeral)
  }

  /** The response that x accepted carries the payload that y sealed. */
  ghost predicate SealedBy(x: Accepting, y: Answering) {
    && x.resp.Response?
    && Answered(y.run, y.msg).Some?
    && Answered(y.run, y.msg).value.response.Response?
    && x.resp.sealedPayload == Answered(y.run, y.msg).value.response.sealedPayload
  }

  /** Two honest ends whose messages are delivered make such a world, and match. */
  lemma HonestEndsMatch(i: Initiator, r: Responder)
    requires i.point == Pub(r.own)
    ensures Initiated(i).0.Some? && Answered(r, Initiated(i).0.value).Some?
    ensures var msg := Initiated(i).0.value; var resp := Answered(r, msg).value.response;
            var x, y := Accepting(i, [], resp), Answering(r, msg);
            && Possible(World([x], [y])) && SealedBy(x, y)
            && Matched(i, Finished(i, [], resp).value, resp, r, msg)
  {
    HonestRunCompletes(i, r);
    var msg := Initiated(i).0.value;
    AnsweredTranscript(r, msg);
    AcceptanceImpliesMatch(i, [], Answered(r, msg).value.response, r, msg);
    hide Initiate, Respond, Finish;
  }

  /** Acceptance pairs initiator runs with responder runs one to one. */
  lemma PairingIsOneToOne(w: World, a: nat, a': nat, b: nat, b': nat)
    requires Possible(w)
    requires a < |w.accepting| && a' < |w.accepting| && b < |w.answering| && b' < |w.answering|
    requires SealedBy(w.accepting[a], w.answering[b]) && SealedBy(w.accepting[a'], w.answering[b'])
    ensures a == a' <==> b == b'
  {
    hide Initiate, Respond, Finish;
    var x, x', y, y' := w.accepting[a], w.accepting[a'], w.answering[b], w.answering[b'];
    assert x in w.accepting && x' in w.accepting && y in w.answering && y' in w.answering;
    AcceptanceImpliesMatch(x.run, x.refused, x.resp, y.run, y.msg);
    AcceptanceImpliesMatch(x'.run, x'.refused, x'.resp, y'.run, y'.msg);
    InitiatedDepth(x.run);
    InitiatedDepth(x'.run);
    AnsweredTranscript(y.run, y.msg);
    AnsweredTranscript(y'.run, y'.msg);
    assert y.run.ephemeral == y'.run.ephemeral <==> x.resp.ephemeral == x'.resp.ephemeral;
    assert x.run.ephemeral == x'.run.ephemeral <==> y.msg.ephemeral == y'.msg.ephemeral;
  }
}
