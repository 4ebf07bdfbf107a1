/** The one-round-trip handshake, over symbolic cryptography: hashes, derived keys
  * and ciphertexts are terms of a free algebra, and Diffie-Hellman commutes. */
module Noise {
  import opened Words

  const HANDSHAKE_INIT_SIZE := 32 + 48 + (12 + 16)

  /** A 32-byte value, or a ciphertext with its tag. */
  datatype Term =
    | ProtocolName                              // hash of the protocol name
    | Hash(state: Term, data: Term)
    | NextChain(chain: Term, ikm: Term)         // first HKDF output
    | TempKey(chain: Term, ikm: Term)           // second HKDF output
    | SplitFirst(chain: Term)
    | SplitSecond(chain: Term)
    | Pub(priv: nat)
    | Shared(low: nat, high: nat)               // secret of two private keys
    | SharedWith(own: nat, point: Term)         // secret with a point nobody's key made
    | LowOrder                                  // a small-order public key
    | Sealed(key: Term, ad: Term, body: Term)   // AEAD under the all-zero nonce
    | Data(bytes: seq<byte>)

  /** X25519; None is the error for an all-zero secret. */
  function SharedSecret(priv: nat, peer: Term): Option<Term> {
    match peer
    case Pub(other) => Some(if priv <= other then Shared(priv, other) else Shared(other, priv))
    case LowOrder => None
    case _ => Some(SharedWith(priv, peer))
  }

  function Open(key: Term, ad: Term, c: Term): Option<Term> {
    if c.Sealed? && c.key == key && c.ad == ad then Some(c.body) else None
  }

  /** The 4-byte index at the front of an opened payload. For a shorter one the code would
    * keep the index it had; the sizes of the two messages leave no such payload. */
  function IndexIn(body: Term): uint32 {
    Ranges();
    if body.Data? && |body.bytes| >= 4 then FromLittleEndian(body.bytes[..4]) else 0
  }

  datatype SessionKeys = SessionKeys(SendKey: Term, RecvKey: Term, SenderID: uint32, PeerID: uint32)

  /** Each end sends under the key the other receives with, and the indices cross. */
  predicate Mirrored(a: SessionKeys, b: SessionKeys) {
    && a.SendKey == b.RecvKey && a.RecvKey == b.SendKey
    && a.SenderID == b.PeerID && a.PeerID == b.SenderID
  }

  /** The 108 bytes of an initiation and the 52 of a response, by field; anything
    * shorter is Short, anything longer is read like its prefix. */
  datatype Initiation = ShortInitiation | Initiation(ephemeral: Term, sealedStatic: Term, sealedPayload: Term)
  datatype Response = ShortResponse | Response(ephemeral: Term, sealedPayload: Term)

  // Specification of the symmetric state and of the three handshake steps.

  datatype Symmetric = Symmetric(chain: Term, hash: Term) {
    function MixHash(data: Term): Symmetric { this.(hash := Hash(hash, data)) }
    function MixKey(ikm: Term): Symmetric { this.(chain := NextChain(chain, ikm)) }
  }

  function Start(responderStatic: Term): Symmetric {
    Symmetric(ProtocolName, Hash(ProtocolName, responderStatic))
  }

  function InitiationPayload(index: uint32, time: uint64): Term {
    Data(LittleEndian(4, index) + LittleEndian(8, time))
  }

  /** What creating an initiation returns, and the symmetric state it leaves. */
  function Initiate(priv: nat, ephemeral: nat, ephemPub: Term, peer: Term, payload: Term, n0: Symmetric)
    : (Option<Initiation>, Symmetric)
  {
    var n1 := n0.MixHash(ephemPub);
    match SharedSecret(ephemeral, peer)
    case None => (None, n1)
    case Some(es) =>
      var n2 := n1.MixKey(es);
      var sealedStatic := Sealed(TempKey(n1.chain, es), n2.hash, Pub(priv));
      var n3 := n2.MixHash(sealedStatic);
      match SharedSecret(priv, peer)
      case None => (None, n3)
      case Some(ss) =>
        var n4 := n3.MixKey(ss);
        var sealedPayload := Sealed(TempKey(n3.chain, ss), n4.hash, payload);
        (Some(Initiation(ephemPub, sealedStatic, sealedPayload)), n4.MixHash(sealedPayload))
  }

  /** What consuming a response returns, and the symmetric state it leaves. */
  function Finish(priv: nat, ephemeral: nat, index: uint32, n0: Symmetric, resp: Response)
    : (Option<SessionKeys>, Symmetric)
  {
    if resp.ShortResponse? then (None, n0) else
    var n1 := n0.MixHash(resp.ephemeral);
    match SharedSecret(ephemeral, resp.ephemeral)
    case None => (None, n1)
    case Some(ee) =>
      var n2 := n1.MixKey(ee);
      match SharedSecret(priv, resp.ephemeral)
      case None => (None, n2)
      case Some(se) =>
        var n3 := n2.MixKey(se);
        match Open(TempKey(n2.chain, se), n3.hash, resp.sealedPayload)
        case None => (None, n3)
        case Some(body) =>
          (Some(SessionKeys(SplitFirst(n3.chain), SplitSecond(n3.chain), index, IndexIn(body))),
           n3.MixHash(resp.sealedPayload))
  }

  datatype Answer = Answer(response: Response, keys: SessionKeys, peerStatic: Term)

  /** What consuming an initiation returns; ephemeral None is a failing generator. */
  function Respond(priv: nat, ephemeral: Option<nat>, index: uint32, msg: Initiation, n0: Symmetric)
    : (Option<Answer>, Symmetric)
  {
    if msg.ShortInitiation? then (None, n0) else
    var n1 := n0.MixHash(msg.ephemeral);
    match SharedSecret(priv, msg.ephemeral)
    case None => (None, n1)
    case Some(es) =>
      var n2 := n1.MixKey(es);
      match Open(TempKey(n1.chain, es), n2.hash, msg.sealedStatic)
      case None => (None, n2)
      case Some(peerStatic) =>
        var n3 := n2.MixHash(msg.sealedStatic);
        match SharedSecret(priv, peerStatic)
        case None => (None, n3)
        case Some(ss) =>
          var n4 := n3.MixKey(ss);
          match Open(TempKey(n3.chain, ss), n4.hash, msg.sealedPayload)
          case None => (None, n4)
          case Some(body) =>
            var n5 := n4.MixHash(msg.sealedPayload);
            if ephemeral.None? then (None, n5) else
            Reply(ephemeral.value, index, msg.ephemeral, peerStatic, IndexIn(body), n5)
  }

  /** What consuming an initiation stores in the responder, even if it fails later: the
    * initiator's static key once that opens, and its index once the payload opens. */
  function Learned(priv: nat, msg: Initiation, n0: Symmetric): (Option<Term>, Option<uint32>) {
    if msg.ShortInitiation? then (None, None) else
    var n1 := n0.MixHash(msg.ephemeral);
    match SharedSecret(priv, msg.ephemeral)
    case None => (None, None)
    case Some(es) =>
      match Open(TempKey(n1.chain, es), n1.hash, msg.sealedStatic)
      case None => (None, None)
      case Some(peerStatic) =>
        var n2 := n1.MixKey(es).MixHash(msg.sealedStatic);
        match SharedSecret(priv, peerStatic)
        case None => (Some(peerStatic), None)
        case Some(ss) =>
          match Open(TempKey(n2.chain, ss), n2.hash, msg.sealedPayload)
          case None => (Some(peerStatic), None)
          case Some(body) => (Some(peerStatic), Some(IndexIn(body)))
  }

  function Reply(ephemeral: nat, index: uint32, peerEphemeral: Term, peerStatic: Term,
                 peerIndex: uint32, n5: Symmetric): (Option<Answer>, Symmetric)
  {
    var n6 := n5.MixHash(Pub(ephemeral));
    match SharedSecret(ephemeral, peerEphemeral)
    case None => (None, n6)
    case Some(ee) =>
      var n7 := n6.MixKey(ee);
      match SharedSecret(ephemeral, peerStatic)
      case None => (None, n7)
      case Some(se) =>
        var n8 := n7.MixKey(se);
        var sealedPayload := Sealed(TempKey(n7.chain, se), n8.hash, Data(LittleEndian(4, index)));
        var keys := SessionKeys(SplitSecond(n8.chain), SplitFirst(n8.chain), index, peerIndex);
        (Some(Answer(Response(Pub(ephemeral), sealedPayload), keys, peerStatic)), n8.MixHash(sealedPayload))
  }

  // The code's objects.

  class NoiseState {
    var chainingKey: Term
    var hash: Term

    constructor ()
      ensures State() == Symmetric(ProtocolName, ProtocolName)
    {
      chainingKey, hash := ProtocolName, ProtocolName;
    }

    function State(): Symmetric
      reads this
    {
      Symmetric(chainingKey, hash)
    }

    method MixKey(ikm: Term) returns (tempKey: Term)
      modifies this
      ensures State() == old(State()).MixKey(ikm)
      ensures tempKey == TempKey(old(chainingKey), ikm)
    {
      tempKey := TempKey(chainingKey, ikm);
      chainingKey := NextChain(chainingKey, ikm);
    }

    method MixHash(data: Term)
      modifies this
      ensures State() == old(State()).MixHash(data)
    {
      hash := Hash(hash, data);
    }
  }

  /** Stands for a private key overwritten with zeros. */
  const WIPED: nat := 0

  class InitiatorHandshake {
    const staticPriv: nat
    const peerStatic: Term
    const ephemPub: Term
    const localIndex: uint32
    const noise: NoiseState
    var ephemPriv: nat
    var remoteIndex: uint32

    constructor (localStatic: nat, peerStatic: Term, localIndex: uint32, ephemeral: nat)
      ensures staticPriv == localStatic && this.peerStatic == peerStatic && this.localIndex == localIndex
      ensures ephemPriv == ephemeral && ephemPub == Pub(ephemeral) && remoteIndex == 0
      ensures fresh(noise) && noise.State() == Start(peerStatic)
    {
      staticPriv, this.peerStatic, this.localIndex := localStatic, peerStatic, localIndex;
      ephemPriv, ephemPub, remoteIndex := ephemeral, Pub(ephemeral), 0;
      noise := new NoiseState();
      new;
      noise.MixHash(peerStatic);
    }

    method CreateInitiation(time: uint64) returns (msg: Option<Initiation>)
      modifies noise
      ensures (msg, noise.State()) ==
        Initiate(staticPriv, ephemPriv, ephemPub, peerStatic, InitiationPayload(localIndex, time), old(noise.State()))
    {
      noise.MixHash(ephemPub);
      var es := SharedSecret(ephemPriv, peerStatic);
      if es.None? {
        return None;
      }
      var key1 := noise.MixKey(es.value);
      var sealedStatic := Sealed(key1, noise.hash, Pub(staticPriv));
      noise.MixHash(sealedStatic);
      var ss := SharedSecret(staticPriv, peerStatic);
      if ss.None? {
        return None;
      }
      var key2 := noise.MixKey(ss.value);
      var sealedPayload := Sealed(key2, noise.hash, InitiationPayload(localIndex, time));
      noise.MixHash(sealedPayload);
      return Some(Initiation(ephemPub, sealedStatic, sealedPayload));
    }

    method ConsumeResponse(resp: Response) returns (keys: Option<SessionKeys>)
      modifies this, noise
      ensures (keys, noise.State()) ==
        Finish(staticPriv, old(ephemPriv), localIndex, old(noise.State()), resp)
      ensures keys.Some? ==> remoteIndex == keys.value.PeerID && ephemPriv == WIPED
      ensures keys.None? ==> unchanged(this)
    {
      if resp.ShortResponse? {
        return None;
      }
      noise.MixHash(resp.ephemeral);
      var ee := SharedSecret(ephemPriv, resp.ephemeral);
      if ee.None? {
        return None;
      }
      var _ := noise.MixKey(ee.value);
      var se := SharedSecret(staticPriv, resp.ephemeral);
      if se.None? {
        return None;
      }
      var key := noise.MixKey(se.value);
      var payload := Open(key, noise.hash, resp.sealedPayload);
      if payload.None? {
        return None;
      }
      noise.MixHash(resp.sealedPayload);
      remoteIndex := IndexIn(payload.value);
      keys := Some(SessionKeys(SplitFirst(noise.chainingKey), SplitSecond(noise.chainingKey), localIndex, remoteIndex));
      ephemPriv := WIPED;
    }
  }

  class ResponderHandshake {
    const staticPriv: nat
    const localIndex: uint32
    const noise: NoiseState
    var remoteIndex: uint32
    var peerStatic: Term

    constructor (localStatic: nat, localIndex: uint32)
      ensures staticPriv == localStatic && this.localIndex == localIndex && remoteIndex == 0
      ensures fresh(noise) && noise.State() == Start(Pub(localStatic))
    {
      staticPriv, this.localIndex, remoteIndex, peerStatic := localStatic, localIndex, 0, Data([]);
      noise := new NoiseState();
      new;
      noise.MixHash(Pub(localStatic));
    }

    method ConsumeInitiation(msg: Initiation, ephemeral: Option<nat>) returns (answer: Option<Answer>)
      modifies this, noise
      ensures (answer, noise.State()) == Respond(staticPriv, ephemeral, localIndex, msg, old(noise.State()))
      ensures var learned := Learned(staticPriv, msg, old(noise.State()));
        && peerStatic == (if learned.0.Some? then learned.0.value else old(peerStatic))
        && remoteIndex == (if learned.1.Some? then learned.1.value else old(remoteIndex))
      ensures answer.Some? ==> peerStatic == answer.value.peerStatic && remoteIndex == answer.value.keys.PeerID
    {
      if msg.ShortInitiation? {
        return None;
      }
      noise.MixHash(msg.ephemeral);
      var es := SharedSecret(staticPriv, msg.ephemeral);
      if es.None? {
        return None;
      }
      var key1 := noise.MixKey(es.value);
      var openedStatic := Open(key1, noise.hash, msg.sealedStatic);
      if openedStatic.None? {
        return None;
      }
      peerStatic := openedStatic.value;
      noise.MixHash(msg.sealedStatic);
      var ss := SharedSecret(staticPriv, peerStatic);
      if ss.None? {
        return None;
      }
      var key2 := noise.MixKey(ss.value);
      var payload := Open(key2, noise.hash, msg.sealedPayload);
      if payload.None? {
        return None;
      }
      noise.MixHash(msg.sealedPayload);
      remoteIndex := IndexIn(payload.value);
      if ephemeral.None? {
        return None;
      }
      noise.MixHash(Pub(ephemeral.value));
      var ee := SharedSecret(ephemeral.value, msg.ephemeral);
      if ee.None? {
        return None;
      }
      var _ := noise.MixKey(ee.value);
      var se := SharedSecret(ephemeral.value, peerStatic);
      if se.None? {
        return None;
      }
      var key3 := noise.MixKey(se.value);
      var sealedPayload := Sealed(key3, noise.hash, Data(LittleEndian(4, localIndex)));
      noise.MixHash(sealedPayload);
      var keys := SessionKeys(SplitSecond(noise.chainingKey), SplitFirst(noise.chainingKey), localIndex, remoteIndex);
      return Some(Answer(Response(Pub(ephemeral.value), sealedPayload), keys, peerStatic));
    }
  }
}
