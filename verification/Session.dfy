/** A tunnel session: sealing under a fetch-and-add counter, opening behind the
  * replay window, and the table of sessions. */
module Session {
  import opened Words
  import opened Buffer
  import opened Packet
  import opened Cipher
  import opened Replay
  import Noise

  /** The library's AEAD constructors, by suite and key. */
  type Library = (byte, Noise.Term) -> LawfulAead

  function NewAead(lib: Library, suite: byte, key: Noise.Term): Option<LawfulAead> {
    if suite == CIPHER_CHACHA20_POLY1305 || suite == CIPHER_AES_GCM then Some(lib(suite, key)) else None
  }

  /** The packet that carries payload p under header h. */
  function Wire(a: LawfulAead, h: Header, p: seq<byte>): (w: seq<byte>)
    ensures |w| == |p| + 30
  {
    Encode(h) + a.seal(Nonce(h.Counter), Encode(h), p)
  }

  /** What the receiver makes of a body behind header h. */
  function Unwire(a: LawfulAead, h: Header, body: seq<byte>): Option<seq<byte>> {
    if |body| < TAG_SIZE then None else a.open(Nonce(h.Counter), Encode(h), body)
  }

  lemma WireParts(a: LawfulAead, h: Header, p: seq<byte>)
    ensures var body := a.seal(Nonce(h.Counter), Encode(h), p);
            Wire(a, h, p) == Encode(h) + body && Wire(a, h, p)[HEADER_SIZE..] == body
  {
  }

  /** The header is recovered from the packet, and the body opens to the payload. */
  lemma WireRoundTrip(a: LawfulAead, h: Header, p: seq<byte>)
    ensures Decode(Wire(a, h, p)) == h
    ensures Unwire(a, h, Wire(a, h, p)[HEADER_SIZE..]) == Some(p)
  {
    var sealedBody := a.seal(Nonce(h.Counter), Encode(h), p);
    DecodeAfterEncode(h, sealedBody);
    assert Wire(a, h, p)[HEADER_SIZE..] == sealedBody;
  }

  /** The packet, without reference to its parts' functions: behind the header, the payload
    * sealed under the header's own 14 bytes as additional data and, as nonce, four zeros
    * and the header's counter. */
  lemma WireLayout(a: LawfulAead, h: Header, p: seq<byte>)
    ensures var w := Wire(a, h, p);
            && |w| == |p| + 30 && Layout(w, h)
            && w[14..] == a.seal([0, 0, 0, 0] + w[6..14], w[..14], p)
  {
    var w, body := Wire(a, h, p), a.seal(Nonce(h.Counter), Encode(h), p);
    WireParts(a, h, p);
    LayoutDetermines(w, h);
    NonceFromHeader(h);
    assert w[..14] == Encode(h) && w[6..14] == w[..14][6..14];
  }

  /** And so for opening. */
  lemma UnwireLayout(a: LawfulAead, w: seq<byte>)
    requires |w| >= 14
    ensures Unwire(a, Decode(w), w[14..]) ==
              if |w| < 30 then None else a.open([0, 0, 0, 0] + w[6..14], w[..14], w[14..])
  {
    LayoutDetermines(w, Decode(w));
    NonceFromHeader(Decode(w));
    assert w[6..14] == w[..14][6..14];
  }

  lemma NonceFromHeader(h: Header)
    ensures Nonce(h.Counter) == [0, 0, 0, 0] + Encode(h)[6..14]
  {
    FourZeros();
    assert Encode(h)[6..14] == LittleEndian(8, h.Counter);
  }

  datatype SealError = TagDoesNotFit | HeaderDoesNotFit
  datatype OpenError = Replayed | BadCiphertext(why: CipherError)

  /** The least buffer size in which a window of this place and length can be sealed. */
  function RoomNeeded(offset: int, length: int): int {
    (if offset >= HEADER_SIZE then offset else HEADER_SIZE) + length + TAG_SIZE
  }

  /** How sealing ends, by the state of the cipher and of the buffer. */
  function SealOutcome(live: bool, offset: int, length: int, size: int): (r: Outcome<SealError>)
    requires 0 <= length
    ensures r.Done? <==> live && RoomNeeded(offset, length) <= size
    ensures r.Done? <==> live && (if offset >= 14 then offset else 14) + length + 16 <= size
    ensures r == Failed(TagDoesNotFit) <==> offset + length + 16 > size
    ensures r.Crashed? <==> !live && offset + length + 16 <= size
  {
    if offset + length + TAG_SIZE > size then Failed(TagDoesNotFit)
    else if !live then Crashed
    else if offset < HEADER_SIZE && length + TAG_SIZE + HEADER_SIZE > size then Failed(HeaderDoesNotFit)
    else Done
  }

  /** Every packet a TUN device reads, at the offsets its drivers use, can be sealed. */
  lemma TunPacketsFit(offset: nat, length: nat)
    requires offset <= 14 && length <= 1420
    ensures RoomNeeded(offset, length) <= DEFAULT_BUFFER_SIZE == 2048
  {
  }

  class Session {
    const LocalIndex: uint32
    const RemoteIndex: uint32
    const replay: ReplayWindow
    var SendCipher: Option<LawfulAead>
    var RecvCipher: Option<LawfulAead>
    var sendCounter: uint64

    /** Not wiped. */
    ghost predicate Live()
      reads `SendCipher, `RecvCipher, replay
    {
      SendCipher.Some? && RecvCipher.Some? && replay.Whole()
    }

    ghost predicate Wiped()
      reads `SendCipher, `RecvCipher
    {
      SendCipher.None? && RecvCipher.None?
    }

    constructor (keys: Noise.SessionKeys, send: LawfulAead, recv: LawfulAead)
      ensures Live() && fresh(replay) && replay.accepted == replay.marked == {}
      ensures LocalIndex == keys.SenderID && RemoteIndex == keys.PeerID && sendCounter == 0
      ensures SendCipher == Some(send) && RecvCipher == Some(recv)
    {
      LocalIndex, RemoteIndex := keys.SenderID, keys.PeerID;
      SendCipher, RecvCipher := Some(send), Some(recv);
      sendCounter := 0;
      replay := new ReplayWindow();
    }

    function HeaderFor(counter: uint64, msgType: byte, flags: byte): Header {
      Header(msgType, flags, RemoteIndex, counter)
    }

    /** The counter moves on every call. The packet is made exactly when the room
      * suffices and the session is not wiped. */
    method EncryptPacket(buf: PacketBuffer, msgType: byte, flags: byte) returns (r: Outcome<SealError>)
      requires buf.Valid()
      modifies `sendCounter, buf, buf.Data
      ensures buf.Valid()
      ensures sendCounter == (old(sendCounter) + 1) % TWO_TO_64
      ensures r == SealOutcome(SendCipher.Some?, old(buf.Offset), old(buf.Length), buf.Data.Length)
      ensures r.Done? ==>
        buf.Bytes() == Wire(SendCipher.value, HeaderFor(old(sendCounter), msgType, flags), old(buf.Bytes()))
      ensures r.Done? ==> buf.Offset == if old(buf.Offset) >= 14 then old(buf.Offset) - 14 else 0
      ensures r.Done? ==> OutsideUnchanged(old(buf.Data[..]), buf.Data[..], buf.Offset, buf.Offset + buf.Length)
      ensures r == Failed(HeaderDoesNotFit) ==>
        && buf.Offset == old(buf.Offset)
        && buf.Bytes() ==
           Wire(SendCipher.value, HeaderFor(old(sendCounter), msgType, flags), old(buf.Bytes()))[HEADER_SIZE..]
      ensures r == Failed(TagDoesNotFit) || r.Crashed? ==> unchanged(buf) && unchanged(buf.Data)
    {
      hide OutsideUnchanged, Encode, Wire, Nonce, PacketBuffer.Bytes;
      ghost var was, plain := buf.Data[..], buf.Bytes();
      var counter := sendCounter;
      sendCounter := (sendCounter + 1) % TWO_TO_64;
      var h := HeaderFor(counter, msgType, flags);
      var ad := HeaderBytes(h);
      var e := EncryptInPlace(SendCipher, buf, counter, ad);
      match e {
        case Failed(_) => return Failed(TagDoesNotFit);
        case Crashed => return Crashed;
        case Done =>
      }
      WireParts(SendCipher.value, h, plain);
      ghost var mid, at, end := buf.Data[..], buf.Offset, buf.Offset + buf.Length;
      var ok := PrependHeader(buf, h);
      if !ok {
        return Failed(HeaderDoesNotFit);
      }
      OutsideTwice(was, mid, buf.Data[..], at, end, buf.Offset, buf.Offset + buf.Length);
      return Done;
    }

    /** How opening ends, by the window, the body and the cipher. */
    ghost function OpenOutcome(h: Header, body: seq<byte>): (r: Outcome<OpenError>)
      reads this, replay
    {
      if !Passes(replay.accepted, replay.marked, h.Counter) then Failed(Replayed)
      else if |body| < TAG_SIZE then Failed(BadCiphertext(TooShort))
      else if RecvCipher.None? then Crashed
      else if Unwire(RecvCipher.value, h, body).None? then Failed(BadCiphertext(Unauthentic))
      else Done
    }

    /** The window counts the packet first, whatever the cipher says afterwards; a wiped
      * session counts too, and then has no cipher. */
    method DecryptPacket(buf: PacketBuffer, h: Header) returns (r: Outcome<OpenError>)
      requires replay.Valid() && buf.Valid()
      modifies replay, buf, buf.Data
      ensures replay.Valid() && buf.Valid() && buf.Offset == old(buf.Offset)
      ensures r == old(OpenOutcome(h, buf.Bytes()))
      ensures replay.accepted == old(replay.accepted) + (if r == Failed(Replayed) then {} else {h.Counter})
      ensures replay.marked == old(replay.marked) + (if r == Failed(Replayed) then {} else {h.Counter})
      ensures r.Done? ==> Some(buf.Bytes()) == Unwire(RecvCipher.value, h, old(buf.Bytes()))
      ensures !r.Done? ==> unchanged(buf)
    {
      hide ReplayWindow.Valid, Passes;
      var unplayed := replay.CheckAndSet(h.Counter);
      if !unplayed {
        return Failed(Replayed);
      }
      var ad := HeaderBytes(h);
      var d := DecryptInPlace(RecvCipher, buf, h.Counter, ad);
      match d {
        case Failed(why) => return Failed(BadCiphertext(why));
        case Crashed => return Crashed;
        case Done => return Done;
      }
    }

    method Wipe()
      requires replay.Valid()
      modifies this, replay
      ensures Wiped() && sendCounter == old(sendCounter)
      ensures replay.Valid() && replay.marked == {}
      ensures replay.accepted == old(replay.accepted) && replay.maxSeq == old(replay.maxSeq)
    {
      SendCipher, RecvCipher := None, None;
      replay.ClearBitmap();
    }
  }

  method NewSession(lib: Library, keys: Noise.SessionKeys, suite: byte) returns (s: Option<Session>)
    ensures s.Some? <==> suite == 1 || suite == 2
    ensures s.Some? ==>
      && fresh(s.value) && fresh(s.value.replay) && s.value.Live() && s.value.replay.accepted == s.value.replay.marked == {}
      && s.value.LocalIndex == keys.SenderID && s.value.RemoteIndex == keys.PeerID && s.value.sendCounter == 0
      && s.value.SendCipher == Some(lib(suite, keys.SendKey)) && s.value.RecvCipher == Some(lib(suite, keys.RecvKey))
  {
    var send := NewAead(lib, suite, keys.SendKey);
    if send.None? {
      return None;
    }
    var recv := NewAead(lib, suite, keys.RecvKey);
    if recv.None? {
      return None;
    }
    var session := new Session(keys, send.value, recv.value);
    return Some(session);
  }

  /** Sealing, stripping and opening in one buffer restores it, for every place and
    * length that fits, and hands over the header that was sealed. */
  method RoundTrip(sender: Session, receiver: Session, buf: PacketBuffer, msgType: byte, flags: byte)
    returns (h: Header)
    requires sender != receiver && sender.Live() && receiver.Live() && buf.Valid()
    requires sender.SendCipher == receiver.RecvCipher
    requires Admits(receiver.replay.accepted, sender.sendCounter)
    requires RoomNeeded(buf.Offset, buf.Length) <= buf.Data.Length
    modifies sender`sendCounter, receiver.replay, buf, buf.Data
    ensures buf.Valid() && buf.Bytes() == old(buf.Bytes())
    ensures buf.Offset == RoomNeeded(old(buf.Offset), 0) - TAG_SIZE
    ensures h == Header(msgType, flags, sender.RemoteIndex, old(sender.sendCounter))
    ensures !Admits(receiver.replay.accepted, h.Counter)
  {
    hide Wire, Unwire, OutsideUnchanged, Replay.ReplayWindow.Valid;
    ghost var payload := buf.Bytes();
    h := sender.HeaderFor(sender.sendCounter, msgType, flags);
    var e := sender.EncryptPacket(buf, msgType, flags);
    ghost var wire := buf.Bytes();
    WireRoundTrip(sender.SendCipher.value, h, payload);
    var stripped := StripHeader(buf);
    assert buf.Bytes() == wire[HEADER_SIZE..];
    var d := receiver.DecryptPacket(buf, stripped.value);
    h := stripped.value;
  }

  /** The sessions in memory, by local index. */
  class SessionManager {
    var sessions: map<uint32, Session>
    ghost var members: set<Session>        // every session ever registered
    ghost var windows: set<ReplayWindow>   // and their windows

    constructor ()
      ensures Valid() && sessions == map[] && members == {} && windows == {}
    {
      sessions, members, windows := map[], {}, {};
    }

    /** Every session in the table sits under its own index and is not wiped; every
      * session ever registered has a window of its own. */
    ghost predicate Valid()
      reads this, members`SendCipher, members`RecvCipher, windows
    {
      && (forall i <- sessions :: sessions[i] in members && sessions[i].LocalIndex == i)
      && (forall i <- sessions :: sessions[i].replay in windows && sessions[i].Live())
      && Apart()
    }

    ghost predicate Apart()
      reads `members, `windows, windows
    {
      && (forall s <- members :: s.replay in windows && s.replay.Valid())
      && (forall s, t | s in members && t in members && s != t :: s.replay != t.replay)
    }

    /** A session already under the index is dropped from the table, not wiped. */
    method Register(s: Session)
      requires Valid() && s.Live() && (s in members || s.replay !in windows)
      modifies this
      ensures Valid() && sessions == old(sessions)[s.LocalIndex := s]
      ensures members == old(members) + {s} && windows == old(windows) + {s.replay}
    {
      hide Session.Live, ReplayWindow.Valid, ReplayWindow.Whole;
      assert s.replay.Valid() by { Whole(s); }
      sessions := sessions[s.LocalIndex := s];
      members, windows := members + {s}, windows + {s.replay};
    }

    lemma Whole(s: Session)
      requires s.Live()
      ensures s.replay.Valid()
    {
    }

    method Get(index: uint32) returns (s: Session?)
      ensures s == if index in sessions then sessions[index] else null
    {
      s := if index in sessions then sessions[index] else null;
    }

    /** DecryptPacket on any session ever registered. */
    method Decrypt(s: Session, buf: PacketBuffer, h: Header) returns (r: Outcome<OpenError>)
      requires Valid() && buf.Valid() && s in members
      modifies s.replay, buf, buf.Data
      ensures Valid() && buf.Valid() && buf.Offset == old(buf.Offset)
      ensures r == old(s.OpenOutcome(h, buf.Bytes()))
      ensures s.replay.accepted == old(s.replay.accepted) + (if r == Failed(Replayed) then {} else {h.Counter})
      ensures s.replay.marked == old(s.replay.marked) + (if r == Failed(Replayed) then {} else {h.Counter})
      ensures r.Done? ==> Some(buf.Bytes()) == Unwire(s.RecvCipher.value, h, old(buf.Bytes()))
    {
      hide ReplayWindow.Valid, Session.OpenOutcome, Unwire;
      r := s.DecryptPacket(buf, h);
    }

    /** Wiping a session that is no longer in the table keeps the table well formed. */
    method WipeMember(s: Session)
      requires Valid() && s in members && forall i <- sessions :: sessions[i] != s
      modifies s, s.replay
      ensures Valid() && s.Wiped() && s.replay.marked == {}
      ensures s.sendCounter == old(s.sendCounter) && s.replay.accepted == old(s.replay.accepted)
    {
      hide ReplayWindow.Valid;
      s.Wipe();
    }

    method Remove(index: uint32)
      requires Valid()
      modifies this`sessions
      modifies if index in sessions then {sessions[index], sessions[index].replay} else {}
      ensures Valid() && sessions == old(sessions) - {index}
      ensures index in old(sessions) ==>
        var s := old(sessions)[index];
        && s.Wiped() && s.replay.marked == {}
        && s.sendCounter == old(s.sendCounter) && s.replay.accepted == old(s.replay.accepted)
    {
      Members();
      hide Valid, Session.Wiped;
      if index in sessions {
        RemoveSession(sessions[index]);
      } else {
        assert sessions - {index} == sessions;
      }
    }

    method RemoveSession(s: Session)
      requires Valid() && s.LocalIndex in sessions && sessions[s.LocalIndex] == s
      modifies this`sessions, s, s.replay
      ensures Valid() && sessions == old(sessions) - {s.LocalIndex}
      ensures s.Wiped() && s.replay.marked == {}
      ensures s.sendCounter == old(s.sendCounter) && s.replay.accepted == old(s.replay.accepted)
    {
      hide Session.Live, ReplayWindow.Valid, Apart;
      sessions := sessions - {s.LocalIndex};
      WipeMember(s);
    }

    method Clear()
      requires Valid()
      modifies this`sessions, members, windows
      ensures Valid() && sessions == map[]
      ensures forall i <- old(sessions) :: old(sessions)[i].Wiped()
    {
      hide Valid, Session.Wiped;
      ghost var all := sessions;
      assert InTable(all) by { Members(); }
      while sessions != map[]
        invariant Valid() && InTable(all)
        invariant forall i <- sessions :: i in all && sessions[i] == all[i]
        invariant forall i <- all :: i in sessions || all[i].Wiped()
        decreases |sessions|
      {
        var idx :| idx in sessions;
        Remove(idx);
      }
    }

    ghost predicate InTable(table: map<uint32, Session>)
      reads `members, `windows
    {
      forall i <- table :: table[i] in members && table[i].replay in windows
    }

    lemma Members()
      requires Valid()
      ensures forall i <- sessions :: sessions[i].LocalIndex == i && sessions[i].Live()
      ensures forall i <- sessions :: sessions[i] in members && sessions[i].replay in windows
      ensures forall s <- members :: s.replay in windows && s.replay.Valid()
      ensures forall s, t | s in members && t in members && s != t :: s.replay != t.replay
    {
    }
  }
}
