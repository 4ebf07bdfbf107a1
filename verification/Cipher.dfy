/** Authenticated encryption of the valid window of a buffer, in place. */
module Cipher {
  import opened Words
  import opened Buffer

  const TAG_SIZE := 16
  const NONCE_SIZE := 12
  const CIPHER_CHACHA20_POLY1305: byte := 1
  const CIPHER_AES_GCM: byte := 2

  /** A keyed AEAD algorithm: arguments are nonce, additional data and text. */
  datatype Aead = Aead(seal: (seq<byte>, seq<byte>, seq<byte>) -> seq<byte>,
                       open: (seq<byte>, seq<byte>, seq<byte>) -> Option<seq<byte>>)

  /** What the packet layer relies on: the tag adds 16 bytes, and opening undoes sealing. */
  ghost predicate Lawful(a: Aead) {
    && (forall n, ad, p :: |a.seal(n, ad, p)| == |p| + 16)
    && (forall n, ad, p :: a.open(n, ad, a.seal(n, ad, p)) == Some(p))
    && (forall n, ad, c :: a.open(n, ad, c).Some? ==> |c| == |a.open(n, ad, c).value| + 16)
  }

  const ZERO_TAG: seq<byte> := seq(TAG_SIZE, _ => 0)

  /** A toy instance, which shows that the laws can hold together. */
  function ToyAead(): (a: Aead)
    ensures Lawful(a)
  {
    var a := Aead((n, ad, p) => p + ZERO_TAG,
                  (n, ad, c) => if |c| >= TAG_SIZE then Some(c[..|c| - TAG_SIZE]) else None);
    assert forall n, ad, p :: a.open(n, ad, a.seal(n, ad, p)) == Some(p) by {
      forall n: seq<byte>, ad: seq<byte>, p: seq<byte>
        ensures a.open(n, ad, a.seal(n, ad, p)) == Some(p)
      {
        assert (p + ZERO_TAG)[..|p|] == p;
      }
    }
    a
  }

  type LawfulAead = a: Aead | Lawful(a) ghost witness ToyAead()

  datatype CipherError = NoTagRoom | TooShort | Unauthentic

  /** Running the code ends normally, with an error value, or in a nil dereference. */
  datatype Outcome<+E> = Done | Failed(error: E) | Crashed

  function Nonce(counter: uint64): (n: seq<byte>)
    ensures |n| == NONCE_SIZE
  {
    LittleEndian(4, 0) + LittleEndian(8, counter)
  }

  lemma {:induction false} NonceInjective(a: uint64, b: uint64)
    ensures Nonce(a) == Nonce(b) ==> a == b
  {
    Ranges();
    if Nonce(a) == Nonce(b) {
      assert Nonce(a)[4..] == LittleEndian(8, a);
      assert Nonce(b)[4..] == LittleEndian(8, b);
      EncodingInjective(8, a, b);
    }
  }

  /** Four zero bytes, then the counter. */
  predicate NonceLayout(n: seq<byte>, counter: uint64) {
    && |n| == 12
    && n[0] == n[1] == n[2] == n[3] == 0
    && counter ==
         (n[4] as int) + 0x100 * (n[5] as int) + 0x1_0000 * (n[6] as int) + 0x100_0000 * (n[7] as int) +
         0x1_0000_0000 * ((n[8] as int) + 0x100 * (n[9] as int) + 0x1_0000 * (n[10] as int) + 0x100_0000 * (n[11] as int))
  }

  lemma NonceIsLaidOut(counter: uint64)
    ensures NonceLayout(Nonce(counter), counter)
  {
    var n := Nonce(counter);
    Ranges();
    DecodeEncode(8, counter);
    EightBytesValue(LittleEndian(8, counter));
    FourZeros();
    assert n[4..] == LittleEndian(8, counter);
    assert n[..4] == LittleEndian(4, 0);
  }

  lemma FourZeros()
    ensures LittleEndian(4, 0) == [0, 0, 0, 0]
  {
    assert LittleEndian(1, 0) == [0];
    assert LittleEndian(2, 0) == [0, 0];
    assert LittleEndian(3, 0) == [0, 0, 0];
  }

  method EncodeNonce(counter: uint64, nonce: array<byte>)
    requires nonce.Length == NONCE_SIZE
    modifies nonce
    ensures nonce[..] == Nonce(counter) && NonceLayout(nonce[..], counter)
  {
    NonceIsLaidOut(counter);
    Store(nonce, 0, LittleEndian(4, 0));
    Store(nonce, 4, LittleEndian(8, counter));
    assert nonce[..] == nonce[..4] + nonce[4..12];
  }

  /** The receiver may be nil (None), as after a session wipe. The capacity and
    * length checks come before the first use of the cipher. */
  method EncryptInPlace(c: Option<LawfulAead>, buf: PacketBuffer, counter: uint64, ad: seq<byte>)
    returns (r: Outcome<CipherError>)
    requires buf.Valid()
    modifies buf, buf.Data
    ensures buf.Valid() && buf.Offset == old(buf.Offset)
    ensures r == if old(buf.Offset + buf.Length) + 16 > buf.Data.Length then Failed(NoTagRoom)
                 else if c.None? then Crashed else Done
    ensures r.Done? ==> buf.Bytes() == c.value.seal(Nonce(counter), ad, old(buf.Bytes()))
    ensures r.Done? ==> OutsideUnchanged(old(buf.Data[..]), buf.Data[..], buf.Offset, buf.Offset + buf.Length)
    ensures !r.Done? ==> unchanged(buf) && unchanged(buf.Data)
  {
    var nonce := new byte[NONCE_SIZE](_ => 0);
    EncodeNonce(counter, nonce);
    if buf.Data.Length < buf.Offset + buf.Length + TAG_SIZE {
      return Failed(NoTagRoom);
    }
    if c.None? {
      return Crashed;
    }
    var plaintext := buf.Bytes();
    var ciphertext := c.value.seal(nonce[..], ad, plaintext);
    Store(buf.Data, buf.Offset, ciphertext);
    buf.Length := buf.Length + TAG_SIZE;
    return Done;
  }

  /** A failed Open may leave anything in the window; it keeps its place and length. */
  method DecryptInPlace(c: Option<LawfulAead>, buf: PacketBuffer, counter: uint64, ad: seq<byte>)
    returns (r: Outcome<CipherError>)
    requires buf.Valid()
    modifies buf, buf.Data
    ensures buf.Valid() && buf.Offset == old(buf.Offset)
    ensures r == if old(buf.Length) < 16 then Failed(TooShort)
                 else if c.None? then Crashed
                 else if c.value.open(Nonce(counter), ad, old(buf.Bytes())).None? then Failed(Unauthentic)
                 else Done
    ensures r.Done? ==> Some(buf.Bytes()) == c.value.open(Nonce(counter), ad, old(buf.Bytes()))
    ensures r.Done? ==> buf.Length == old(buf.Length) - 16
    ensures r.Done? ==> OutsideUnchanged(old(buf.Data[..]), buf.Data[..], buf.Offset, buf.Offset + old(buf.Length))
    ensures !r.Done? ==> unchanged(buf)
    ensures old(buf.Length) < 16 ==> unchanged(buf.Data)
  {
    if buf.Length < TAG_SIZE {
      return Failed(TooShort);
    }
    var nonce := new byte[NONCE_SIZE](_ => 0);
    EncodeNonce(counter, nonce);
    if c.None? {
      return Crashed;
    }
    var ciphertext := buf.Bytes();
    var plain := c.value.open(nonce[..], ad, ciphertext);
    if plain.None? {
      Store(buf.Data, buf.Offset, seq(buf.Length - TAG_SIZE, _ => 0));
      return Failed(Unauthentic);
    }
    Store(buf.Data, buf.Offset, plain.value);
    buf.Length := buf.Length - TAG_SIZE;
    return Done;
  }
}
