/** Padding a packet to a multiple of a block size, and removing it. */
module Padding {
  import opened Words
  import opened Buffer

  const DEFAULT_BLOCK_SIZE := 128
  const MAX_BLOCK_SIZE := 512

  datatype PadResult = Padded | NoRoom | RandomFailed

  /** The block size that is used for a requested one. */
  function Effective(blockSize: int): (b: int)
    ensures 0 < b <= MAX_BLOCK_SIZE
  {
    if blockSize <= 0 then DEFAULT_BLOCK_SIZE
    else if blockSize > MAX_BLOCK_SIZE then MAX_BLOCK_SIZE
    else blockSize
  }

  /** A request between 1 and 512 is used as it is; one that is not positive gives 128,
    * and one that is too great 512. */
  lemma EffectiveIs(blockSize: int)
    ensures 1 <= blockSize <= 512 ==> Effective(blockSize) == blockSize
    ensures blockSize <= 0 ==> Effective(blockSize) == 128
    ensures blockSize > 512 ==> Effective(blockSize) == 512
  {
  }

  /** m is the least multiple of b strictly above n. */
  ghost predicate LeastMultipleAbove(n: int, b: int, m: int)
    requires b > 0
  {
    m % b == 0 && n < m <= n + b
  }

  lemma {:induction false} ProductAwayFromZero(b: int, k: int)
    requires b > 0 && k != 0
    ensures if k > 0 then b * k >= b else b * k <= -b
    decreases if k > 0 then k else -k
  {
    if k > 1 {
      ProductAwayFromZero(b, k - 1);
      assert b * k == b * (k - 1) + b;
    } else if k < -1 {
      ProductAwayFromZero(b, k + 1);
      assert b * k == b * (k + 1) - b;
    }
  }

  /** A multiple of b closer to 0 than b is 0. */
  lemma SmallMultiple(b: int, k: int)
    requires b > 0 && -b < b * k < b
    ensures k == 0
  {
    if k != 0 {
      ProductAwayFromZero(b, k);
    }
  }

  lemma {:induction false} LeastMultipleUnique(n: int, b: int, m: int, m': int)
    requires b > 0 && LeastMultipleAbove(n, b, m) && LeastMultipleAbove(n, b, m')
    ensures m == m'
  {
    var q, q' := m / b, m' / b;
    assert m == b * q && m' == b * q';
    assert b * (q - q') == m - m';
    SmallMultiple(b, q - q');
  }

  lemma MultipleOf(b: int, q: int)
    requires b > 0
    ensures (b * q) % b == 0
  {
    var r, d := (b * q) % b, (b * q) / b;
    assert b * q == b * d + r;
    assert b * (q - d) == r;
    SmallMultiple(b, q - d);
  }

  function PadLen(length: nat, b: int): (p: nat)
    requires b > 0
    ensures p < b
  {
    var rem := (length + 1) % b;
    if rem != 0 then b - rem else 0
  }

  /** The padded length is the least multiple of the block size above the length. */
  lemma PadsToLeastMultiple(length: nat, b: int)
    requires b > 0
    ensures LeastMultipleAbove(length, b, length + PadLen(length, b) + 1)
  {
    var n := length + 1;
    if n % b != 0 {
      var q := n / b;
      assert n == b * q + n % b;
      assert length + PadLen(length, b) + 1 == b * (q + 1);
      MultipleOf(b, q + 1);
    }
  }

  // Padding and unpadding a byte string.

  function Pad(payload: seq<byte>, b: int, noise: seq<byte>): (s: seq<byte>)
    requires b > 0 && |noise| == PadLen(|payload|, b)
  {
    payload + noise + [|noise| % 256]
  }

  function Unpad(s: seq<byte>): (payload: Option<seq<byte>>) {
    if |s| < 1 || s[|s| - 1] + 1 > |s| then None else Some(s[..|s| - 1 - s[|s| - 1]])
  }

  /** Unpadding leaves 256 bytes too many for every 256 of padding. */
  lemma UnpadAfterPad(payload: seq<byte>, b: int, noise: seq<byte>)
    requires b > 0 && |noise| == PadLen(|payload|, b)
    ensures Unpad(Pad(payload, b, noise)) == Some(payload + noise[..256 * (|noise| / 256)])
  {
    hide PadLen;
    var s, p := Pad(payload, b, noise), |noise|;
    assert p == 256 * (p / 256) + p % 256;
    assert s[..|payload| + 256 * (p / 256)] == payload + noise[..256 * (p / 256)];
  }

  /** Exactly when unpadding succeeds, and with what: the last byte is the number of bytes
    * removed before it. */
  lemma UnpadExactly(s: seq<byte>, payload: seq<byte>)
    ensures Unpad(s) == Some(payload) <==> payload < s && |s| == |payload| + 1 + (s[|s| - 1] as int)
    ensures Unpad(s) == None <==> |s| == 0 || (s[|s| - 1] as int) + 1 > |s|
  {
    if payload < s {
      assert payload == s[..|payload|];
    }
  }

  lemma PadLenOfEmpty(b: int)
    requires b > 1
    ensures PadLen(0, b) == b - 1
  {
  }

  ghost predicate Restores(b: int, payload: seq<byte>, noise: seq<byte>)
    requires b > 0
  {
    |noise| == PadLen(|payload|, b) ==> Unpad(Pad(payload, b, noise)) == Some(payload)
  }

  /** The round trip gives back every packet, whatever the noise, exactly for block
    * sizes up to 256. */
  lemma RestoresAllExactlyUpTo256(blockSize: int)
    ensures (forall payload: seq<byte>, noise: seq<byte> :: Restores(Effective(blockSize), payload, noise)) <==>
              Effective(blockSize) <= 256
  {
    hide PadLen, Effective, Pad, Unpad;
    var b := Effective(blockSize);
    if b <= 256 {
      forall payload: seq<byte>, noise: seq<byte> ensures Restores(b, payload, noise) {
        if |noise| == PadLen(|payload|, b) {
          UnpadAfterPad(payload, b, noise);
          assert payload + noise[..0] == payload;
        }
      }
    } else {
      var noise: seq<byte> := seq(b - 1, _ => 0);
      PadLenOfEmpty(b);
      UnpadAfterPad([], b, noise);
      assert |noise[..256 * ((b - 1) / 256)]| > 0;
      assert !Restores(b, [], noise);
    }
  }

  // In place.

  /** noise is what the random source yields; it fails when it yields too little, and
    * may have written what it did yield. */
  method PadPacket(buf: PacketBuffer, blockSize: int, noise: seq<byte>) returns (r: PadResult)
    requires buf.Valid()
    modifies buf, buf.Data
    ensures buf.Valid() && buf.Offset == old(buf.Offset)
    ensures var p := PadLen(old(buf.Length), Effective(blockSize));
            && (r == NoRoom <==> old(buf.Offset + buf.Length) + p + 1 > buf.Data.Length)
            && (r == RandomFailed <==> r != NoRoom && |noise| < p)
            && (r == Padded ==> buf.Bytes() == Pad(old(buf.Bytes()), Effective(blockSize), noise[..p]))
            && (r != NoRoom ==>
                  OutsideUnchanged(old(buf.Data[..]), buf.Data[..], old(buf.Offset + buf.Length), old(buf.Offset + buf.Length) + p + 1))
    ensures r == Padded ==>
      && (1 <= blockSize <= 512 ==> LeastMultipleAbove(old(buf.Length), blockSize, buf.Length))
      && (blockSize <= 0 ==> LeastMultipleAbove(old(buf.Length), 128, buf.Length))
      && (blockSize > 512 ==> LeastMultipleAbove(old(buf.Length), 512, buf.Length))
      && buf.Bytes()[buf.Length - 1] == (buf.Length - old(buf.Length) - 1) % 256
    ensures r != Padded ==> unchanged(buf) && buf.Bytes() == old(buf.Bytes())
    ensures r == NoRoom ==> unchanged(buf.Data)
  {
    hide LeastMultipleAbove;
    EffectiveIs(blockSize);
    PadsToLeastMultiple(buf.Length, Effective(blockSize));
    hide PadLen, Effective, OutsideUnchanged, PacketBuffer.Bytes;
    var padLen := PaddingFor(buf.Length, blockSize);
    if buf.Offset + buf.Length + padLen + 1 > buf.Data.Length {
      return NoRoom;
    }
    var enough := AppendPadding(buf, padLen, noise);
    return if enough then Padded else RandomFailed;
  }

  /** Writes the noise and the length byte behind the window, and extends it. */
  method AppendPadding(buf: PacketBuffer, padLen: nat, noise: seq<byte>) returns (enough: bool)
    requires buf.Valid() && buf.Offset + buf.Length + padLen < buf.Data.Length
    modifies buf, buf.Data
    ensures buf.Valid() && buf.Offset == old(buf.Offset)
    ensures enough <==> padLen <= |noise|
    ensures enough ==> buf.Bytes() == old(buf.Bytes()) + noise[..padLen] + [padLen % 256]
    ensures !enough ==> unchanged(buf) && buf.Bytes() == old(buf.Bytes())
    ensures OutsideUnchanged(old(buf.Data[..]), buf.Data[..], old(buf.Offset + buf.Length), old(buf.Offset + buf.Length) + padLen + 1)
  {
    hide Splice, OutsideUnchanged;
    ghost var was, at, n := buf.Data[..], buf.Offset, buf.Length;
    assert buf.Bytes() == was[at..at + n];
    enough := FillPadding(buf, padLen, noise);
    if enough {
      ghost var mid := buf.Data[..];
      Store(buf.Data, buf.Offset + buf.Length + padLen, [padLen % 256]);
      buf.Length := buf.Length + padLen + 1;
      PaddedWindow(was, mid, buf.Data[..], at, n, noise[..padLen]);
    }
    assert buf.Bytes() == buf.Data[..][at..at + buf.Length];
  }

  /** Noise and then the length byte behind the window of length n make a padded window. */
  lemma PaddedWindow(was: seq<byte>, mid: seq<byte>, now: seq<byte>, at: nat, n: nat, noise: seq<byte>)
    requires at + n + |noise| + 1 <= |was|
    requires mid == Splice(was, at + n, noise) && now == Splice(mid, at + n + |noise|, [|noise| % 256])
    ensures |now| == |was|
    ensures now[at..at + n + |noise| + 1] == was[at..at + n] + noise + [|noise| % 256]
    ensures OutsideUnchanged(was, now, at + n, at + n + |noise| + 1)
  {
    hide Splice, OutsideUnchanged;
    var r := noise + [|noise| % 256];
    SpliceTwice(was, at + n, noise, [|noise| % 256]);
    Behind(was, at, n, r, at + n + |r|);
    assert was[at..at + n] + r == was[at..at + n] + noise + [|noise| % 256];
  }

  /** The padding length, computed as in the code. */
  method PaddingFor(length: nat, blockSize: int) returns (padLen: nat)
    ensures padLen == PadLen(length, Effective(blockSize))
  {
    var b := Effective(blockSize);
    var rem := (length + 1) % b;
    padLen := 0;
    if rem != 0 {
      padLen := b - rem;
    }
  }

  /** Reads random bytes into the place behind the window. */
  method FillPadding(buf: PacketBuffer, padLen: nat, noise: seq<byte>) returns (enough: bool)
    requires buf.Valid() && buf.Offset + buf.Length + padLen < buf.Data.Length
    modifies buf.Data
    ensures enough <==> padLen <= |noise|
    ensures enough ==> buf.Data[..] == Splice(old(buf.Data[..]), buf.Offset + buf.Length, noise[..padLen])
    ensures !enough ==>
      && buf.Data[buf.Offset..buf.Offset + buf.Length] == old(buf.Data[buf.Offset..buf.Offset + buf.Length])
      && OutsideUnchanged(old(buf.Data[..]), buf.Data[..], buf.Offset + buf.Length, buf.Offset + buf.Length + padLen + 1)
  {
    hide Splice, OutsideUnchanged;
    ghost var was, at, n := buf.Data[..], buf.Offset, buf.Length;
    if padLen > 0 {
      var read := if |noise| < padLen then noise else noise[..padLen];
      Store(buf.Data, buf.Offset + buf.Length, read);
      Behind(was, at, n, read, at + n + padLen + 1);
      assert buf.Data[at..at + n] == buf.Data[..][at..at + n];
    } else {
      NoSplice(was, at + n);
      assert noise[..0] == [];
    }
    enough := padLen <= |noise|;
  }

  /** Writing behind the window keeps it, and extends it. */
  lemma Behind(s: seq<byte>, at: nat, n: nat, r: seq<byte>, to: nat)
    requires at + n + |r| <= to <= |s|
    ensures var t := Splice(s, at + n, r);
            && t[at..at + n] == s[at..at + n]
            && t[at..at + n + |r|] == s[at..at + n] + r
            && OutsideUnchanged(s, t, at + n, to)
  {
  }

  lemma NoSplice(s: seq<byte>, at: nat)
    requires at <= |s|
    ensures Splice(s, at, []) == s
  {
  }

  method UnpadPacket(buf: PacketBuffer) returns (ok: bool)
    requires buf.Valid()
    modifies buf
    ensures buf.Valid() && buf.Offset == old(buf.Offset)
    ensures if ok then Unpad(old(buf.Bytes())) == Some(buf.Bytes())
            else Unpad(old(buf.Bytes())) == None && unchanged(buf)
  {
    if buf.Length < 1 {
      return false;
    }
    ghost var data, at, n := buf.Data[..], buf.Offset, buf.Length;
    var padLen: int := buf.Data[buf.Offset + buf.Length - 1];
    var totalAdd := padLen + 1;
    UnpadWindow(data, at, n);
    if totalAdd > buf.Length {
      return false;
    }
    buf.Length := buf.Length - totalAdd;
    return true;
  }

  /** Unpadding a window of an array. */
  lemma UnpadWindow(data: seq<byte>, at: nat, n: nat)
    requires n >= 1 && at + n <= |data|
    ensures var p := data[at + n - 1];
            Unpad(data[at..at + n]) == if p + 1 > n then None else Some(data[at..at + n - 1 - p])
  {
    var w, p := data[at..at + n], data[at + n - 1];
    assert w[n - 1] == p;
    if p + 1 <= n {
      assert w[..n - 1 - p] == data[at..at + n - 1 - p];
    }
  }

  /** The round trip in one buffer. */
  method PadThenUnpad(buf: PacketBuffer, blockSize: int, noise: seq<byte>) returns (ok: bool)
    requires buf.Valid()
    modifies buf, buf.Data
    ensures buf.Valid() && buf.Offset == old(buf.Offset)
    ensures var p := PadLen(old(buf.Length), Effective(blockSize));
            && (ok <==> old(buf.Offset + buf.Length) + p + 1 <= buf.Data.Length && p <= |noise|)
            && buf.Bytes() == if ok then old(buf.Bytes()) + noise[..256 * (p / 256)] else old(buf.Bytes())
  {
    hide PadLen, Effective, OutsideUnchanged;
    ghost var payload := buf.Bytes();
    ghost var b := Effective(blockSize);
    ghost var p := PadLen(buf.Length, b);
    var r := PadPacket(buf, blockSize, noise);
    if r != Padded {
      return false;
    }
    ghost var used := noise[..p];
    UnpadAfterPad(payload, b, used);
    assert used[..256 * (p / 256)] == noise[..256 * (p / 256)];
    ok := UnpadPacket(buf);
  }
}
