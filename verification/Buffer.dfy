/** Pooled packet buffers: a fixed byte array with a window of valid bytes. */
module Buffer {
  import opened Words

  const DEFAULT_BUFFER_SIZE := 2048

  class PacketBuffer {
    const Data: array<byte>
    var Length: int
    var Offset: int

    constructor (size: nat)
      ensures Valid() && Length == 0 && Offset == 0
      ensures fresh(Data) && Data.Length == size
    {
      Data := new byte[size](_ => 0);
      Length, Offset := 0, 0;
    }

    /** The valid window lies inside the storage. */
    ghost predicate Valid()
      reads this
    {
      && 0 <= Offset
      && 0 <= Length
      && Offset + Length <= Data.Length
    }

    function Bytes(): (s: seq<byte>)
      requires Valid()
      reads this, Data
      ensures |s| == Length
    {
      Data[Offset..Offset + Length]
    }

    method Reset()
      modifies this
      ensures Valid() && Length == 0 && Offset == 0
    {
      Length, Offset := 0, 0;
    }

    /** Go's copy into the start of the storage, followed by setting the length:
      * the window holds the source bytes exactly when they fit. */
    method Fill(src: seq<byte>)
      modifies this, Data
      ensures Offset == 0 && Length == |src|
      ensures Valid() <==> |src| <= Data.Length
      ensures Valid() ==> Bytes() == src
    {
      Reset();
      forall i | 0 <= i < |src| && i < Data.Length {
        Data[i] := src[i];
      }
      Length := |src|;
      assert Length <= Data.Length ==> Data[..Length] == src;
    }
  }

  /** Replacing the n bytes of s from position dst on. */
  function Splice(s: seq<byte>, dst: nat, r: seq<byte>): (t: seq<byte>)
    requires dst + |r| <= |s|
    ensures |t| == |s|
    ensures t[..dst] == s[..dst]
    ensures t[dst..dst + |r|] == r
    ensures t[dst + |r|..] == s[dst + |r|..]
  {
    s[..dst] + r + s[dst + |r|..]
  }

  lemma SpliceTwice(s: seq<byte>, dst: nat, r: seq<byte>, q: seq<byte>)
    requires dst + |r| + |q| <= |s|
    ensures Splice(Splice(s, dst, r), dst + |r|, q) == Splice(s, dst, r + q)
  {
  }

  /** Only the bytes from..to may differ. */
  ghost predicate OutsideUnchanged(was: seq<byte>, now: seq<byte>, from: int, to: int)
    requires |was| == |now| && 0 <= from <= to <= |now|
  {
    now[..from] == was[..from] && now[to..] == was[to..]
  }

  lemma OutsideTwice(was: seq<byte>, mid: seq<byte>, now: seq<byte>, from: int, to: int, from': int, to': int)
    requires |was| == |mid| == |now| && 0 <= from' <= from <= to <= to' <= |now|
    requires OutsideUnchanged(was, mid, from, to) && OutsideUnchanged(mid, now, from', to')
    ensures OutsideUnchanged(was, now, from', to')
  {
    assert mid[..from'] == mid[..from][..from'] == was[..from'];
    assert mid[to'..] == mid[to..][to' - to..] == was[to'..];
  }

  /** Stores r at position dst. */
  method Store(a: array<byte>, dst: nat, r: seq<byte>)
    requires dst + |r| <= a.Length
    modifies a
    ensures a[..] == Splice(old(a[..]), dst, r)
  {
    forall i | 0 <= i < |r| {
      a[dst + i] := r[i];
    }
    assert a[..dst] == old(a[..dst]);
    assert a[dst..dst + |r|] == r;
    assert a[dst + |r|..] == old(a[dst + |r|..]);
    assert a[..] == a[..dst] + a[dst..dst + |r|] + a[dst + |r|..];
  }

  /** A device reads a packet into the storage at some offset. */
  method FillAt(buf: PacketBuffer, offset: nat, packet: seq<byte>)
    requires offset + |packet| <= buf.Data.Length
    modifies buf, buf.Data
    ensures buf.Valid() && buf.Offset == offset && buf.Bytes() == packet
  {
    Store(buf.Data, offset, packet);
    buf.Offset, buf.Length := offset, |packet|;
    assert buf.Bytes() == buf.Data[..][offset..offset + |packet|];
  }

  /** Go's copy between two, possibly overlapping, slices of one array. */
  method Move(a: array<byte>, dst: nat, src: nat, n: nat)
    requires src + n <= a.Length && dst + n <= a.Length
    modifies a
    ensures a[..] == Splice(old(a[..]), dst, old(a[src..src + n]))
  {
    var moved := a[src..src + n];
    forall i | 0 <= i < n {
      a[dst + i] := a[src + i];
    }
    assert a[..dst] == old(a[..dst]);
    assert a[dst..dst + n] == moved;
    assert a[dst + n..] == old(a[dst + n..]);
    assert a[..] == a[..dst] + a[dst..dst + n] + a[dst + n..];
  }
}
