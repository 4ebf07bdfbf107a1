/** Packets on a byte stream: a two-byte length before each, and on the server a
  * look at the first two bytes to tell a web probe from a tunnel. */
module Framing {
  import opened Words
  import opened Buffer

  /** A stream connection, with the bytes still to be read and those written. */
  class Conn {
    var incoming: seq<byte>
    var outgoing: seq<byte>

    /** io.ReadFull: a short stream is consumed and gives an error. */
    method ReadFull(n: nat) returns (r: Option<seq<byte>>)
      modifies `incoming
      ensures if |old(incoming)| >= n
              then r == Some(old(incoming)[..n]) && incoming == old(incoming)[n..]
              else r == None && incoming == []
    {
      if |incoming| < n {
        incoming := [];
        return None;
      }
      r := Some(incoming[..n]);
      incoming := incoming[n..];
    }

    /** room is how many bytes the connection still takes; a write that does not fit is
      * cut off there and gives an error. */
    method Write(bytes: seq<byte>, room: nat) returns (ok: bool)
      modifies `outgoing
      ensures ok <==> |bytes| <= room
      ensures outgoing == old(outgoing) + First(bytes, room)
    {
      outgoing := outgoing + First(bytes, room);
      ok := |bytes| <= room;
    }
  }

  // Specification.

  /** The first n elements, or all. */
  function First<T>(s: seq<T>, n: nat): seq<T> {
    if n < |s| then s[..n] else s
  }

  /** The length bytes, truncated to 16 bits as in the code. */
  function LengthPrefix(n: nat): (s: seq<byte>)
    ensures |s| == 2
  {
    LittleEndian(2, n % 0x1_0000)
  }

  function Frame(p: seq<byte>): seq<byte> {
    LengthPrefix(|p|) + p
  }

  predicate LegalLength(n: int) {
    0 < n <= 2048
  }

  predicate Legal(ps: seq<seq<byte>>) {
    forall p <- ps :: LegalLength(|p|)
  }

  function Stream(ps: seq<seq<byte>>): seq<byte> {
    if ps == [] then [] else Frame(ps[0]) + Stream(ps[1..])
  }

  function FrameLength(s: seq<byte>): nat
    requires |s| >= 2
  {
    FromLittleEndian(s[..2])
  }

  /** s does not begin with a whole frame of a legal length. */
  predicate Blocked(s: seq<byte>) {
    |s| < 2 || !LegalLength(FrameLength(s)) || |s| < 2 + FrameLength(s)
  }

  /** The packets that a read loop takes from a stream. */
  function Parse(s: seq<byte>): seq<seq<byte>>
    decreases |s|
  {
    if Blocked(s) then [] else [s[2..2 + FrameLength(s)]] + Parse(s[2 + FrameLength(s)..])
  }

  /** The first bytes of "GET", "POST" and "HEAD". */
  predicate LooksLikeProbe(first: byte, second: byte) {
    || (first == 'G' as int && second == 'E' as int)
    || (first == 'P' as int && second == 'O' as int)
    || (first == 'H' as int && second == 'E' as int)
  }

  datatype Served = Closed | Decoy | Tunnel(packets: seq<seq<byte>>)

  /** What the server makes of a connection. A first length out of range is skipped,
    * not refused. */
  function Serve(s: seq<byte>): Served {
    if |s| < 2 then Closed
    else if LooksLikeProbe(s[0], s[1]) then Decoy
    else if !LegalLength(FrameLength(s)) then Tunnel(Parse(s[2..]))
    else Tunnel(Parse(s))
  }

  /** The packets that do not wait for room in the channel of incoming packets while the
    * transport may be closed: the server's first one. */
  function Unguarded(s: seq<byte>): nat {
    if Blocked(s) then 0 else 1
  }

  // The code's loops. Every packet is handed to a channel, unless the transport is
  // closed meanwhile; handedOver is how many the loop hands over before it sees that.

  method ClientReadLoop(conn: Conn, handedOver: nat) returns (packets: seq<seq<byte>>)
    modifies conn`incoming
    ensures packets == First(Parse(old(conn.incoming)), handedOver)
  {
    packets := [];
    while true
      invariant packets + Parse(conn.incoming) == Parse(old(conn.incoming))
      invariant |packets| <= handedOver
      decreases |conn.incoming|
    {
      ghost var s := conn.incoming;
      var lenBuf := conn.ReadFull(2);
      if lenBuf.None? {
        return;
      }
      var length := FromLittleEndian(lenBuf.value);
      if length == 0 || length > DEFAULT_BUFFER_SIZE {
        return;
      }
      var data := conn.ReadFull(length);
      if data.None? {
        return;
      }
      assert s[2..][..length] == s[2..2 + length] && s[2..][length..] == s[2 + length..];
      assert !Blocked(s) && Parse(s) == [data.value] + Parse(conn.incoming);
      if |packets| == handedOver {
        assert Parse(old(conn.incoming))[..handedOver] == packets;
        return;
      }
      packets := packets + [data.value];
    }
  }

  lemma FirstAppend<T>(a: seq<T>, b: seq<T>, n: nat)
    ensures a + First(b, n) == First(a + b, |a| + n)
  {
  }

  /** The frame whose length the sniffer has already read. */
  method FirstPacket(conn: Conn, header: seq<byte>) returns (packets: seq<seq<byte>>)
    requires |header| == 2
    modifies conn`incoming
    ensures AfterHeader(FromLittleEndian(header), old(conn.incoming)) == packets + Parse(conn.incoming)
    ensures |packets| == if FirstIsWhole(FromLittleEndian(header), old(conn.incoming)) then 1 else 0
  {
    packets := [];
    var pktLen := FromLittleEndian(header);
    if pktLen > 0 && pktLen <= DEFAULT_BUFFER_SIZE {
      var pktBuf := conn.ReadFull(pktLen);
      if pktBuf.Some? {
        packets := [pktBuf.value];
      }
    }
  }

  predicate FirstIsWhole(n: nat, rest: seq<byte>) {
    LegalLength(n) && |rest| >= n
  }

  /** What the server takes when the first length is n and rest follows. */
  function AfterHeader(n: nat, rest: seq<byte>): seq<seq<byte>> {
    if !LegalLength(n) then Parse(rest)
    else if |rest| < n then []
    else [rest[..n]] + Parse(rest[n..])
  }

  lemma ServeTunnel(s: seq<byte>, rest: seq<byte>)
    requires |s| >= 2 && !LooksLikeProbe(s[0], s[1]) && rest == s[2..]
    ensures Serve(s) == Tunnel(AfterHeader(FrameLength(s), rest))
    ensures Unguarded(s) == if FirstIsWhole(FrameLength(s), rest) then 1 else 0
  {
    var n := FrameLength(s);
    if LegalLength(n) && |rest| >= n {
      assert rest[..n] == s[2..2 + n] && rest[n..] == s[2 + n..];
    }
  }

  /** A client has one connection, a server one for each address. */
  class TLSTransport {
    const clientConn: Conn?
    const isServer: bool
    var connections: map<string, Conn>

    constructor (clientConn: Conn?, isServer: bool)
      ensures this.clientConn == clientConn && this.isServer == isServer && connections == map[]
    {
      this.clientConn, this.isServer, connections := clientConn, isServer, map[];
    }

    /** What the server makes of a connection. early is how many bytes come before the
      * deadline for the first two, room how much of the decoy page the peer takes. */
    method HandleServerConn(conn: Conn, raddr: string, decoyPage: seq<byte>, early: nat, room: nat, handedOver: nat)
      returns (r: Served)
      modifies this, conn
      ensures early < 2 ==> r == Closed
      ensures early >= 2 ==> match Serve(old(conn.incoming))
        case Closed => r == Closed
        case Decoy => r == Decoy
        case Tunnel(packets) => r == Tunnel(First(packets, Unguarded(old(conn.incoming)) + handedOver))
      ensures conn.outgoing == old(conn.outgoing) + if r.Decoy? then First(decoyPage, room) else []
      ensures connections == if r.Tunnel? then old(connections) - {raddr} else old(connections)
    {
      hide Parse, Blocked, FromLittleEndian;
      ghost var s := conn.incoming;
      if early < 2 {
        return Closed;
      }
      var header := conn.ReadFull(2);
      if header.None? {
        return Closed;
      }
      if LooksLikeProbe(header.value[0], header.value[1]) {
        var _ := conn.Write(decoyPage, room);
        return Decoy;
      }
      hide LooksLikeProbe, Serve, Unguarded, First;
      ServeTunnel(s, conn.incoming);
      connections := connections[raddr := conn];
      var packets := ServeFrames(conn, raddr, header.value, handedOver);
      assert connections - {raddr} == old(connections) - {raddr};
      connections := connections - {raddr};
      return Tunnel(packets);
    }

    /** The loop over the frames of a tunnel, whose connection is registered meanwhile. */
    method ServeFrames(conn: Conn, raddr: string, header: seq<byte>, handedOver: nat) returns (packets: seq<seq<byte>>)
      requires |header| == 2 && raddr in connections && connections[raddr] == conn
      modifies conn`incoming
      ensures var n := FromLittleEndian(header); var rest := old(conn.incoming);
        packets == First(AfterHeader(n, rest), (if FirstIsWhole(n, rest) then 1 else 0) + handedOver)
    {
      hide Parse, First, FromLittleEndian;
      var first := FirstPacket(conn, header);
      FirstAppend(first, Parse(conn.incoming), handedOver);
      // The loop over the following frames is the client's.
      var more := ClientReadLoop(conn, handedOver);
      return first + more;
    }

    function ConnTo(target: string): Conn?
      reads this
    {
      if !isServer then clientConn else if target in connections then connections[target] else null
    }

    /** Two writes; a failed one leaves a beginning of the frame on the stream. */
    method Send(target: string, buf: PacketBuffer, room: nat) returns (ok: bool)
      requires buf.Valid()
      modifies if ConnTo(target) == null then {} else {ConnTo(target)}
      ensures ConnTo(target) == old(ConnTo(target))
      ensures ConnTo(target) == null ==> !ok
      ensures ConnTo(target) != null ==>
        && ConnTo(target).outgoing == old(ConnTo(target).outgoing) + First(Frame(buf.Bytes()), room)
        && ConnTo(target).incoming == old(ConnTo(target).incoming)
        && (ok <==> |Frame(buf.Bytes())| <= room)
    {
      var conn := ConnTo(target);
      if conn == null {
        return false;
      }
      var lenBuf := LengthPrefix(buf.Length);
      ok := conn.Write(lenBuf, room);
      if !ok {
        return false;
      }
      ok := conn.Write(buf.Bytes(), room - 2);
    }
  }

  // Properties.

  lemma TwoBytes(n: nat)
    requires n < 0x1_0000
    ensures LengthPrefix(n) == [n % 256, n / 256]
  {
    assert LittleEndian(1, n / 256) == [n / 256] + LittleEndian(0, 0);
  }

  lemma FrameHead(p: seq<byte>, rest: seq<byte>)
    requires LegalLength(|p|)
    ensures var s := Frame(p) + rest;
            !Blocked(s) && FrameLength(s) == |p| && s[2..2 + |p|] == p && s[2 + |p|..] == rest
  {
    hide LittleEndian, FromLittleEndian, Range;
    Ranges();
    DecodeEncode(2, |p|);
    var s, head := Frame(p) + rest, LittleEndian(2, |p|);
    assert LengthPrefix(|p|) == head;
    assert s == head + (p + rest);
    assert s[..2] == head;
    assert s[2..] == p + rest;
    assert s[2..2 + |p|] == s[2..][..|p|] == p;
    assert s[2 + |p|..] == s[2..][|p|..] == rest;
  }

  lemma ParseFrame(p: seq<byte>, rest: seq<byte>)
    requires LegalLength(|p|)
    ensures Parse(Frame(p) + rest) == [p] + Parse(rest)
  {
    FrameHead(p, rest);
  }

  lemma {:induction false} ParseStream(ps: seq<seq<byte>>, rest: seq<byte>)
    requires Legal(ps)
    ensures Parse(Stream(ps) + rest) == ps + Parse(rest)
  {
    hide Parse, Frame;
    if ps == [] {
      assert Stream(ps) + rest == rest;
    } else {
      var s := Stream(ps[1..]) + rest;
      assert Stream(ps) + rest == Frame(ps[0]) + s;
      ParseFrame(ps[0], s);
      ParseStream(ps[1..], rest);
      assert [ps[0]] + (ps[1..] + Parse(rest)) == ps + Parse(rest);
    }
  }

  /** On every stream, the loop takes a legal list whose encoding the stream starts
    * with, and stops only where no whole legal frame follows; there is one such list. */
  lemma {:induction false} ParseExactly(s: seq<byte>, ps: seq<seq<byte>>)
    ensures Parse(s) == ps <==>
              Legal(ps) && Stream(ps) <= s && Blocked(s[|Stream(ps)|..])
  {
    if Legal(ps) && Stream(ps) <= s && Blocked(s[|Stream(ps)|..]) {
      ParseStream(ps, s[|Stream(ps)|..]);
      assert s == Stream(ps) + s[|Stream(ps)|..];
    }
    ParseIsSound(s);
  }

  lemma UnblockedHead(s: seq<byte>)
    requires !Blocked(s)
    ensures s == Frame(s[2..2 + FrameLength(s)]) + s[2 + FrameLength(s)..]
  {
    Ranges();
    EncodeDecode(s[..2]);
  }

  /** One packet is handed over unguarded when the stream begins with a whole legal frame,
    * and none otherwise. */
  lemma UnguardedIs(s: seq<byte>)
    ensures Unguarded(s) == if exists p :: 0 < |p| <= 2048 && Frame(p) <= s then 1 else 0
  {
    hide Frame, FrameLength, Blocked;
    if !Blocked(s) {
      var p := FirstPayload(s);
      assert 0 < |p| <= 2048 && Frame(p) <= s;
    }
    if p :| 0 < |p| <= 2048 && Frame(p) <= s {
      BeginsWithFrame(s, p);
    }
  }

  function FirstPayload(s: seq<byte>): (p: seq<byte>)
    requires !Blocked(s)
    ensures 0 < |p| <= 2048 && Frame(p) <= s
  {
    UnblockedHead(s);
    s[2..2 + FrameLength(s)]
  }

  lemma BeginsWithFrame(s: seq<byte>, p: seq<byte>)
    requires 0 < |p| <= 2048 && Frame(p) <= s
    ensures !Blocked(s)
  {
    FrameHead(p, s[|Frame(p)|..]);
    assert s == Frame(p) + s[|Frame(p)|..];
  }

  lemma {:induction false} ParseIsSound(s: seq<byte>)
    ensures Legal(Parse(s)) && Stream(Parse(s)) <= s && Blocked(s[|Stream(Parse(s))|..])
    decreases |s|
  {
    if !Blocked(s) {
      var n := FrameLength(s);
      var p, rest := s[2..2 + n], s[2 + n..];
      ParseIsSound(rest);
      UnblockedHead(s);
      hide Blocked, Frame, FrameLength;
      assert Parse(s) == [p] + Parse(rest);
      assert Parse(s)[1..] == Parse(rest);
      assert Stream(Parse(s)) == Frame(p) + Stream(Parse(rest));
      assert s[|Stream(Parse(s))|..] == rest[|Stream(Parse(rest))|..];
    }
  }

  /** A truncated stream loses a suffix of the packets and invents none. */
  lemma {:induction false} TruncatedStream(ps: seq<seq<byte>>, t: seq<byte>)
    requires Legal(ps) && t <= Stream(ps)
    ensures Parse(t) <= ps
  {
    hide Parse, Blocked, Frame;
    ParseIsSound(t);
    ParseNothing();
    var qs, s := Parse(t), Stream(ps);
    var rest := s[|Stream(qs)|..];
    assert s == Stream(qs) + rest;
    ParseStream(qs, rest);
    ParseStream(ps, []);
    assert s + [] == s && ps + Parse([]) == ps && Stream([]) == [];
  }

  /** The high length byte of a legal frame is at most 8, so no frame is a probe. */
  lemma LegalFrameIsNoProbe(p: seq<byte>, rest: seq<byte>)
    requires LegalLength(|p|)
    ensures var s := Frame(p) + rest; s[1] <= 8 && !LooksLikeProbe(s[0], s[1])
  {
    TwoBytes(|p|);
  }

  /** Sends that do not overlap reach the server's incoming channel unchanged. */
  lemma {:induction false} ServeStream(ps: seq<seq<byte>>, t: seq<byte>)
    requires Legal(ps) && t <= Stream(ps) && |t| >= 2
    ensures Serve(t).Tunnel? && Serve(t).packets <= ps
    ensures t == Stream(ps) ==> Serve(t).packets == ps
  {
    var s := Stream(ps);
    LegalFrameIsNoProbe(ps[0], Stream(ps[1..]));
    FrameHead(ps[0], Stream(ps[1..]));
    assert t[..2] == s[..2];
    TruncatedStream(ps, t);
    ParseStream(ps, []);
    assert s + [] == s && ps + Parse([]) == ps;
  }

  lemma {:induction false} StreamAppend(ps: seq<seq<byte>>, qs: seq<seq<byte>>)
    ensures Stream(ps + qs) == Stream(ps) + Stream(qs)
  {
    if ps == [] {
      assert ps + qs == qs;
    } else {
      assert (ps + qs)[1..] == ps[1..] + qs;
      StreamAppend(ps[1..], qs);
    }
  }

  /** The legal packets at the start of a stream are recovered whatever follows them. */
  lemma ServePrefix(ps: seq<seq<byte>>, n: nat)
    requires 0 < n <= |ps| && Legal(ps[..n])
    ensures Serve(Stream(ps)) == Tunnel(ps[..n] + Parse(Stream(ps[n..])))
  {
    assert ps == ps[..n] + ps[n..];
    StreamAppend(ps[..n], ps[n..]);
    ParseStream(ps[..n], Stream(ps[n..]));
    assert ps[0] in ps[..n];
    LegalFrameIsNoProbe(ps[0], Stream(ps[1..]));
    FrameHead(ps[0], Stream(ps[1..]));
    hide Parse, Frame, LooksLikeProbe, Blocked;
    ServesFromLegal(Stream(ps));
  }

  lemma ServesFromLegal(s: seq<byte>)
    requires !Blocked(s) && !LooksLikeProbe(s[0], s[1])
    ensures Serve(s) == Tunnel(Parse(s))
  {
  }

  lemma ParseNothing()
    ensures Parse(Stream([])) == []
  {
  }

  /** A reader gives up at a packet that is too long for a buffer. */
  lemma TooLongStops(p: seq<byte>, rest: seq<byte>)
    requires DEFAULT_BUFFER_SIZE < |p| < 0x1_0000
    ensures Parse(Frame(p) + rest) == []
  {
    TwoBytes(|p|);
    Ranges();
    DecodeEncode(2, |p|);
    assert (Frame(p) + rest)[..2] == LittleEndian(2, |p|);
  }

  /** Exactly the streams that begin with the bytes of "GE", "PO" or "HE" get the decoy
    * page, so every one that begins with "GET", "POST" or "HEAD" does. */
  lemma DecoyExactlyFor(s: seq<byte>)
    ensures Serve(s) == Decoy <==> |s| >= 2 && (s[..2] == [71, 69] || s[..2] == [80, 79] || s[..2] == [72, 69])
    ensures [71, 69, 84] <= s || [80, 79, 83, 84] <= s || [72, 69, 65, 68] <= s ==> Serve(s) == Decoy
    ensures Serve(s) == Closed <==> |s| < 2
  {
    if |s| >= 2 {
      assert s[..2] == [s[0], s[1]];
    }
  }

  /** A frame, byte by byte. */
  lemma FrameLayout(p: seq<byte>)
    requires |p| < 0x1_0000
    ensures Frame(p) == [|p| % 256, |p| / 256] + p
  {
    TwoBytes(|p|);
  }

  /** What a reader makes of two length bytes. */
  lemma LengthOf16(s: seq<byte>)
    requires |s| >= 2
    ensures FrameLength(s) == (s[0] as int) + 0x100 * (s[1] as int)
  {
    TwoBytesValue(s[..2]);
    assert s[..2][2..] == [];
  }

  /** Exactly when the server takes the packets that the client's loop would: not from a
    * probe, and not when it skips a first length out of range. */
  lemma ServesWhatItParses(s: seq<byte>)
    ensures Serve(s) == Tunnel(Parse(s)) <==>
              && |s| >= 2 && !LooksLikeProbe(s[0], s[1])
              && (LegalLength(FrameLength(s)) || Blocked(s[2..]))
  {
  }

  /** Two zero bytes are skipped in front of the first frame, where the client's loop
    * gives up. */
  lemma BadFirstLengthIsSkipped(p: seq<byte>)
    requires LegalLength(|p|)
    ensures Serve([0, 0] + Frame(p)) == Tunnel([p]) && Parse([0, 0] + Frame(p)) == []
  {
    var s := [0, 0] + Frame(p);
    assert s[2..] == Frame(p) + [];
    ParseFrame(p, []);
    TwoBytes(0);
    Ranges();
    assert s[..2] == LengthPrefix(0);
    DecodeEncode(2, 0);
  }

  /** Whatever the stream, the server too emits only packets that fit a buffer. */
  lemma ServedPacketsFit(s: seq<byte>)
    ensures Serve(s).Tunnel? ==> Legal(Serve(s).packets)
  {
    ParseIsSound(s);
    if |s| >= 2 {
      ParseIsSound(s[2..]);
    }
  }

  // Two writes per Send: what happens when Sends on one connection overlap.

  /** The two writes of the Send with number i. */
  datatype Op = LengthOf(i: nat) | PayloadOf(i: nat)

  /** Each Send writes its length once and then its payload once; those in open have
    * written only their length. */
  predicate Schedule(ops: seq<Op>, open: set<nat>) {
    if ops == [] then open == {}
    else match ops[0]
      case LengthOf(i) => i !in open && Schedule(ops[1..], open + {i})
      case PayloadOf(i) => i in open && Schedule(ops[1..], open - {i})
  }

  /** No write of another Send comes between the two writes of one. */
  predicate Serial(ops: seq<Op>) {
    ops == [] ||
    (|ops| >= 2 && ops[0].LengthOf? && ops[1] == PayloadOf(ops[0].i) && Serial(ops[2..]))
  }

  function Written(ops: seq<Op>, payload: nat -> seq<byte>): seq<byte> {
    if ops == [] then []
    else match ops[0]
      case LengthOf(i) => LengthPrefix(|payload(i)|) + Written(ops[1..], payload)
      case PayloadOf(i) => payload(i) + Written(ops[1..], payload)
  }

  /** The payloads in the order in which they were written. */
  function Payloads(ops: seq<Op>, payload: nat -> seq<byte>): seq<seq<byte>> {
    if ops == [] then []
    else match ops[0]
      case LengthOf(_) => Payloads(ops[1..], payload)
      case PayloadOf(i) => [payload(i)] + Payloads(ops[1..], payload)
  }

  /** n bytes of 255, whoever sends. */
  function Full(n: nat): nat -> seq<byte> {
    _ => seq(n, _ => 255)
  }

  ghost predicate AllLegal(payload: nat -> seq<byte>) {
    forall i :: LegalLength(|payload(i)|)
  }

  lemma {:induction false} SerialIsStream(ops: seq<Op>, payload: nat -> seq<byte>)
    requires Serial(ops)
    ensures Written(ops, payload) == Stream(Payloads(ops, payload))
    ensures AllLegal(payload) ==> Legal(Payloads(ops, payload))
  {
    if ops != [] {
      var i, rest := ops[0].i, ops[2..];
      SerialIsStream(rest, payload);
      assert ops[1..][1..] == rest && ops[1..][0] == PayloadOf(i);
      assert Payloads(ops, payload) == [payload(i)] + Payloads(rest, payload);
      assert Payloads(ops, payload)[1..] == Payloads(rest, payload);
    }
  }

  /** What an open Send has still to write. */
  lemma {:induction false} OpenIsWritten(ops: seq<Op>, open: set<nat>, i: nat, payload: nat -> seq<byte>)
    requires Schedule(ops, open) && i in open
    ensures |Written(ops, payload)| >= |payload(i)|
  {
    if ops[0] != PayloadOf(i) {
      match ops[0]
      case LengthOf(j) => OpenIsWritten(ops[1..], open + {j}, i, payload);
      case PayloadOf(j) => OpenIsWritten(ops[1..], open - {j}, i, payload);
    }
  }

  /** The peer takes the other Send's length for the beginning of a packet. */
  lemma StolenLength(rest: seq<byte>, n: nat)
    requires LegalLength(n) && n >= 2 && |rest| >= n
    ensures var s := LengthPrefix(n) + (LengthPrefix(n) + rest); var p := (LengthPrefix(n) + rest)[..n];
            p in Parse(s) && |p| == n && p[1] <= 8
  {
    TwoBytes(n);
    var s, t := LengthPrefix(n) + (LengthPrefix(n) + rest), LengthPrefix(n) + rest;
    assert s == Frame(t[..n]) + t[n..];
    ParseFrame(t[..n], t[n..]);
  }

  /** When every Send writes n bytes of 255, for any legal n above 1, and two of them
    * overlap, the peer receives a packet of n bytes that nobody sent. */
  lemma {:induction false} OverlapInventsPacket(ops: seq<Op>, n: nat)
    requires LegalLength(n) && n >= 2
    requires Schedule(ops, {}) && !Serial(ops)
    ensures exists p <- Parse(Written(ops, Full(n))) ::
              |p| == n && p != Full(n)(0) && p !in Payloads(ops, Full(n))
  {
    hide Parse, LengthPrefix;
    var i, tail := ops[0].i, ops[1..];
    assert {} + {i} == {i} && {i} - {i} == {};
    assert tail != [] && Schedule(tail, {i});
    AllFull(ops, n);
    if tail[0] == PayloadOf(i) {
      var rest := ops[2..];
      assert tail[1..] == rest;
      OverlapInventsPacket(rest, n);
      BehindSerial(ops, n);
      var p :| p in Parse(Written(rest, Full(n))) && |p| == n && p != Full(n)(0);
      assert p in Parse(Written(ops, Full(n)));
    } else {
      var j, rest := tail[0].i, Written(tail[1..], Full(n));
      OpenIsWritten(tail[1..], {i} + {j}, i, Full(n));
      assert Written(ops, Full(n)) == LengthPrefix(n) + (LengthPrefix(n) + rest);
      StolenLength(rest, n);
    }
  }

  /** A Send that does not overlap gives its packet, and the rest as if alone. */
  lemma BehindSerial(ops: seq<Op>, n: nat)
    requires LegalLength(n)
    requires |ops| >= 2 && ops[0].LengthOf? && ops[1] == PayloadOf(ops[0].i)
    ensures Parse(Written(ops, Full(n))) == [Full(n)(0)] + Parse(Written(ops[2..], Full(n)))
  {
    var rest := Written(ops[2..], Full(n));
    assert ops[1..][0] == ops[1] && ops[1..][1..] == ops[2..];
    assert Written(ops, Full(n)) == Frame(Full(n)(0)) + rest;
    ParseFrame(Full(n)(0), rest);
  }

  lemma {:induction false} AllFull(ops: seq<Op>, n: nat)
    ensures forall p <- Payloads(ops, Full(n)) :: p == Full(n)(0) && |p| == n
    ensures n >= 2 ==> Full(n)(0)[1] == 255
  {
    if ops != [] {
      AllFull(ops[1..], n);
    }
  }

  /** The peer receives exactly the payloads, whatever they are, just when the Sends
    * on the connection do not overlap; and it is no help that all payloads have the
    * same length n. */
  lemma FramingNeedsSerialSends(ops: seq<Op>, n: nat)
    requires LegalLength(n) && n >= 2
    requires Schedule(ops, {})
    ensures Serial(ops) ==>
      forall payload | AllLegal(payload) :: Parse(Written(ops, payload)) == Payloads(ops, payload)
    ensures Serial(ops) <==>
      forall payload | AllLegal(payload) && AllOfLength(payload, n) ::
        Parse(Written(ops, payload)) == Payloads(ops, payload)
  {
    if Serial(ops) {
      forall payload | AllLegal(payload) ensures Parse(Written(ops, payload)) == Payloads(ops, payload) {
        SerialIsStream(ops, payload);
        ParseStream(Payloads(ops, payload), []);
        assert Written(ops, payload) + [] == Written(ops, payload);
        assert Payloads(ops, payload) + Parse([]) == Payloads(ops, payload);
      }
    } else {
      OverlapInventsPacket(ops, n);
      forall i: nat ensures |Full(n)(i)| == n {
      }
      assert AllLegal(Full(n)) && AllOfLength(Full(n), n);
    }
  }

  ghost predicate AllOfLength(payload: nat -> seq<byte>, n: nat) {
    forall i :: |payload(i)| == n
  }
}
