/** The daemon's connect, disconnect and status requests, and what they acquire and
  * release. */
module Daemon {
  import opened Words
  import opened Address

  datatype OS = Darwin | Linux | OtherOS

  class KillSwitch {
    var enabled: bool

    constructor ()
      ensures !enabled
    {
      enabled := false;
    }

    /** rulesLoad says whether pfctl accepts the rules; iptables failures are ignored. */
    method Enable(os: OS, rulesLoad: bool)
      modifies this
      ensures enabled == (os == Linux || (os == Darwin && rulesLoad) || old(enabled))
    {
      match os {
        case Darwin => if rulesLoad { enabled := true; }
        case Linux => enabled := true;
        case OtherOS =>
      }
    }

    method Disable(os: OS)
      modifies this
      ensures enabled == (old(enabled) && os == OtherOS)
    {
      match os {
        case Darwin => enabled := false;
        case Linux => enabled := false;
        case OtherOS =>
      }
    }
  }

  datatype Params = Params(serverAddr: string, transport: string, killSwitch: bool)

  /** The error of each outside call that a connect makes, if it were made; whether the
    * TUN device opens and the packet filter takes the kill switch's rules; the time. */
  datatype Outside = Outside(keyError: Option<string>, generateError: Option<string>, transportError: Option<string>,
                             startError: Option<string>, initiationError: Option<string>, receiveError: Option<string>,
                             consumeError: Option<string>, sessionError: Option<string>,
                             tunOpens: bool, rulesLoad: bool, now: int)

  datatype Request =
    | Connect(params: Params, outside: Outside)
    | Disconnect
    | GetStatus(now: int, memoryMB: real)
    | UnknownAction(action: string)

  datatype Traffic = Traffic(bytesSent: uint64, bytesReceived: uint64, packetsSent: uint64, packetsReceived: uint64)

  datatype Status = Status(connected: bool, transport: string, serverAddr: string, traffic: Traffic,
                           uptimeSeconds: int, memoryMB: real, killSwitchActive: bool, virtualIP: string)

  datatype Response = Response(success: bool, error: string, status: Option<Status>)

  datatype Channel = NilChannel | OpenChannel | ClosedChannel

  predicate Supported(transport: string) {
    transport == "udp" || transport == "tls" || transport == "" || transport == "ws"
  }

  /** Every outside call before the TUN device succeeds; a missing TUN device is only
    * a warning. */
  predicate AllSucceed(o: Outside) {
    && o.keyError.None? && o.generateError.None? && o.transportError.None? && o.startError.None?
    && o.initiationError.None? && o.receiveError.None? && o.consumeError.None? && o.sessionError.None?
  }

  /** The error that a connect reports: that of the first step that fails. */
  function ConnectError(connected: bool, transport: string, o: Outside): (e: Option<string>)
    ensures e.None? <==> !connected && AllSucceed(o) && Supported(transport)
  {
    if connected then Some("already connected")
    else if o.keyError.Some? then Some("invalid public key: " + o.keyError.value)
    else if o.generateError.Some? then Some("key generation failed: " + o.generateError.value)
    else if !Supported(transport) then Some("unsupported transport")
    else if o.transportError.Some? then Some("transport failed: " + o.transportError.value)
    else if o.startError.Some? then o.startError
    else if o.initiationError.Some? then o.initiationError
    else if o.receiveError.Some? then Some("handshake receive failed")
    else if o.consumeError.Some? then Some("handshake auth failed: " + o.consumeError.value)
    else o.sessionError
  }

  class DaemonState {
    const os: OS
    var connected: bool
    var params: Params
    var tunDev: Option<nat>
    var transport: Option<nat>
    var sessionLive: bool
    var killSwitch: KillSwitch?
    var stopCh: Channel
    var router: bool                // a router object exists
    var connectedAt: int
    var traffic: Traffic
    // The resources of the outside world, by number.
    var openTransports: set<nat>
    var openTuns: set<nat>
    var routesUp: bool
    var nextHandle: nat

    constructor (os: OS)
      ensures Valid() && !connected && killSwitch == null && openTransports == {} && openTuns == {} && this.os == os
    {
      this.os := os;
      connected, params, tunDev, transport, sessionLive := false, Params("", "", false), None, None, false;
      killSwitch, stopCh, router, connectedAt := null, NilChannel, false, 0;
      traffic, routesUp := Traffic(0, 0, 0, 0), false;
      openTransports, openTuns, nextHandle := {}, {}, 0;
    }

    /** Exactly the current connection's resources are open. */
    ghost predicate Valid()
      reads this, killSwitch
    {
      && (connected ==> transport.Some? && openTransports == {transport.value})
      && (connected ==> openTuns == if tunDev.Some? then {tunDev.value} else {})
      && (connected ==> stopCh == OpenChannel)
      && (!connected ==> openTransports == {} && openTuns == {})
      && sessionLive == connected
      && routesUp == (connected && tunDev.Some?)
      && (routesUp ==> router)
      && (killSwitch != null && killSwitch.enabled ==> connected && params.killSwitch && tunDev.Some? && os != OtherOS)
    }

    method OpenTransport() returns (h: nat)
      modifies `openTransports, `nextHandle
      ensures openTransports == old(openTransports) + {h}
    {
      h := nextHandle;
      nextHandle := nextHandle + 1;
      openTransports := openTransports + {h};
    }

    method HandleConnect(requested: Params, o: Outside) returns (r: Response)
      requires Valid()
      modifies this, killSwitch
      ensures Valid() && traffic == old(traffic)
      ensures var e := ConnectError(old(connected), requested.transport, o);
        r == if e.Some? then Response(false, e.value, None) else Response(true, "", None)
      ensures r.success <==>
        && !old(connected) && requested.transport in {"udp", "tls", "", "ws"}
        && o.keyError.None? && o.generateError.None? && o.transportError.None? && o.startError.None?
        && o.initiationError.None? && o.receiveError.None? && o.consumeError.None? && o.sessionError.None?
      ensures old(connected) ==> r.error == "already connected"
      ensures !old(connected) && !r.success ==>
        r.error == if o.keyError.Some? then "invalid public key: " + o.keyError.value
                   else if o.generateError.Some? then "key generation failed: " + o.generateError.value
                   else if requested.transport !in {"udp", "tls", "", "ws"} then "unsupported transport"
                   else if o.transportError.Some? then "transport failed: " + o.transportError.value
                   else if o.startError.Some? then o.startError.value
                   else if o.initiationError.Some? then o.initiationError.value
                   else if o.receiveError.Some? then "handshake receive failed"
                   else if o.consumeError.Some? then "handshake auth failed: " + o.consumeError.value
                   else o.sessionError.value
      ensures connected == (old(connected) || r.success)
      ensures r.success ==>
        && params == requested.(serverAddr := SanitizeAddress(requested.serverAddr))
        && tunDev.Some? == o.tunOpens && connectedAt == o.now
        && (killSwitch != null && killSwitch.enabled <==>
              requested.killSwitch && o.tunOpens && (os == Linux || (os == Darwin && o.rulesLoad)))
      ensures !r.success ==>
        && openTransports == old(openTransports) && openTuns == old(openTuns)
        && killSwitch == old(killSwitch) && params == old(params) && tunDev == old(tunDev) && transport == old(transport)
      ensures !r.success && killSwitch != null ==> killSwitch.enabled == old(killSwitch.enabled)
      ensures killSwitch == old(killSwitch) || fresh(killSwitch)
    {
      var params' := requested.(serverAddr := SanitizeAddress(requested.serverAddr));
      if connected {
        return Response(false, "already connected", None);
      }
      if o.keyError.Some? {
        return Response(false, "invalid public key: " + o.keyError.value, None);
      }
      if o.generateError.Some? {
        return Response(false, "key generation failed: " + o.generateError.value, None);
      }
      if !Supported(params'.transport) {
        return Response(false, "unsupported transport", None);
      }
      if o.transportError.Some? {
        return Response(false, "transport failed: " + o.transportError.value, None);
      }
      var tr := OpenTransport();
      if o.startError.Some? {
        openTransports := openTransports - {tr};
        return Response(false, o.startError.value, None);
      }
      if o.initiationError.Some? {
        openTransports := openTransports - {tr};
        return Response(false, o.initiationError.value, None);
      }
      if o.receiveError.Some? {
        openTransports := openTransports - {tr};
        return Response(false, "handshake receive failed", None);
      }
      if o.consumeError.Some? {
        openTransports := openTransports - {tr};
        return Response(false, "handshake auth failed: " + o.consumeError.value, None);
      }
      if o.sessionError.Some? {
        openTransports := openTransports - {tr};
        return Response(false, o.sessionError.value, None);
      }
      Establish(params', tr, o);
      return Response(true, "", None);
    }

    /** The part of a connect that cannot fail. */
    method Establish(params': Params, tr: nat, o: Outside)
      requires !connected && openTransports == {tr} && openTuns == {} && !routesUp
      requires killSwitch != null ==> !killSwitch.enabled
      modifies this
      ensures Valid() && connected && params == params' && tunDev.Some? == o.tunOpens
      ensures connectedAt == o.now && traffic == old(traffic)
      ensures killSwitch != null && killSwitch.enabled <==>
                params'.killSwitch && o.tunOpens && (os == Linux || (os == Darwin && o.rulesLoad))
      ensures killSwitch == old(killSwitch) || fresh(killSwitch)
    {
      var tun := None;
      if o.tunOpens {
        tun := Some(nextHandle);
        openTuns := openTuns + {nextHandle};
        nextHandle := nextHandle + 1;
      }
      connected, params, transport, sessionLive, tunDev, stopCh := true, params', Some(tr), true, tun, OpenChannel;
      connectedAt := o.now;
      if tunDev.Some? {
        router, routesUp := true, true;
        if params.killSwitch {
          killSwitch := new KillSwitch();
          killSwitch.Enable(os, o.rulesLoad);
        }
      }
    }

    /** Closing a channel twice would crash; a disconnect never does. */
    method CloseStopChannel()
      requires stopCh == OpenChannel
      modifies `stopCh
      ensures stopCh == ClosedChannel
    {
      stopCh := ClosedChannel;
    }

    method HandleDisconnect() returns (r: Response)
      requires Valid()
      modifies this, killSwitch
      ensures Valid() && r == Response(true, "", None)
      ensures !connected && openTransports == {} && openTuns == {} && !sessionLive && !routesUp
      ensures traffic == old(traffic)
      ensures killSwitch == old(killSwitch) && (killSwitch != null ==> !killSwitch.enabled)
    {
      if !connected {
        return Response(true, "", None);
      }
      if stopCh != NilChannel {
        CloseStopChannel();
      }
      if killSwitch != null {
        killSwitch.Disable(os);
      }
      if router {
        routesUp := false;
      }
      if tunDev.Some? {
        openTuns := openTuns - {tunDev.value};
      }
      if transport.Some? {
        openTransports := openTransports - {transport.value};
      }
      sessionLive := false;
      connected := false;
      return Response(true, "", None);
    }

    method HandleGetStatus(now: int, memoryMB: real) returns (r: Response)
      requires Valid()
      ensures r.success && r.status.Some?
      ensures var st := r.status.value;
        && st.connected == connected && st.traffic == traffic
        && st.transport == (if connected then params.transport else "none")
        && st.serverAddr == (if connected then params.serverAddr else "")
        && st.uptimeSeconds == (if connected then now - connectedAt else 0)
        && st.memoryMB == memoryMB && st.virtualIP == "10.8.0.2"
        && (st.killSwitchActive <==> killSwitch != null && killSwitch.enabled)
        && (st.killSwitchActive ==> st.connected && params.killSwitch)
    {
      var uptime, ksActive := 0, false;
      if connected {
        uptime := now - connectedAt;
      }
      if killSwitch != null {
        ksActive := killSwitch.enabled;
      }
      var trans, serverAddr := "none", "";
      if connected {
        trans, serverAddr := params.transport, params.serverAddr;
      }
      return Response(true, "", Some(Status(connected, trans, serverAddr, traffic, uptime, memoryMB, ksActive, "10.8.0.2")));
    }

    /** The egress loop counts a packet before it seals it. */
    method CountSent(length: nat)
      requires Valid()
      modifies `traffic
      ensures Valid() && traffic == Counted(old(traffic), Sent(length))
    {
      traffic := traffic.(bytesSent := (traffic.bytesSent + length) % TWO_TO_64);
      traffic := traffic.(packetsSent := (traffic.packetsSent + 1) % TWO_TO_64);
    }

    /** The ingress loop counts a packet that was opened. */
    method CountReceived(length: nat)
      requires Valid()
      modifies `traffic
      ensures Valid() && traffic == Counted(old(traffic), Received(length))
    {
      traffic := traffic.(bytesReceived := (traffic.bytesReceived + length) % TWO_TO_64);
      traffic := traffic.(packetsReceived := (traffic.packetsReceived + 1) % TWO_TO_64);
    }

    method Handle(req: Request) returns (r: Response)
      requires Valid()
      modifies this, killSwitch
      ensures Valid() && traffic == old(traffic)
      ensures connected == Connected(old(connected), req)
      ensures r.success == Succeeds(old(connected), req)
      ensures req.Disconnect? ==> r == Response(true, "", None)
      ensures req.UnknownAction? ==> r == Response(false, "unknown action: " + req.action, None)
      ensures req.GetStatus? ==> r.status.Some? && r.status.value.connected == connected && r.status.value.traffic == traffic
      ensures killSwitch == old(killSwitch) || fresh(killSwitch)
    {
      match req {
        case Connect(p, o) => r := HandleConnect(p, o);
        case Disconnect => r := HandleDisconnect();
        case GetStatus(now, memoryMB) => r := HandleGetStatus(now, memoryMB);
        case UnknownAction(action) => r := Response(false, "unknown action: " + action, None);
      }
    }

    /** Any sequence of requests and packets, with any failures, leaves open exactly the
      * resources of the connection that the requests call for, and counts the packets. */
    method HandleAll(es: seq<Occurrence>) returns (responses: seq<Response>)
      requires Valid()
      modifies this, killSwitch
      ensures Valid() && |responses| == |Requests(es)|
      ensures forall k | 0 <= k < |responses| ::
        responses[k].success == Succeeds(ConnectedAfter(old(connected), Requests(es)[..k]), Requests(es)[k])
      ensures connected == ConnectedAfter(old(connected), Requests(es))
      ensures traffic == CountedAll(old(traffic), es)
      ensures |openTransports| == if connected then 1 else 0
      ensures |openTuns| == if connected && tunDev.Some? then 1 else 0
      ensures routesUp <==> connected && tunDev.Some?
      ensures killSwitch != null && killSwitch.enabled ==> ConnectedAfter(old(connected), Requests(es))
    {
      hide Counted, ConnectedAfter, Succeeds, Connected, Requests;
      NothingYet(old(connected), old(traffic));
      assert es[..0] == [];
      responses := [];
      for i := 0 to |es|
        invariant Valid() && |responses| == |Requests(es[..i])|
        invariant forall k | 0 <= k < |responses| ::
          responses[k].success == Succeeds(ConnectedAfter(old(connected), Requests(es[..i])[..k]), Requests(es[..i])[k])
        invariant connected == ConnectedAfter(old(connected), Requests(es[..i]))
        invariant traffic == CountedAll(old(traffic), es[..i])
        invariant killSwitch == old(killSwitch) || fresh(killSwitch)
      {
        OneMore(old(connected), old(traffic), es, i);
        ghost var before, after := Requests(es[..i]), Requests(es[..i + 1]);
        assert forall k | 0 <= k <= |before| :: after[..k] == before[..k];
        match es[i] {
          case Ask(req) =>
            var r := Handle(req);
            responses := responses + [r];
          case Sent(length) => CountSent(length);
          case Received(length) => CountReceived(length);
        }
      }
      assert es[..|es|] == es;
    }
  }

  /** What the daemon handles: requests, and packets of its two loops. */
  datatype Occurrence = Ask(req: Request) | Sent(length: nat) | Received(length: nat)

  function Requests(es: seq<Occurrence>): seq<Request> {
    if es == [] then [] else
    var last := es[|es| - 1];
    Requests(es[..|es| - 1]) + if last.Ask? then [last.req] else []
  }

  /** The counters are 64 bits wide and wrap around. */
  function Counted(t: Traffic, e: Occurrence): Traffic {
    match e
    case Ask(_) => t
    case Sent(length) =>
      t.(bytesSent := (t.bytesSent + length) % TWO_TO_64, packetsSent := (t.packetsSent + 1) % TWO_TO_64)
    case Received(length) =>
      t.(bytesReceived := (t.bytesReceived + length) % TWO_TO_64, packetsReceived := (t.packetsReceived + 1) % TWO_TO_64)
  }

  function CountedAll(t: Traffic, es: seq<Occurrence>): Traffic {
    if es == [] then t else Counted(CountedAll(t, es[..|es| - 1]), es[|es| - 1])
  }

  function TotalSent(es: seq<Occurrence>): nat {
    if es == [] then 0
    else TotalSent(es[..|es| - 1]) + if es[|es| - 1].Sent? then es[|es| - 1].length else 0
  }

  function TotalReceived(es: seq<Occurrence>): nat {
    if es == [] then 0
    else TotalReceived(es[..|es| - 1]) + if es[|es| - 1].Received? then es[|es| - 1].length else 0
  }

  /** Connects and disconnects do not reset the counters: they stay the totals since the
    * start, modulo 2^64. */
  lemma {:induction false} BytesAreTotals(es: seq<Occurrence>)
    ensures var t := CountedAll(Traffic(0, 0, 0, 0), es);
            t.bytesSent == TotalSent(es) % TWO_TO_64 && t.bytesReceived == TotalReceived(es) % TWO_TO_64
  {
    if es != [] {
      var p, last := es[..|es| - 1], es[|es| - 1];
      BytesAreTotals(p);
      if last.Sent? {
        AddModulo(TotalSent(p), last.length);
      } else if last.Received? {
        AddModulo(TotalReceived(p), last.length);
      }
    }
  }

  function SentCount(es: seq<Occurrence>): nat {
    if es == [] then 0 else SentCount(es[..|es| - 1]) + if es[|es| - 1].Sent? then 1 else 0
  }

  function ReceivedCount(es: seq<Occurrence>): nat {
    if es == [] then 0 else ReceivedCount(es[..|es| - 1]) + if es[|es| - 1].Received? then 1 else 0
  }

  lemma {:induction false} PacketsAreCounts(es: seq<Occurrence>)
    ensures var t := CountedAll(Traffic(0, 0, 0, 0), es);
            t.packetsSent == SentCount(es) % TWO_TO_64 && t.packetsReceived == ReceivedCount(es) % TWO_TO_64
  {
    if es != [] {
      var p := es[..|es| - 1];
      PacketsAreCounts(p);
      AddModulo(SentCount(p), 1);
      AddModulo(ReceivedCount(p), 1);
    }
  }

  lemma AddModulo(a: nat, b: nat)
    ensures (a % TWO_TO_64 + b) % TWO_TO_64 == (a + b) % TWO_TO_64
  {
    var q := a / TWO_TO_64;
    assert a % TWO_TO_64 + b == a + b - q * TWO_TO_64;
  }

  lemma NothingYet(before: bool, t: Traffic)
    ensures Requests([]) == [] && ConnectedAfter(before, []) == before && CountedAll(t, []) == t
  {
  }

  lemma OneMore(before: bool, t: Traffic, es: seq<Occurrence>, i: nat)
    requires i < |es|
    ensures Requests(es[..i + 1]) == Requests(es[..i]) + if es[i].Ask? then [es[i].req] else []
    ensures CountedAll(t, es[..i + 1]) == Counted(CountedAll(t, es[..i]), es[i])
    ensures ConnectedAfter(before, Requests(es[..i + 1])) ==
              if es[i].Ask? then Connected(ConnectedAfter(before, Requests(es[..i])), es[i].req)
              else ConnectedAfter(before, Requests(es[..i]))
    ensures es[i].Ask? ==> Counted(CountedAll(t, es[..i]), es[i]) == CountedAll(t, es[..i])
  {
    assert es[..i + 1][..i] == es[..i];
    if es[i].Ask? {
      var rs := Requests(es[..i]) + [es[i].req];
      assert rs[..|rs| - 1] == Requests(es[..i]);
    } else {
      assert Requests(es[..i]) + [] == Requests(es[..i]);
    }
  }

  /** Whether a request leaves the daemon connected. */
  function Connected(before: bool, req: Request): bool {
    match req
    case Connect(p, o) => before || (AllSucceed(o) && Supported(p.transport))
    case Disconnect => false
    case _ => before
  }

  /** Whether a request is answered with success. */
  function Succeeds(before: bool, req: Request): bool {
    match req
    case Connect(p, o) => !before && AllSucceed(o) && Supported(p.transport)
    case UnknownAction(_) => false
    case _ => true
  }

  /** The transports that there are, and the calls that a connect needs. */
  lemma ConnectNeeds(before: bool, p: Params, o: Outside)
    ensures Connected(before, Connect(p, o)) <==>
              before || (p.transport in {"udp", "tls", "", "ws"} &&
                o.keyError.None? && o.generateError.None? && o.transportError.None? && o.startError.None? &&
                o.initiationError.None? && o.receiveError.None? && o.consumeError.None? && o.sessionError.None?)
    ensures Succeeds(before, Connect(p, o)) <==> !before && Connected(before, Connect(p, o))
  {
  }

  function ConnectedAfter(before: bool, reqs: seq<Request>): bool {
    if reqs == [] then before
    else Connected(ConnectedAfter(before, reqs[..|reqs| - 1]), reqs[|reqs| - 1])
  }

  /** The daemon is connected exactly when some connect could succeed and no
    * disconnect followed it, or it was connected and never disconnected. */
  lemma {:induction false} ConnectedExactlyWhen(before: bool, reqs: seq<Request>)
    ensures ConnectedAfter(before, reqs) <==>
      || (before && Disconnect !in reqs)
      || exists k | 0 <= k < |reqs| :: Connected(false, reqs[k]) && Disconnect !in reqs[k..]
  {
    if reqs != [] {
      var p, last := reqs[..|reqs| - 1], reqs[|reqs| - 1];
      ConnectedExactlyWhen(before, p);
      assert reqs == p + [last];
      forall k | 0 <= k < |p| ensures reqs[k..] == p[k..] + [last] && reqs[k] == p[k] {
      }
      if Connected(false, last) {
        assert reqs[|p|..] == [last];
      }
    }
  }
}
