/** The server's routing table: which session a virtual address belongs to. The
  * entries are mutated in place, and one of them is also the default. */
module Peers {
  import opened Words

  type Addr = string

  /** A call of PeerTable.Register. */
  datatype Registration<+S> = Registration(ip: string, session: S, transport: nat, addr: Addr)

  /** The latest registration of every address. */
  function Latest<S>(log: seq<Registration<S>>): map<string, Registration<S>> {
    if log == [] then map[]
    else Latest(log[..|log| - 1])[log[|log| - 1].ip := log[|log| - 1]]
  }

  /** Where a packet for ip goes: the latest registration for ip, otherwise the
    * latest of all. */
  function Resolve<S>(log: seq<Registration<S>>, ip: string): Option<Registration<S>> {
    if ip in Latest(log) then Some(Latest(log)[ip])
    else if log == [] then None
    else Some(log[|log| - 1])
  }

  /** r is in the log for ip, and nothing later is. */
  ghost predicate IsLatestFor<S>(log: seq<Registration<S>>, ip: string, r: Registration<S>) {
    exists k | 0 <= k < |log| ::
      log[k] == r && r.ip == ip && forall j | k < j < |log| :: log[j].ip != ip
  }

  lemma LatestAppend<S>(log: seq<Registration<S>>, r: Registration<S>)
    ensures Latest(log + [r]) == Latest(log)[r.ip := r]
  {
    assert (log + [r])[..|log|] == log;
  }

  lemma {:induction false} LatestIsLatest<S>(log: seq<Registration<S>>, ip: string, r: Registration<S>)
    ensures ip in Latest(log) && Latest(log)[ip] == r <==> IsLatestFor(log, ip, r)
  {
    if log != [] {
      var p, last := log[..|log| - 1], |log| - 1;
      LatestIsLatest(p, ip, r);
      if log[last].ip == ip {
        assert log[last] == r ==> IsLatestFor(log, ip, r);
      }
      if IsLatestFor(p, ip, r) && log[last].ip != ip {
        var k :| 0 <= k < |p| && p[k] == r && r.ip == ip && forall j | k < j < |p| :: p[j].ip != ip;
        assert log[k] == r && forall j | k < j < |log| :: log[j].ip != ip;
      }
      if k :| 0 <= k < |log| && log[k] == r && r.ip == ip && forall j | k < j < |log| :: log[j].ip != ip {
        if k < last {
          assert p[k] == r && forall j | k < j < |p| :: p[j] == log[j];
        }
      }
    }
  }

  lemma {:induction false} LatestKeys<S>(log: seq<Registration<S>>, ip: string)
    ensures ip in Latest(log) <==> exists r <- log :: r.ip == ip
  {
    if log != [] {
      LatestKeys(log[..|log| - 1], ip);
      assert log == log[..|log| - 1] + [log[|log| - 1]];
    }
  }

  /** A packet goes to the last peer registered for its address; without one, to the
    * last peer registered at all; and nowhere only before any registration. */
  lemma ResolvesToLatest<S>(log: seq<Registration<S>>, ip: string, r: Registration<S>)
    ensures Resolve(log, ip) == Some(r) <==>
              if exists q <- log :: q.ip == ip then IsLatestFor(log, ip, r) else log != [] && r == log[|log| - 1]
    ensures Resolve(log, ip) == None <==> log == []
  {
    LatestIsLatest(log, ip, r);
    LatestKeys(log, ip);
  }

  lemma {:induction false} LatestIsLogged<S>(log: seq<Registration<S>>, ip: string)
    ensures ip in Latest(log) ==> Latest(log)[ip] in log
  {
    if log != [] {
      LatestIsLogged(log[..|log| - 1], ip);
    }
  }

  lemma ResolvedIsLogged<S>(log: seq<Registration<S>>, ip: string, r: Registration<S>)
    requires Resolve(log, ip) == Some(r)
    ensures r in log
  {
    LatestIsLogged(log, ip);
  }

  class ClientPeer<S> {
    const VirtualIP: string
    var session: S
    var transport: nat
    var remoteAddr: Addr

    constructor (r: Registration<S>)
      ensures Current() == r && VirtualIP == r.ip
    {
      VirtualIP, session, transport, remoteAddr := r.ip, r.session, r.transport, r.addr;
    }

    function Current(): Registration<S>
      reads this
    {
      Registration(VirtualIP, session, transport, remoteAddr)
    }
  }

  class PeerTable<S> {
    var peersByIP: map<string, ClientPeer<S>>
    var lastActive: ClientPeer?<S>
    ghost var log: seq<Registration<S>>
    ghost var entries: set<ClientPeer<S>>

    /** The entries hold the registrations in latest. An entry knows its own key, so
      * different keys never share an entry. */
    ghost predicate Holds(latest: map<string, Registration<S>>)
      reads this`peersByIP, this`entries, entries
    {
      && peersByIP.Keys == latest.Keys
      && (forall ip <- peersByIP ::
            peersByIP[ip] in entries && peersByIP[ip].VirtualIP == ip && peersByIP[ip].Current() == latest[ip])
    }

    /** The entries are the latest registrations, and lastActive is the last one's. */
    ghost predicate Valid()
      reads this, entries
    {
      && Holds(Latest(log))
      && (lastActive == null <==> |log| == 0)
      && (lastActive != null ==>
            && lastActive.VirtualIP == log[|log| - 1].ip
            && lastActive.VirtualIP in peersByIP
            && peersByIP[lastActive.VirtualIP] == lastActive)
    }

    constructor ()
      ensures Valid() && log == [] && peersByIP == map[] && entries == {}
    {
      peersByIP, lastActive, log, entries := map[], null, [], {};
    }

    /** Finds or adds the entry for ip and overwrites it. */
    method Update(ip: string, session: S, tr: nat, raddr: Addr, ghost latest: map<string, Registration<S>>)
      returns (peer: ClientPeer<S>)
      requires Holds(latest)
      modifies `peersByIP, `entries, entries
      ensures Holds(latest[ip := Registration(ip, session, tr, raddr)])
      ensures ip in peersByIP && peersByIP[ip] == peer && peer.VirtualIP == ip
      ensures fresh(entries - old(entries))
    {
      if ip in peersByIP {
        peer := peersByIP[ip];
        peer.session := session;
        peer.transport := tr;
        peer.remoteAddr := raddr;
      } else {
        peer := new ClientPeer(Registration(ip, session, tr, raddr));
        peersByIP := peersByIP[ip := peer];
        entries := entries + {peer};
      }
    }

    method Register(ip: string, session: S, tr: nat, raddr: Addr)
      requires Valid()
      modifies this, entries
      ensures Valid() && log == old(log) + [Registration(ip, session, tr, raddr)]
      ensures fresh(entries - old(entries))
    {
      hide Latest, Holds;
      lastActive := Update(ip, session, tr, raddr, Latest(log));
      LatestAppend(log, Registration(ip, session, tr, raddr));
      log := log + [Registration(ip, session, tr, raddr)];
    }

    method Lookup(ip: string) returns (peer: ClientPeer?<S>)
      requires Valid()
      ensures peer == null <==> Resolve(log, ip) == None
      ensures peer != null ==> Resolve(log, ip) == Some(peer.Current()) && peer in entries
    {
      hide Latest;
      if ip in peersByIP {
        return peersByIP[ip];
      }
      LastIsLatest(log);
      return lastActive;
    }
  }

  lemma LastIsLatest<S>(log: seq<Registration<S>>)
    ensures |log| > 0 ==> var r := log[|log| - 1]; r.ip in Latest(log) && Latest(log)[r.ip] == r
    ensures |log| == 0 ==> Latest(log) == map[]
  {
  }
}
