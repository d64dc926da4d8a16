/** What a run of events comes to, read off the list of events alone: which interfaces are up, with
    which addresses and clients, and which announcements wait.  Everything is "the last event that
    matters", looked for in the list; nothing here says what a single event does. */
module LanHistory {
  import opened Common
  import opened LanBook
  import opened LanEvents

  ghost predicate NoDownSince(es: seq<Event>, i: nat, n: nat, a: Lan)
    requires n <= |es|
  {
    forall j :: i < j < n ==> es[j] != IfaceDown(a)
  }

  /** After `n` events `a` is up: it has come up, with properties and room for it, and not gone down
      since. */
  ghost predicate Up(es: seq<Event>, n: nat, a: Lan)
    requires n <= |es|
    decreases n, 0
  {
    exists i :: 0 <= i < n && es[i].IfaceUp? && es[i].iface == a
      && Usable(a) && |UpAt(es, i)| < MAX_NUM_IFACE && NoDownSince(es, i, n, a)
  }

  function Ifaces(es: seq<Event>): set<Lan> {
    set i | 0 <= i < |es| :: es[i].iface
  }

  ghost function UpAt(es: seq<Event>, n: nat): set<Lan>
    requires n <= |es|
    decreases n, 1
  {
    set a | a in Ifaces(es) && Up(es, n, a)
  }

  /** After `n` events `a` has an address of type `ip`: it was reported while `a` was up, or when it
      came up, and `a` has not gone down since. */
  ghost predicate HasAddress(es: seq<Event>, n: nat, a: Lan, ip: Ip)
    requires n <= |es|
  {
    exists i :: 0 <= i < n && es[i] == IfaceUp(a, ip) && Up(es, i + 1, a) && NoDownSince(es, i, n, a)
  }

  /** The announcement at `i` was cached, and still is after `n` events: its interface has neither come
      up nor been reported down. */
  ghost predicate Waits(es: seq<Event>, i: nat, n: nat)
    requires i < n <= |es|
    decreases i, 1
  {
    && es[i].ClientAdd?
    && (forall j :: i <= j <= n ==> !Up(es, j, es[i].iface))
    && NoDownSince(es, i, n, es[i].iface)
    && |Waiting(es, i, i)| < MAX_NUM_CACHED_CLIENT_ADD_EVENT
  }

  /** The announcements among the first `m` events that wait after `n` events, the latest first. */
  ghost function Waiting(es: seq<Event>, n: nat, m: nat): seq<(Lan, nat)>
    requires m <= n <= |es|
    decreases m, 0
  {
    if m == 0 then []
    else if Waits(es, m - 1, n) then [(es[m - 1].iface, es[m - 1].mac)] + Waiting(es, n, m - 1)
    else Waiting(es, n, m - 1)
  }

  /** The announcement at `i` was taken: there was room at its interface, or in the cache. */
  ghost predicate Taken(es: seq<Event>, i: nat)
    requires i < |es| && es[i].ClientAdd?
    decreases i, 3
  {
    if Up(es, i, es[i].iface) then |ClientsAt(es, i, es[i].iface)| < MAX_NUM_CLIENT
    else |Waiting(es, i, i)| < MAX_NUM_CACHED_CLIENT_ADD_EVENT
  }

  /** `c` was announced for `a`, before or after that came up, and taken; it was not deleted while `a` was
      up, and `a` has not been reported down since. */
  ghost predicate Announced(es: seq<Event>, n: nat, a: Lan, c: nat)
    requires n <= |es|
    decreases n, 0
  {
    exists i :: 0 <= i < n && es[i] == ClientAdd(a, c) && Taken(es, i) && NoDownSince(es, i, n, a)
      && NotDeletedSince(es, i, n, a, c)
  }

  /** A deletion counts only while the interface is up. */
  ghost predicate NotDeletedSince(es: seq<Event>, i: nat, n: nat, a: Lan, c: nat)
    requires n <= |es|
  {
    forall j :: i < j < n && Up(es, j, a) ==> es[j] != ClientDel(a, c)
  }

  /** After `n` events `c` is a client of `a`. */
  ghost predicate IsClient(es: seq<Event>, n: nat, a: Lan, c: nat)
    requires n <= |es|
    decreases n, 1
  {
    Up(es, n, a) && Announced(es, n, a, c)
  }

  function Macs(es: seq<Event>): set<nat> {
    set i | 0 <= i < |es| && es[i].ClientAdd? :: es[i].mac
  }

  ghost function ClientsAt(es: seq<Event>, n: nat, a: Lan): set<nat>
    requires n <= |es|
    decreases n, 2
  {
    set c | c in Macs(es) && IsClient(es, n, a, c)
  }

  // ---------------------------------------------------------------- one more event

  lemma NoDownStep(es: seq<Event>, i: nat, n: nat, a: Lan)
    requires i <= n < |es|
    ensures NoDownSince(es, i, n + 1, a) <==> NoDownSince(es, i, n, a) && (i < n ==> es[n] != IfaceDown(a))
  {}

  lemma UpStep(es: seq<Event>, n: nat, a: Lan)
    requires n < |es|
    ensures Up(es, n + 1, a) <==>
            if es[n].IfaceUp? && es[n].iface == a
            then Up(es, n, a) || (Usable(a) && |UpAt(es, n)| < MAX_NUM_IFACE)
            else Up(es, n, a) && es[n] != IfaceDown(a)
  {
    forall i: nat | i <= n ensures NoDownSince(es, i, n + 1, a) <==>
      NoDownSince(es, i, n, a) && (i < n ==> es[n] != IfaceDown(a))
    {
      NoDownStep(es, i, n, a);
    }
    if Up(es, n, a) {
      var i :| 0 <= i < n && es[i].IfaceUp? && es[i].iface == a
        && Usable(a) && |UpAt(es, i)| < MAX_NUM_IFACE && NoDownSince(es, i, n, a);
      if es[n] != IfaceDown(a) { assert NoDownSince(es, i, n + 1, a); }
    }
    if es[n].IfaceUp? && es[n].iface == a && Usable(a) && |UpAt(es, n)| < MAX_NUM_IFACE {
      assert NoDownSince(es, n, n + 1, a);
    }
  }

  lemma {:induction false} UpStays(es: seq<Event>, j: nat, n: nat, a: Lan)
    requires j <= n <= |es| && Up(es, j, a) && forall k :: j <= k < n ==> es[k] != IfaceDown(a)
    ensures Up(es, n, a)
    decreases n
  {
    if j < n {
      UpStays(es, j, n - 1, a);
      UpStep(es, n - 1, a);
    }
  }

  lemma AddressMeansUp(es: seq<Event>, n: nat, a: Lan, ip: Ip)
    requires n <= |es| && HasAddress(es, n, a, ip)
    ensures Up(es, n, a)
  {
    var i :| 0 <= i < n && es[i] == IfaceUp(a, ip) && Up(es, i + 1, a) && NoDownSince(es, i, n, a);
    UpStays(es, i + 1, n, a);
  }

  lemma AddressStep(es: seq<Event>, n: nat, a: Lan, ip: Ip)
    requires n < |es|
    ensures HasAddress(es, n + 1, a, ip) <==>
            || (HasAddress(es, n, a, ip) && es[n] != IfaceDown(a))
            || (es[n] == IfaceUp(a, ip) && Up(es, n + 1, a))
  {
    if es[n] == IfaceUp(a, ip) && Up(es, n + 1, a) {
      assert NoDownSince(es, n, n + 1, a);
    } else if HasAddress(es, n, a, ip) && es[n] != IfaceDown(a) {
      var i :| 0 <= i < n && es[i] == IfaceUp(a, ip) && Up(es, i + 1, a) && NoDownSince(es, i, n, a);
      NoDownStep(es, i, n, a);
    } else if HasAddress(es, n + 1, a, ip) {
      var i :| 0 <= i < n + 1 && es[i] == IfaceUp(a, ip) && Up(es, i + 1, a) && NoDownSince(es, i, n + 1, a);
      NoDownStep(es, i, n, a);
    }
  }

  lemma AnnouncedStep(es: seq<Event>, n: nat, a: Lan, c: nat)
    requires n < |es|
    ensures Announced(es, n + 1, a, c) <==>
            || (es[n] == ClientAdd(a, c) && Taken(es, n))
            || (Announced(es, n, a, c) && es[n] != IfaceDown(a) && !(Up(es, n, a) && es[n] == ClientDel(a, c)))
  {
    if es[n] == ClientAdd(a, c) && Taken(es, n) {
      assert NoDownSince(es, n, n + 1, a) && NotDeletedSince(es, n, n + 1, a, c);
    } else if Announced(es, n, a, c) && es[n] != IfaceDown(a) && !(Up(es, n, a) && es[n] == ClientDel(a, c)) {
      var i :| 0 <= i < n && es[i] == ClientAdd(a, c) && Taken(es, i) && NoDownSince(es, i, n, a)
        && NotDeletedSince(es, i, n, a, c);
      assert NoDownSince(es, i, n + 1, a) && NotDeletedSince(es, i, n + 1, a, c);
    }
  }

  /** An announcement for an interface that is not up waits exactly if it counts. */
  lemma AnnouncedWaits(es: seq<Event>, n: nat, a: Lan, c: nat)
    requires n <= |es| && !Up(es, n, a)
    ensures Announced(es, n, a, c) <==> exists i :: 0 <= i < n && es[i] == ClientAdd(a, c) && Waits(es, i, n)
  {
    if Announced(es, n, a, c) {
      var i :| 0 <= i < n && es[i] == ClientAdd(a, c) && Taken(es, i) && NoDownSince(es, i, n, a)
        && NotDeletedSince(es, i, n, a, c);
      forall j | i <= j <= n ensures !Up(es, j, a) {
        if Up(es, j, a) { UpStays(es, j, n, a); }
      }
      assert Waits(es, i, n);
    }
    if i :| 0 <= i < n && es[i] == ClientAdd(a, c) && Waits(es, i, n) {
      assert Taken(es, i) && NotDeletedSince(es, i, n, a, c);
    }
  }

  lemma {:induction false} InWaiting(es: seq<Event>, n: nat, m: nat, a: Lan, c: nat)
    requires m <= n <= |es|
    ensures (a, c) in Waiting(es, n, m) <==> exists i :: 0 <= i < m && es[i] == ClientAdd(a, c) && Waits(es, i, n)
    decreases m
  {
    if m > 0 {
      InWaiting(es, n, m - 1, a, c);
      if Waits(es, m - 1, n) {
        assert Waiting(es, n, m) == [(es[m - 1].iface, es[m - 1].mac)] + Waiting(es, n, m - 1);
      }
    }
  }

  lemma WaitsStep(es: seq<Event>, i: nat, n: nat)
    requires i < n < |es|
    ensures Waits(es, i, n + 1) <==>
            Waits(es, i, n) && !Up(es, n + 1, es[i].iface) && es[n] != IfaceDown(es[i].iface)
  {}

  /** The event at `n` takes the announcements for its interface out if that is up or down now. */
  lemma {:induction false} WaitingStep(es: seq<Event>, n: nat, m: nat)
    requires m <= n < |es|
    ensures Waiting(es, n + 1, m) ==
            if es[n].IfaceDown? || Up(es, n + 1, es[n].iface) then Uncached(Waiting(es, n, m), es[n].iface)
            else Waiting(es, n, m)
    decreases m
  {
    if m > 0 {
      WaitingStep(es, n, m - 1);
      WaitsStep(es, m - 1, n);
      UpStep(es, n, es[m - 1].iface);
      if Waits(es, m - 1, n) {
        var x, rest := (es[m - 1].iface, es[m - 1].mac), Waiting(es, n, m - 1);
        assert ([x] + rest)[1..] == rest;
      }
    }
  }

  // ---------------------------------------------------------------- the controller's network

  /** `net` is the network that the first `n` events come to. */
  ghost predicate Describes(es: seq<Event>, n: nat, net: Network)
    requires n <= |es|
  {
    && WellFormed(net.top)
    && net.top.ifaces == UpAt(es, n)
    && net.cached == Waiting(es, n, n)
    && (forall a :: a in net.top.ifaces ==> net.top.clients[a] == ClientsAt(es, n, a))
    && (forall a, ip :: a in net.top.ifaces ==> (ip in net.top.ips[a] <==> HasAddress(es, n, a, ip)))
  }

  lemma IsUp(es: seq<Event>, n: nat, a: Lan)
    requires n <= |es|
    ensures a in UpAt(es, n) <==> Up(es, n, a)
  {}

  lemma IsClientAt(es: seq<Event>, n: nat, a: Lan, c: nat)
    requires n <= |es|
    ensures c in ClientsAt(es, n, a) <==> IsClient(es, n, a, c)
  {}

  lemma UpAtStep(es: seq<Event>, n: nat, net: Network)
    requires n < |es| && Describes(es, n, net)
    ensures Next(net, es[n]).top.ifaces == UpAt(es, n + 1)
  {
    forall a ensures a in Next(net, es[n]).top.ifaces <==> a in UpAt(es, n + 1) {
      NextUp(net, es[n], a);
      UpStep(es, n, a);
      IsUp(es, n, a);
      IsUp(es, n + 1, a);
    }
  }

  lemma NextUp(net: Network, e: Event, a: Lan)
    requires WellFormed(net.top)
    ensures a in Next(net, e).top.ifaces <==>
            if e.IfaceUp? && e.iface == a
            then a in net.top.ifaces || (Usable(a) && |net.top.ifaces| < MAX_NUM_IFACE)
            else a in net.top.ifaces && e != IfaceDown(a)
  {}

  lemma CachedStep(es: seq<Event>, n: nat, net: Network)
    requires n < |es| && Describes(es, n, net)
    ensures Next(net, es[n]).cached == Waiting(es, n + 1, n + 1)
  {
    var a := es[n].iface;
    WaitingStep(es, n, n);
    UpStep(es, n, a);
    IsUp(es, n, a);
    if Up(es, n, a) { NoneWaits(es, n, n, a); }
  }

  lemma {:induction false} NoneWaits(es: seq<Event>, n: nat, m: nat, a: Lan)
    requires m <= n <= |es| && Up(es, n, a)
    ensures Uncached(Waiting(es, n, m), a) == Waiting(es, n, m)
    decreases m
  {
    if m > 0 {
      NoneWaits(es, n, m - 1, a);
      if Waits(es, m - 1, n) {
        var x, rest := (es[m - 1].iface, es[m - 1].mac), Waiting(es, n, m - 1);
        assert ([x] + rest)[1..] == rest;
      }
    }
  }

  lemma NextAddress(net: Network, e: Event, a: Lan, ip: Ip)
    requires WellFormed(net.top) && a in Next(net, e).top.ifaces
    ensures ip in Next(net, e).top.ips[a] <==> e == IfaceUp(a, ip) || (a in net.top.ifaces && ip in net.top.ips[a])
  {}

  lemma NextAddressIs(es: seq<Event>, n: nat, net: Network, a: Lan, ip: Ip)
    requires n < |es| && Describes(es, n, net) && a in Next(net, es[n]).top.ifaces
    ensures ip in Next(net, es[n]).top.ips[a] <==> HasAddress(es, n + 1, a, ip)
  {
    NextAddress(net, es[n], a, ip);
    NextUp(net, es[n], a);
    UpAtStep(es, n, net);
    IsUp(es, n, a);
    IsUp(es, n + 1, a);
    AddressStep(es, n, a, ip);
    if HasAddress(es, n, a, ip) { AddressMeansUp(es, n, a, ip); }
  }

  lemma NextClient(net: Network, e: Event, a: Lan, c: nat)
    requires WellFormed(net.top) && a in Next(net, e).top.ifaces
    ensures c in Next(net, e).top.clients[a] <==>
            if a in net.top.ifaces
            then (c in net.top.clients[a] && e != ClientDel(a, c))
              || (e == ClientAdd(a, c) && |net.top.clients[a]| < MAX_NUM_CLIENT)
            else (a, c) in net.cached
  {
    CachedForIs(net.cached, a);
  }

  lemma ClientStep(es: seq<Event>, n: nat, a: Lan, c: nat)
    requires n < |es| && Up(es, n + 1, a)
    ensures c in ClientsAt(es, n + 1, a) <==>
            if Up(es, n, a)
            then (c in ClientsAt(es, n, a) && es[n] != ClientDel(a, c))
              || (es[n] == ClientAdd(a, c) && |ClientsAt(es, n, a)| < MAX_NUM_CLIENT)
            else (a, c) in Waiting(es, n, n)
  {
    UpStep(es, n, a);
    AnnouncedStep(es, n, a, c);
    IsClientAt(es, n, a, c);
    IsClientAt(es, n + 1, a, c);
    if !Up(es, n, a) {
      AnnouncedWaits(es, n, a, c);
      InWaiting(es, n, n, a, c);
    }
  }

  lemma NextClientIs(es: seq<Event>, n: nat, net: Network, a: Lan, c: nat)
    requires n < |es| && Describes(es, n, net) && a in Next(net, es[n]).top.ifaces
    ensures c in Next(net, es[n]).top.clients[a] <==> c in ClientsAt(es, n + 1, a)
  {
    NextClient(net, es[n], a, c);
    UpAtStep(es, n, net);
    IsUp(es, n, a);
    IsUp(es, n + 1, a);
    ClientStep(es, n, a, c);
  }

  lemma StepDescribes(es: seq<Event>, n: nat, net: Network)
    requires n < |es| && Describes(es, n, net)
    ensures Describes(es, n + 1, Next(net, es[n]))
  {
    UpAtStep(es, n, net);
    CachedStep(es, n, net);
    var net' := Next(net, es[n]);
    forall a | a in net'.top.ifaces ensures net'.top.clients[a] == ClientsAt(es, n + 1, a) {
      forall c ensures c in net'.top.clients[a] <==> c in ClientsAt(es, n + 1, a) {
        NextClientIs(es, n, net, a, c);
      }
    }
    forall a, ip | a in net'.top.ifaces ensures ip in net'.top.ips[a] <==> HasAddress(es, n + 1, a, ip) {
      NextAddressIs(es, n, net, a, ip);
    }
  }

  lemma {:induction false} EventsDescribe(es: seq<Event>, n: nat)
    requires n <= |es|
    ensures Describes(es, n, After(NOTHING, es[..n]))
    decreases n
  {
    if n > 0 {
      EventsDescribe(es, n - 1);
      assert es[..n][..n - 1] == es[..n - 1];
      StepDescribes(es, n - 1, After(NOTHING, es[..n - 1]));
    }
  }

  /** After every run of events from the start the network is the one that the list of events comes to. */
  lemma {:induction false} EventsDecideNetwork(es: seq<Event>, a: Lan, ip: Ip, c: nat)
    ensures var net := After(NOTHING, es);
            && (a in net.top.ifaces <==> Up(es, |es|, a))
            && (a in net.top.ifaces ==> (ip in net.top.ips[a] <==> HasAddress(es, |es|, a, ip)))
            && (a in net.top.ifaces ==> (c in net.top.clients[a] <==> IsClient(es, |es|, a, c)))
            && net.cached == Waiting(es, |es|, |es|)
  {
    EventsDescribe(es, |es|);
    assert es[..|es|] == es;
    IsUp(es, |es|, a);
    IsClientAt(es, |es|, a, c);
  }

  /** What a run of events wants in the hardware, read off the list. */
  ghost predicate WantedBy(es: seq<Event>, k: Key) {
    var n := |es|;
    && Up(es, n, k.on)
    && match k
       case CtxKey(a, t) => PeerUp(es, a, t)
       case RtKey(a, c, t, _) => IsClient(es, n, a, c) && PeerUp(es, a, t)
       case FltKey(a, b, c, ip) => b != a && IsClient(es, n, b, c) && HasAddress(es, n, a, ip)
       case IntraCtxKey(a) => a.wlan
       case IntraRtKey(a, c, _) => a.wlan && IsClient(es, n, a, c)
       case IntraFltKey(a, c, ip) => a.wlan && IsClient(es, n, a, c) && HasAddress(es, n, a, ip)
  }

  /** Another interface with header type `t` is up. */
  ghost predicate PeerUp(es: seq<Event>, a: Lan, t: L2Type) {
    exists b :: b != a && b.l2 == t && Up(es, |es|, b)
  }

  lemma {:induction false} PeersAreUp(es: seq<Event>, a: Lan, t: L2Type)
    ensures PeerUp(es, a, t) <==> exists b :: b in After(NOTHING, es).top.ifaces && b != a && b.l2 == t
  {
    forall b ensures b in After(NOTHING, es).top.ifaces <==> Up(es, |es|, b) {
      EventsDecideNetwork(es, b, V4, 0);
    }
  }

  lemma {:induction false} WantedByEvents(es: seq<Event>, k: Key)
    ensures Wanted(After(NOTHING, es).top, k) <==> WantedBy(es, k)
  {
    EventsDecideNetwork(es, k.on, V4, 0);
    match k
    case CtxKey(a, t) => PeersAreUp(es, a, t);
    case RtKey(a, c, t, _) =>
      PeersAreUp(es, a, t);
      EventsDecideNetwork(es, a, V4, c);
    case FltKey(a, b, c, ip) =>
      EventsDecideNetwork(es, a, ip, 0);
      EventsDecideNetwork(es, b, V4, c);
    case IntraCtxKey(_) =>
    case IntraRtKey(a, c, _) => EventsDecideNetwork(es, a, V4, c);
    case IntraFltKey(a, c, ip) => EventsDecideNetwork(es, a, ip, c);
  }

  // ---------------------------------------------------------------- a deletion that comes too early

  /** The last event about client `c` is its deletion, at `i`.  It is a client all the same exactly if
      `a` was not up then and its announcement was cached, and `a` has come up since and is up. */
  lemma DeletedIsClientIff(es: seq<Event>, i: nat, n: nat, a: Lan, c: nat)
    requires i < n <= |es| && es[i] == ClientDel(a, c)
    requires forall j :: i < j < n ==> es[j] != ClientAdd(a, c) && es[j] != ClientDel(a, c)
    ensures IsClient(es, n, a, c) <==>
            !Up(es, i, a) && (a, c) in Waiting(es, i, i) && Up(es, n, a) && NoDownSince(es, i, n, a)
  {
    InWaiting(es, i, i, a, c);
    if IsClient(es, n, a, c) {
      assert Announced(es, n, a, c);
      EarlierAnnouncement(es, i, n, a, c);
      AnnouncedWaits(es, i, a, c);
    } else if !Up(es, i, a) && (a, c) in Waiting(es, i, i) && NoDownSince(es, i, n, a) {
      var k :| 0 <= k < i && es[k] == ClientAdd(a, c) && Waits(es, k, i);
      assert Taken(es, k) && NoDownSince(es, k, n, a) && NotDeletedSince(es, k, n, a, c);
    }
  }

  lemma EarlierAnnouncement(es: seq<Event>, i: nat, n: nat, a: Lan, c: nat)
    requires i < n <= |es| && es[i] == ClientDel(a, c) && Announced(es, n, a, c)
    requires forall j :: i < j < n ==> es[j] != ClientAdd(a, c)
    ensures Announced(es, i, a, c) && !Up(es, i, a) && NoDownSince(es, i, n, a)
  {
    var k: nat :| k < n && es[k] == ClientAdd(a, c) && Taken(es, k) && NoDownSince(es, k, n, a)
      && NotDeletedSince(es, k, n, a, c);
    assert k < i && NoDownSince(es, k, i, a) && NotDeletedSince(es, k, i, a, c);
  }

  /** A client is announced and deleted before its interface comes up: it is a client then. */
  lemma {:induction false} DeletedTooEarly(a: Lan)
    requires Usable(a)
    ensures var es := [ClientAdd(a, 7), ClientDel(a, 7), IfaceUp(a, V4)];
            a in After(NOTHING, es).top.ifaces && 7 in After(NOTHING, es).top.clients[a]
  {
    var es := [ClientAdd(a, 7), ClientDel(a, 7), IfaceUp(a, V4)];
    UpStep(es, 2, a);
    UpStep(es, 1, a);
    UpStep(es, 0, a);
    assert UpAt(es, 2) == {};
    assert Waits(es, 0, 1);
    DeletedIsClientIff(es, 1, 3, a, 7);
    EventsDecideNetwork(es, a, V4, 7);
  }
}
