/** The LAN-to-LAN controller as its surroundings see it: the logical network of interfaces,
    addresses and clients, the cached client announcements, and how events change them. */
module LanEvents {
  import opened Common
  import opened LanBook

  datatype Event =
    | IfaceUp(iface: Lan, ip: Ip)
    | IfaceDown(iface: Lan)
    | ClientAdd(iface: Lan, mac: nat)
    | ClientDel(iface: Lan, mac: nat)

  /** `cached` are the clients that were announced for interfaces that are not up. */
  datatype Network = Network(top: Topology, cached: seq<(Lan, nat)>)

  const MAX_NUM_CACHED_CLIENT_ADD_EVENT: nat := 10

  const NOTHING: Network := Network(Topology({}, map[], map[]), [])

  ghost predicate WellFormed(top: Topology) {
    top.ips.Keys == top.ifaces && top.clients.Keys == top.ifaces
  }

  /** The cached announcements for other interfaces than `a`. */
  function Uncached(s: seq<(Lan, nat)>, a: Lan): seq<(Lan, nat)> {
    if s == [] then [] else if s[0].0 == a then Uncached(s[1..], a) else [s[0]] + Uncached(s[1..], a)
  }

  /** The clients announced for `a`. */
  function CachedFor(s: seq<(Lan, nat)>, a: Lan): set<nat> {
    if s == [] then {} else (if s[0].0 == a then {s[0].1} else {}) + CachedFor(s[1..], a)
  }

  function WithClientsIn(top: Topology, a: Lan, cs: set<nat>): Topology
    requires a in top.clients
  {
    top.(clients := top.clients[a := top.clients[a] + cs])
  }

  /** What an event does to the network. */
  function Next(n: Network, e: Event): (r: Network)
    requires WellFormed(n.top)
    ensures WellFormed(r.top)
  {
    match e
    case IfaceUp(a, ip) =>
      if a in n.top.ifaces then n.(top := WithIfaceIn(n.top, a, ip))
      else if |n.top.ifaces| >= MAX_NUM_IFACE || !Usable(a) then n
      else Network(WithClientsIn(WithIfaceIn(n.top, a, ip), a, CachedFor(n.cached, a)), Uncached(n.cached, a))
    case IfaceDown(a) =>
      if a in n.top.ifaces then n.(top := WithoutIfaceIn(n.top, a))
      else n.(cached := Uncached(n.cached, a))
    case ClientAdd(a, c) =>
      if a in n.top.ifaces then
        if |n.top.clients[a]| < MAX_NUM_CLIENT then n.(top := WithClientIn(n.top, a, c)) else n
      else if |n.cached| < MAX_NUM_CACHED_CLIENT_ADD_EVENT then n.(cached := [(a, c)] + n.cached)
      else n
    case ClientDel(a, c) =>
      if a in n.top.ifaces then n.(top := WithoutClientIn(n.top, a, c)) else n
  }

  /** The network after a run of events. */
  function After(n: Network, es: seq<Event>): (r: Network)
    requires WellFormed(n.top)
    ensures WellFormed(r.top)
    decreases |es|
  {
    if es == [] then n else Next(After(n, es[..|es| - 1]), es[|es| - 1])
  }

  // ---------------------------------------------------------------- the cache

  /** Announcements are cached up to the limit, and only for interfaces that are not up. */
  ghost predicate CacheBounded(cached: seq<(Lan, nat)>, up: set<Lan>) {
    && |cached| <= MAX_NUM_CACHED_CLIENT_ADD_EVENT
    && (forall x :: x in cached ==> x.0 !in up)
  }

  lemma {:induction false} UncachedKeeps(s: seq<(Lan, nat)>, a: Lan)
    ensures |Uncached(s, a)| <= |s|
    ensures forall x :: x in Uncached(s, a) <==> x in s && x.0 != a
  {
    if s != [] {
      UncachedKeeps(s[1..], a);
      assert s == [s[0]] + s[1..];
    }
  }

  lemma {:induction false} CachedForIs(s: seq<(Lan, nat)>, a: Lan)
    ensures forall c :: c in CachedFor(s, a) <==> (a, c) in s
    ensures |CachedFor(s, a)| <= |s|
  {
    if s != [] {
      CachedForIs(s[1..], a);
      assert s == [s[0]] + s[1..];
      assert s[0].0 == a ==> s[0] == (a, s[0].1);
      if s[0].0 == a && s[0].1 !in CachedFor(s[1..], a) {
        assert |{s[0].1} + CachedFor(s[1..], a)| == 1 + |CachedFor(s[1..], a)|;
      } else if s[0].0 == a {
        assert {s[0].1} + CachedFor(s[1..], a) == CachedFor(s[1..], a);
      } else {
        assert {} + CachedFor(s[1..], a) == CachedFor(s[1..], a);
      }
    }
  }

  /** Scanning the list `was` for `a` has come to position `i` of what is left of it, `s`; `taken`
      are the clients found so far. */
  ghost predicate Scanned(was: seq<(Lan, nat)>, s: seq<(Lan, nat)>, i: nat, a: Lan, taken: set<nat>) {
    && i <= |s|
    && Uncached(was, a) == s[..i] + Uncached(s[i..], a)
    && CachedFor(was, a) == taken + CachedFor(s[i..], a)
  }

  lemma ScanStarts(s: seq<(Lan, nat)>, a: Lan)
    ensures Scanned(s, s, 0, a, {})
  {
    assert s[0..] == s;
  }

  lemma ScanEnds(was: seq<(Lan, nat)>, s: seq<(Lan, nat)>, a: Lan, taken: set<nat>)
    requires Scanned(was, s, |s|, a, taken)
    ensures s == Uncached(was, a) && taken == CachedFor(was, a)
  {}

  /** The entry at `i` is taken out if it is for `a`, and stays otherwise. */
  lemma ScanTakes(was: seq<(Lan, nat)>, s: seq<(Lan, nat)>, i: nat, a: Lan, taken: set<nat>)
    requires i < |s| && Scanned(was, s, i, a, taken) && s[i].0 == a
    ensures Scanned(was, s[..i] + s[i + 1..], i, a, taken + {s[i].1})
  {
    var s' := s[..i] + s[i + 1..];
    assert s'[..i] == s[..i] && s'[i..] == s[i + 1..] && s[i..][1..] == s[i + 1..];
  }

  lemma ScanSkips(was: seq<(Lan, nat)>, s: seq<(Lan, nat)>, i: nat, a: Lan, taken: set<nat>)
    requires i < |s| && Scanned(was, s, i, a, taken) && s[i].0 != a
    ensures Scanned(was, s, i + 1, a, taken)
  {
    assert s[..i + 1] == s[..i] + [s[i]] && s[i..][1..] == s[i + 1..];
  }

  // ---------------------------------------------------------------- going down leaves no trace

  /** Events about `a` change nothing about the other interfaces. */
  lemma ClientsUntouched(top: Topology, a: Lan, cs: set<nat>)
    requires a in top.clients
    ensures WithoutIfaceIn(top.(clients := top.clients[a := cs]), a) == WithoutIfaceIn(top, a)
  {
    assert top.clients[a := cs] - {a} == top.clients - {a};
  }

  lemma UpUntouched(top: Topology, a: Lan, ip: Ip)
    requires WellFormed(top)
    ensures WithoutIfaceIn(WithIfaceIn(top, a, ip), a) == WithoutIfaceIn(top, a)
  {
    var was, now := WithoutIfaceIn(top, a), WithoutIfaceIn(WithIfaceIn(top, a, ip), a);
    assert now.ifaces == was.ifaces;
    assert now.ips == was.ips;
    assert now.clients == was.clients;
  }

  lemma DownUntouched(top: Topology, a: Lan)
    ensures WithoutIfaceIn(WithoutIfaceIn(top, a), a) == WithoutIfaceIn(top, a)
  {
    assert top.ips - {a} - {a} == top.ips - {a};
    assert top.clients - {a} - {a} == top.clients - {a};
  }

  lemma OthersUntouched(n: Network, e: Event, a: Lan)
    requires WellFormed(n.top) && e.iface == a
    ensures WithoutIfaceIn(Next(n, e).top, a) == WithoutIfaceIn(n.top, a)
  {
    match e
    case IfaceUp(_, ip) =>
      UpUntouched(n.top, a, ip);
      var up := WithIfaceIn(n.top, a, ip);
      ClientsUntouched(up, a, up.clients[a] + CachedFor(n.cached, a));
    case IfaceDown(_) => DownUntouched(n.top, a);
    case ClientAdd(_, c) =>
      if a in n.top.ifaces { ClientsUntouched(n.top, a, n.top.clients[a] + {c}); }
    case ClientDel(_, c) =>
      if a in n.top.ifaces { ClientsUntouched(n.top, a, n.top.clients[a] - {c}); }
  }

  lemma {:induction false} RunLeavesOthers(n: Network, es: seq<Event>, a: Lan)
    requires WellFormed(n.top) && forall i :: 0 <= i < |es| ==> es[i].iface == a
    ensures WithoutIfaceIn(After(n, es).top, a) == WithoutIfaceIn(n.top, a)
    decreases |es|
  {
    if es != [] {
      RunLeavesOthers(n, es[..|es| - 1], a);
      OthersUntouched(After(n, es[..|es| - 1]), es[|es| - 1], a);
    }
  }

  lemma {:induction false} UncachedNone(s: seq<(Lan, nat)>, a: Lan)
    requires forall x :: x in s ==> x.0 != a
    ensures Uncached(s, a) == s
  {
    if s != [] {
      assert s[0] in s && forall x :: x in s[1..] ==> x in s;
      UncachedNone(s[1..], a);
    }
  }

  lemma UncachedTwice(s: seq<(Lan, nat)>, a: Lan)
    ensures Uncached(Uncached(s, a), a) == Uncached(s, a)
  {
    UncachedKeeps(s, a);
    UncachedNone(Uncached(s, a), a);
  }

  /** While `a` is up no announcement for it is cached. */
  ghost predicate NoneCached(n: Network, a: Lan) {
    a in n.top.ifaces ==> forall x :: x in n.cached ==> x.0 != a
  }

  lemma OthersStayCached(n: Network, e: Event, a: Lan)
    requires WellFormed(n.top) && e.iface == a && NoneCached(n, a)
    ensures Uncached(Next(n, e).cached, a) == Uncached(n.cached, a) && NoneCached(Next(n, e), a)
  {
    UncachedTwice(n.cached, a);
    UncachedKeeps(n.cached, a);
    if e.ClientAdd? { assert ([(a, e.mac)] + n.cached)[1..] == n.cached; }
  }

  lemma {:induction false} RunKeepsOthersCached(n: Network, es: seq<Event>, a: Lan)
    requires WellFormed(n.top) && a !in n.top.ifaces && forall i :: 0 <= i < |es| ==> es[i].iface == a
    ensures Uncached(After(n, es).cached, a) == Uncached(n.cached, a) && NoneCached(After(n, es), a)
    decreases |es|
  {
    if es != [] {
      RunKeepsOthersCached(n, es[..|es| - 1], a);
      OthersStayCached(After(n, es[..|es| - 1]), es[|es| - 1], a);
    }
  }

  /** Whatever happened to an interface since it came up: once it is down again, the network is
      as if it had never come up, and no announcement for it is cached. */
  lemma DownLeavesNoTrace(n: Network, es: seq<Event>, a: Lan)
    requires WellFormed(n.top) && a !in n.top.ifaces && forall i :: 0 <= i < |es| ==> es[i].iface == a
    ensures After(n, es + [IfaceDown(a)]) == Network(n.top, Uncached(n.cached, a))
  {
    var n' := After(n, es);
    RunLeavesOthers(n, es, a);
    RunKeepsOthersCached(n, es, a);
    assert (es + [IfaceDown(a)])[..|es|] == es;
    NothingToForget(n.top, a);
    if a in n'.top.ifaces {
      UncachedNone(n'.cached, a);
    } else {
      NothingToForget(n'.top, a);
    }
  }

  lemma NothingToForget(top: Topology, a: Lan)
    requires WellFormed(top) && a !in top.ifaces
    ensures WithoutIfaceIn(top, a) == top
  {
    assert top.ifaces - {a} == top.ifaces;
    assert top.ips - {a} == top.ips;
    assert top.clients - {a} == top.clients;
  }

  // ---------------------------------------------------------------- lists as sets

  lemma {:induction false} CardOfList<T>(s: seq<T>)
    requires NoDup(s)
    ensures |set x | x in s| == |s|
  {
    if s != [] {
      CardOfList(s[1..]);
      assert s == [s[0]] + s[1..];
      assert (set x | x in s) == {s[0]} + set x | x in s[1..];
    }
  }
}
