/** The bookkeeping of the LAN-to-LAN offload controller: what each interface object records
    about its addresses, clients, peers and reference counts, and what rules that record calls
    for in the hardware. */
module LanBook {
  import opened Common

  datatype L2Type = L2None | EthII | Eth8023 | L2Max

  /** A network interface as the controller sees it: its identity, whether it has transmit and
      receive properties, the link-layer header type of the first transmit property, and whether
      it is a WLAN interface. */
  datatype Lan = Lan(id: nat, hasProps: bool, l2: L2Type, wlan: bool)

  /** A routing table by name: from one header type to another, or the intra-interface one. */
  datatype Table = InterTable(source: L2Type, target: L2Type) | IntraTable

  /** What can be installed: header processing contexts, routing rules and filtering rules,
      between interfaces and within one.  Client addresses are numbers. */
  datatype Key =
    | CtxKey(on: Lan, peerL2: L2Type)
    | RtKey(on: Lan, mac: nat, peerL2: L2Type, ip: Ip)
    | FltKey(on: Lan, peer: Lan, mac: nat, ip: Ip)
    | IntraCtxKey(on: Lan)
    | IntraRtKey(on: Lan, mac: nat, ip: Ip)
    | IntraFltKey(on: Lan, mac: nat, ip: Ip)

  datatype Book = Book(
    order: seq<Lan>,
    ipUp: map<Lan, set<Ip>>,
    refCnt: map<(Lan, L2Type), int>,
    clients: map<Lan, seq<nat>>,
    peers: map<Lan, seq<Lan>>,
    flt: map<(Lan, Lan), seq<nat>>,
    tblForFlt: map<(Lan, Lan), Table>,
    tblForRt: map<(Lan, Lan), Table>,
    intraUp: set<Lan>,
    intraFlt: map<Lan, seq<nat>>)

  const MAX_NUM_IFACE: nat := 10
  const MAX_NUM_CLIENT: nat := 16

  // ---------------------------------------------------------------- reading the book

  function IpUp(bk: Book, a: Lan): set<Ip> { if a in bk.ipUp then bk.ipUp[a] else {} }

  function Ref(bk: Book, a: Lan, t: L2Type): int { if (a, t) in bk.refCnt then bk.refCnt[(a, t)] else 0 }

  function Clients(bk: Book, a: Lan): seq<nat> { if a in bk.clients then bk.clients[a] else [] }

  function Peers(bk: Book, a: Lan): seq<Lan> { if a in bk.peers then bk.peers[a] else [] }

  function Flt(bk: Book, a: Lan, b: Lan): seq<nat> { if (a, b) in bk.flt then bk.flt[(a, b)] else [] }

  function IntraFlt(bk: Book, a: Lan): seq<nat> { if a in bk.intraFlt then bk.intraFlt[a] else [] }

  // ---------------------------------------------------------------- lists

  ghost predicate NoDup<T>(s: seq<T>) {
    forall i, j :: 0 <= i < j < |s| ==> s[i] != s[j]
  }

  /** A loop over `list` has come to position `n`; `done` are the elements before it. */
  ghost predicate Visited<T>(list: seq<T>, n: nat, done: set<T>) {
    && n <= |list|
    && (forall i :: 0 <= i < |list| ==> (list[i] in done <==> i < n))
    && (forall x :: x in done ==> x in list)
  }

  lemma VisitNext<T>(list: seq<T>, n: nat, done: set<T>)
    requires NoDup(list) && n < |list| && Visited(list, n, done)
    ensures list[n] !in done && Visited(list, n + 1, done + {list[n]})
  {}

  /** How many of the interfaces have header type `t`. */
  function CountL2(s: seq<Lan>, t: L2Type): nat {
    if s == [] then 0 else (if s[0].l2 == t then 1 else 0) + CountL2(s[1..], t)
  }

  lemma {:induction false} CountPositive(s: seq<Lan>, t: L2Type)
    ensures CountL2(s, t) > 0 <==> exists b :: b in s && b.l2 == t
  {
    if s != [] {
      assert s == [s[0]] + s[1..];
      CountPositive(s[1..], t);
      assert s[0] in s;
    }
  }

  lemma CountFront(b: Lan, s: seq<Lan>, t: L2Type)
    ensures CountL2([b] + s, t) == CountL2(s, t) + if b.l2 == t then 1 else 0
  {
    assert ([b] + s)[1..] == s;
  }

  /** list::erase of an element that occurs at most once. */
  function Erase<T(==)>(s: seq<T>, x: T): seq<T> {
    if s == [] then [] else if s[0] == x then s[1..] else [s[0]] + Erase(s[1..], x)
  }

  lemma {:induction false} EraseRemoves<T>(s: seq<T>, x: T)
    requires NoDup(s)
    ensures NoDup(Erase(s, x))
    ensures forall y :: y in Erase(s, x) <==> y in s && y != x
    ensures |Erase(s, x)| <= |s|
  {
    if s != [] {
      EraseRemoves(s[1..], x);
      assert s == [s[0]] + s[1..];
      if s[0] == x {
        forall y | y in s[1..] ensures y != x {}
      } else {
        var r := Erase(s[1..], x);
        forall i | 0 <= i < |r| ensures r[i] != s[0] { assert r[i] in r; }
      }
    }
  }

  lemma EraseMembers<T>(s: seq<T>, x: T)
    requires NoDup(s)
    ensures forall y :: y in Erase(s, x) <==> y in s && y != x
    ensures |Erase(s, x)| <= |s|
  {
    EraseRemoves(s, x);
  }

  lemma {:induction false} EraseCounts(s: seq<Lan>, x: Lan, t: L2Type)
    requires x in s
    ensures CountL2(Erase(s, x), t) == CountL2(s, t) - if x.l2 == t then 1 else 0
  {
    assert s == [s[0]] + s[1..];
    if s[0] != x {
      EraseCounts(s[1..], x, t);
      assert ([s[0]] + Erase(s[1..], x))[1..] == Erase(s[1..], x);
    }
  }

  lemma FrontKeepsNoDup<T>(x: T, s: seq<T>)
    requires NoDup(s) && x !in s
    ensures NoDup([x] + s)
  {}

  // ---------------------------------------------------------------- what the book calls for

  /** Does the record call for `k` to be installed? */
  predicate Booked(bk: Book, k: Key) {
    k.on in bk.order &&
    match k
    case CtxKey(a, t) => Ref(bk, a, t) > 0
    case RtKey(a, c, t, _) => c in Clients(bk, a) && Ref(bk, a, t) > 0
    case FltKey(a, b, c, ip) => b in Peers(bk, a) && c in Flt(bk, a, b) && ip in IpUp(bk, a)
    case IntraCtxKey(a) => a in bk.intraUp
    case IntraRtKey(a, c, _) => a in bk.intraUp && c in Clients(bk, a)
    case IntraFltKey(a, c, ip) => a in bk.intraUp && c in IntraFlt(bk, a) && ip in IpUp(bk, a)
  }

  /** The installed things are exactly those the book calls for. */
  ghost predicate Matches(bk: Book, inst: set<Key>) {
    forall k :: k in inst <==> Booked(bk, k)
  }

  /** The routing table that a rule of kind `k` belongs in or points to. */
  function TableFor(k: Key): Table {
    match k
    case RtKey(a, _, t, _) => InterTable(t, a.l2)
    case FltKey(a, b, _, _) => InterTable(a.l2, b.l2)
    case _ => IntraTable
  }

  /** Routing rules name a processing context, which rewrites the header. */
  predicate NamesContext(k: Key) {
    k.RtKey? || k.IntraRtKey?
  }

  /** The processing context that a rule of kind `k` names; other kinds name none. */
  function ContextOf(k: Key): Key {
    match k
    case RtKey(a, _, t, _) => CtxKey(a, t)
    case IntraRtKey(a, _, _) => IntraCtxKey(a)
    case _ => k
  }

  /** The handle recorded for that context. */
  function ContextHdl(hdl: map<Key, nat>, k: Key): nat {
    if NamesContext(k) && ContextOf(k) in hdl then hdl[ContextOf(k)] else 0
  }

  predicate Usable(a: Lan) {
    a.hasProps && a.l2 != L2None && a.l2 != L2Max
  }

  /** No list has an element twice. */
  ghost predicate Distinct(bk: Book) {
    && NoDup(bk.order)
    && (forall a :: a in bk.order ==> NoDup(Clients(bk, a)) && NoDup(Peers(bk, a)) && NoDup(IntraFlt(bk, a)))
    && (forall a, b :: a in bk.order && b in Peers(bk, a) ==> NoDup(Flt(bk, a, b)))
  }

  /** Being a peer is mutual, and the peers are other interfaces in the list. */
  ghost predicate Mutual(bk: Book) {
    forall a, b :: a in bk.order && b in Peers(bk, a) ==> b in bk.order && b != a && a in Peers(bk, b)
  }

  /** The reference counts count the peers of each header type. */
  ghost predicate Counted(bk: Book) {
    forall a, t :: a in bk.order ==> Ref(bk, a, t) == CountL2(Peers(bk, a), t)
  }

  /** The crossed table names of the peer record of `b` on `a`. */
  predicate NamedFor(bk: Book, a: Lan, b: Lan) {
    && (a, b) in bk.tblForFlt && bk.tblForFlt[(a, b)] == InterTable(a.l2, b.l2)
    && (a, b) in bk.tblForRt && bk.tblForRt[(a, b)] == InterTable(b.l2, a.l2)
  }

  ghost predicate Named(bk: Book) {
    forall a, b :: a in bk.order && b in Peers(bk, a) ==> NamedFor(bk, a, b)
  }

  /** What holds of the book between any two of the controller's steps. */
  ghost predicate Core(bk: Book) {
    Distinct(bk) && Mutual(bk) && Counted(bk) && Named(bk)
  }

  ghost predicate Limited(bk: Book) {
    && |bk.order| <= MAX_NUM_IFACE
    && (forall a :: a in bk.order ==> Usable(a) && IpUp(bk, a) != {} && |Clients(bk, a)| <= MAX_NUM_CLIENT)
  }

  /** Everyone is everyone else's peer. */
  ghost predicate Meshed(bk: Book) {
    forall a, b :: a in bk.order && b in bk.order && a != b ==> b in Peers(bk, a)
  }

  /** Filtering rules are recorded for exactly the clients that exist. */
  ghost predicate Filtered(bk: Book) {
    && (forall a, b, c :: a in bk.order && b in Peers(bk, a) ==> (c in Flt(bk, a, b) <==> c in Clients(bk, b)))
    && (forall a :: a in bk.order ==> (a in bk.intraUp <==> a.wlan))
    && (forall a, c :: a in bk.order && a.wlan ==> (c in IntraFlt(bk, a) <==> c in Clients(bk, a)))
  }

  /** What holds of the book between events. */
  ghost predicate Settled(bk: Book) {
    Core(bk) && Limited(bk) && Meshed(bk) && Filtered(bk)
  }

  // ---------------------------------------------------------------- the declarative target

  /** The logical topology: which interfaces are up, with which addresses and clients. */
  datatype Topology = Topology(ifaces: set<Lan>, ips: map<Lan, set<Ip>>, clients: map<Lan, set<nat>>)

  function ClientSet(bk: Book, a: Lan): set<nat> {
    set c | c in Clients(bk, a)
  }

  function TopologyOf(bk: Book): Topology {
    var up := set a | a in bk.order;
    Topology(up, map a | a in up :: IpUp(bk, a), map a | a in up :: ClientSet(bk, a))
  }

  lemma TopologyIs(bk: Book, top: Topology)
    requires forall a :: a in top.ifaces <==> a in bk.order
    requires top.ips.Keys == top.ifaces && top.clients.Keys == top.ifaces
    requires forall a :: a in top.ifaces ==> top.ips[a] == IpUp(bk, a) && top.clients[a] == ClientSet(bk, a)
    ensures TopologyOf(bk) == top
  {
    assert TopologyOf(bk).ifaces == top.ifaces;
    assert TopologyOf(bk).ips == top.ips;
    assert TopologyOf(bk).clients == top.clients;
  }

  /** What should be installed for a topology, and nothing else. */
  ghost predicate Wanted(top: Topology, k: Key)
    requires top.ips.Keys == top.ifaces && top.clients.Keys == top.ifaces
  {
    k.on in top.ifaces &&
    match k
    case CtxKey(a, t) => exists b :: b in top.ifaces && b != a && b.l2 == t
    case RtKey(a, c, t, _) => c in top.clients[a] && exists b :: b in top.ifaces && b != a && b.l2 == t
    case FltKey(a, b, c, ip) => b in top.ifaces && b != a && c in top.clients[b] && ip in top.ips[a]
    case IntraCtxKey(a) => a.wlan
    case IntraRtKey(a, c, _) => a.wlan && c in top.clients[a]
    case IntraFltKey(a, c, ip) => a.wlan && c in top.clients[a] && ip in top.ips[a]
  }

  /** The topology with client `c` on `a`. */
  function WithClientIn(top: Topology, a: Lan, c: nat): Topology
    requires a in top.clients
  {
    top.(clients := top.clients[a := top.clients[a] + {c}])
  }

  function WithoutClientIn(top: Topology, a: Lan, c: nat): Topology
    requires a in top.clients
  {
    top.(clients := top.clients[a := top.clients[a] - {c}])
  }

  /** The topology after `a` has come up, or got a further address. */
  function WithIfaceIn(top: Topology, a: Lan, ip: Ip): Topology {
    if a in top.ifaces && a in top.ips then top.(ips := top.ips[a := top.ips[a] + {ip}])
    else Topology(top.ifaces + {a}, top.ips[a := {ip}], top.clients[a := {}])
  }

  function WithoutIfaceIn(top: Topology, a: Lan): Topology {
    Topology(top.ifaces - {a}, top.ips - {a}, top.clients - {a})
  }

  lemma PeerOfType(bk: Book, a: Lan, t: L2Type)
    requires Mutual(bk) && Counted(bk) && Meshed(bk) && a in bk.order
    ensures Ref(bk, a, t) > 0 <==> exists b :: b in TopologyOf(bk).ifaces && b != a && b.l2 == t
  {
    CountPositive(Peers(bk, a), t);
    if Ref(bk, a, t) > 0 {
      var b :| b in Peers(bk, a) && b.l2 == t;
      assert b in TopologyOf(bk).ifaces;
    }
    if b :| b in TopologyOf(bk).ifaces && b != a && b.l2 == t {
      assert b in Peers(bk, a);
    }
  }

  lemma FilterBookedIffWanted(bk: Book, a: Lan, b: Lan, c: nat, ip: Ip)
    requires Mutual(bk) && Meshed(bk) && Filtered(bk) && a in bk.order
    ensures Booked(bk, FltKey(a, b, c, ip)) <==> Wanted(TopologyOf(bk), FltKey(a, b, c, ip))
  {
    if b in Peers(bk, a) {
      assert b in bk.order && b != a;
      assert c in Flt(bk, a, b) <==> c in Clients(bk, b);
    } else {
      assert b in bk.order ==> b == a;
    }
  }

  /** Between events the record calls for exactly what the topology wants. */
  lemma BookedIffWanted(bk: Book, k: Key)
    requires Mutual(bk) && Counted(bk) && Meshed(bk) && Filtered(bk)
    ensures Booked(bk, k) <==> Wanted(TopologyOf(bk), k)
  {
    if k.on in bk.order {
      match k
      case CtxKey(a, t) => PeerOfType(bk, a, t);
      case RtKey(a, c, t, _) => PeerOfType(bk, a, t);
      case FltKey(a, b, c, ip) => FilterBookedIffWanted(bk, a, b, c, ip);
      case IntraCtxKey(a) =>
      case IntraRtKey(a, c, _) =>
      case IntraFltKey(a, c, ip) =>
    }
  }

  /** A wanted routing rule comes with the context that it names. */
  lemma RoutesHaveContexts(top: Topology, k: Key)
    requires top.ips.Keys == top.ifaces && top.clients.Keys == top.ifaces && Wanted(top, k) && NamesContext(k)
    ensures Wanted(top, ContextOf(k))
  {}

  /** Every wanted filtering rule points to a table with a wanted routing rule for its client. */
  lemma FiltersPointToRoutes(top: Topology, a: Lan, b: Lan, c: nat, ip: Ip)
    requires top.ips.Keys == top.ifaces && top.clients.Keys == top.ifaces
    requires Wanted(top, FltKey(a, b, c, ip))
    ensures Wanted(top, RtKey(b, c, a.l2, ip)) && Wanted(top, CtxKey(b, a.l2))
    ensures TableFor(RtKey(b, c, a.l2, ip)) == TableFor(FltKey(a, b, c, ip))
  {
    assert a in top.ifaces && a != b && a.l2 == a.l2;
  }
}
