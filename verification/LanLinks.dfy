/** A new interface comes up: what linking it to the existing ones does to the book and to what
    the book calls for. */
module LanLinks {
  import opened Common
  import opened LanBook
  import opened LanClients

  // ---------------------------------------------------------------- linking

  /** The record of peer `y` on `x`. */
  function AddPeer(bk: Book, x: Lan, y: Lan, forFlt: Table, forRt: Table): Book {
    bk.(refCnt := bk.refCnt[(x, y.l2) := Ref(bk, x, y.l2) + 1],
        peers := bk.peers[x := [y] + Peers(bk, x)],
        flt := bk.flt[(x, y) := []],
        tblForFlt := bk.tblForFlt[(x, y) := forFlt],
        tblForRt := bk.tblForRt[(x, y) := forRt])
  }

  /** The new interface `a` and the existing interface `b` have become peers. */
  ghost predicate Linked(bk: Book, bk': Book, a: Lan, b: Lan) {
    && bk' == bk.(refCnt := bk'.refCnt, peers := bk'.peers, flt := bk'.flt,
                  tblForFlt := bk'.tblForFlt, tblForRt := bk'.tblForRt)
    && (forall x, t :: Ref(bk', x, t) ==
          Ref(bk, x, t) + (if x == b && t == a.l2 then 1 else 0) + (if x == a && t == b.l2 then 1 else 0))
    && (forall x :: Peers(bk', x) ==
          if x == b then [a] + Peers(bk, b) else if x == a then [b] + Peers(bk, a) else Peers(bk, x))
    && (forall x, y :: Flt(bk', x, y) == if (x == a && y == b) || (x == b && y == a) then [] else Flt(bk, x, y))
    && NamedFor(bk', a, b) && NamedFor(bk', b, a)
    && (forall x, y :: NamedFor(bk, x, y) && !(x == a && y == b) && !(x == b && y == a) ==> NamedFor(bk', x, y))
  }

  lemma AddPeerReads(bk: Book, x: Lan, y: Lan, forFlt: Table, forRt: Table)
    ensures var bk' := AddPeer(bk, x, y, forFlt, forRt);
            && (forall z, t :: Ref(bk', z, t) == Ref(bk, z, t) + if z == x && t == y.l2 then 1 else 0)
            && (forall z :: Peers(bk', z) == if z == x then [y] + Peers(bk, x) else Peers(bk, z))
            && (forall z, w :: Flt(bk', z, w) == if z == x && w == y then [] else Flt(bk, z, w))
  {}

  lemma AddPeerNames(bk: Book, x: Lan, y: Lan)
    ensures var bk' := AddPeer(bk, x, y, InterTable(x.l2, y.l2), InterTable(y.l2, x.l2));
            NamedFor(bk', x, y) && forall z, w :: NamedFor(bk, z, w) ==> NamedFor(bk', z, w)
  {}

  /** Building both records with the crossed table names links the two. */
  lemma RecordsLink(bk: Book, a: Lan, b: Lan)
    requires a != b
    ensures Linked(bk, AddPeer(AddPeer(bk, b, a, InterTable(b.l2, a.l2), InterTable(a.l2, b.l2)),
                               a, b, InterTable(a.l2, b.l2), InterTable(b.l2, a.l2)), a, b)
  {
    var bk1 := AddPeer(bk, b, a, InterTable(b.l2, a.l2), InterTable(a.l2, b.l2));
    AddPeerReads(bk, b, a, InterTable(b.l2, a.l2), InterTable(a.l2, b.l2));
    AddPeerNames(bk, b, a);
    AddPeerReads(bk1, a, b, InterTable(a.l2, b.l2), InterTable(b.l2, a.l2));
    AddPeerNames(bk1, a, b);
  }

  lemma LinkKeepsCounts(bk: Book, bk': Book, a: Lan, b: Lan)
    requires Counted(bk) && Linked(bk, bk', a, b) && a != b
    ensures Counted(bk')
  {
    forall x, t | x in bk'.order ensures Ref(bk', x, t) == CountL2(Peers(bk', x), t) {
      assert Ref(bk, x, t) == CountL2(Peers(bk, x), t);
      if x == a { CountFront(b, Peers(bk, a), t); }
      if x == b { CountFront(a, Peers(bk, b), t); }
    }
  }

  lemma LinkMembers(bk: Book, bk': Book, a: Lan, b: Lan)
    requires Linked(bk, bk', a, b) && a != b
    ensures forall x, y :: y in Peers(bk', x) <==>
      y in Peers(bk, x) || (x == b && y == a) || (x == a && y == b)
  {}

  lemma LinkKeepsMutual(bk: Book, bk': Book, a: Lan, b: Lan)
    requires Mutual(bk) && bk'.order == bk.order && a != b && a in bk.order && b in bk.order
    requires forall x, y :: y in Peers(bk', x) <==>
      y in Peers(bk, x) || (x == b && y == a) || (x == a && y == b)
    ensures Mutual(bk')
  {}

  lemma LinkKeepsPeersDistinct(bk: Book, bk': Book, a: Lan, b: Lan, x: Lan)
    requires Linked(bk, bk', a, b) && NoDup(Peers(bk, x))
    requires a !in Peers(bk, b) && b !in Peers(bk, a)
    ensures NoDup(Peers(bk', x))
  {
    if x == b { FrontKeepsNoDup(a, Peers(bk, b)); }
    if x == a { FrontKeepsNoDup(b, Peers(bk, a)); }
  }

  lemma LinkKeepsDistinct(bk: Book, bk': Book, a: Lan, b: Lan)
    requires Distinct(bk) && Linked(bk, bk', a, b) && a != b && a in bk.order && b in bk.order
    requires a !in Peers(bk, b) && b !in Peers(bk, a)
    ensures Distinct(bk')
  {
    forall x | x in bk'.order ensures NoDup(Clients(bk', x)) && NoDup(Peers(bk', x)) && NoDup(IntraFlt(bk', x)) {
      assert NoDup(Clients(bk, x)) && NoDup(Peers(bk, x)) && NoDup(IntraFlt(bk, x));
      LinkKeepsPeersDistinct(bk, bk', a, b, x);
    }
    LinkMembers(bk, bk', a, b);
    forall x, y | x in bk'.order && y in Peers(bk', x) ensures NoDup(Flt(bk', x, y)) {
      assert y in Peers(bk, x) ==> NoDup(Flt(bk, x, y));
    }
  }

  lemma LinkKeepsNames(bk: Book, bk': Book, a: Lan, b: Lan)
    requires Named(bk) && Linked(bk, bk', a, b)
    ensures Named(bk')
  {
    forall x, y | x in bk'.order && y in Peers(bk', x) ensures NamedFor(bk', x, y) {
      assert y in Peers(bk, x) ==> NamedFor(bk, x, y);
    }
  }

  lemma LinkKeepsCore(bk: Book, bk': Book, a: Lan, b: Lan)
    requires Core(bk) && Linked(bk, bk', a, b) && a != b && a in bk.order && b in bk.order
    requires a !in Peers(bk, b) && b !in Peers(bk, a)
    ensures Core(bk')
  {
    LinkKeepsCounts(bk, bk', a, b);
    LinkMembers(bk, bk', a, b);
    LinkKeepsMutual(bk, bk', a, b);
    LinkKeepsDistinct(bk, bk', a, b);
    LinkKeepsNames(bk, bk', a, b);
  }

  /** What the link calls for: a processing context on each side, and the routing rules of the
      existing interface's clients for the new header type. */
  predicate OfLink(bk: Book, a: Lan, b: Lan, k: Key) {
    match k
    case CtxKey(x, t) => (x == b && t == a.l2) || (x == a && t == b.l2)
    case RtKey(x, c, t, _) => x == b && t == a.l2 && c in Clients(bk, b)
    case _ => false
  }

  lemma LinkRefs(bk: Book, bk': Book, a: Lan, b: Lan, x: Lan, t: L2Type)
    requires Counted(bk) && Linked(bk, bk', a, b) && x in bk.order
    ensures Ref(bk, x, t) >= 0
    ensures Ref(bk', x, t) > 0 <==> Ref(bk, x, t) > 0 || (x == b && t == a.l2) || (x == a && t == b.l2)
  {
    assert Ref(bk, x, t) == CountL2(Peers(bk, x), t);
  }

  lemma LinkBooks(bk: Book, bk': Book, a: Lan, b: Lan, k: Key)
    requires Counted(bk) && Linked(bk, bk', a, b) && a != b && a in bk.order && b in bk.order
    requires a !in Peers(bk, b) && b !in Peers(bk, a) && Clients(bk, a) == []
    ensures Booked(bk', k) <==> Booked(bk, k) || OfLink(bk, a, b, k)
  {
    if k.FltKey? {
      LinkFilterBooks(bk, bk', a, b, k.on, k.peer, k.mac, k.ip);
    } else if k.CtxKey? || k.RtKey? {
      if k.on in bk.order { LinkRefs(bk, bk', a, b, k.on, k.peerL2); }
      LinkTypeBooks(bk, bk', a, b, k);
    }
  }

  lemma LinkFilterBooks(bk: Book, bk': Book, a: Lan, b: Lan, x: Lan, y: Lan, m: nat, ip: Ip)
    requires Linked(bk, bk', a, b) && a != b && a !in Peers(bk, b) && b !in Peers(bk, a)
    ensures Booked(bk', FltKey(x, y, m, ip)) <==> Booked(bk, FltKey(x, y, m, ip))
  {
    LinkMembers(bk, bk', a, b);
  }

  lemma LinkTypeBooks(bk: Book, bk': Book, a: Lan, b: Lan, k: Key)
    requires bk'.order == bk.order && bk'.clients == bk.clients && a in bk.order && b in bk.order
    requires Clients(bk, a) == [] && (k.CtxKey? || k.RtKey?)
    requires k.on in bk.order ==> (Ref(bk', k.on, k.peerL2) > 0 <==>
      Ref(bk, k.on, k.peerL2) > 0 || (k.on == b && k.peerL2 == a.l2) || (k.on == a && k.peerL2 == b.l2))
    ensures Booked(bk', k) <==> Booked(bk, k) || OfLink(bk, a, b, k)
  {
    assert Clients(bk', k.on) == Clients(bk, k.on);
  }

  // ---------------------------------------------------------------- a new interface

  /** The book with `a` recorded as up with the address `ip`, before it has any peer. */
  function Registered(bk: Book, a: Lan, ip: Ip): Book {
    bk.(order := [a] + bk.order,
        ipUp := bk.ipUp[a := {ip}],
        refCnt := bk.refCnt[(a, L2None) := 0][(a, EthII) := 0][(a, Eth8023) := 0][(a, L2Max) := 0],
        clients := bk.clients[a := []],
        peers := bk.peers[a := []],
        intraUp := bk.intraUp - {a},
        intraFlt := bk.intraFlt[a := []])
  }

  lemma RegisteredRefs(bk: Book, a: Lan, ip: Ip, x: Lan, t: L2Type)
    ensures Ref(Registered(bk, a, ip), x, t) == if x == a then 0 else Ref(bk, x, t)
  {
    assert t == L2None || t == EthII || t == Eth8023 || t == L2Max;
  }

  lemma RegisterKeepsCounts(bk: Book, a: Lan, ip: Ip)
    requires Counted(bk)
    ensures Counted(Registered(bk, a, ip))
  {
    var bk' := Registered(bk, a, ip);
    forall x, t | x in bk'.order ensures Ref(bk', x, t) == CountL2(Peers(bk', x), t) {
      RegisteredRefs(bk, a, ip, x, t);
      if x == a {
        assert CountL2([], t) == 0;
      } else {
        assert x in bk.order && Peers(bk', x) == Peers(bk, x);
      }
    }
  }

  lemma RegisterKeepsLinks(bk: Book, a: Lan, ip: Ip)
    requires Mutual(bk) && Named(bk) && a !in bk.order
    ensures Mutual(Registered(bk, a, ip)) && Named(Registered(bk, a, ip))
  {
    var bk' := Registered(bk, a, ip);
    forall x, y | x in bk'.order && y in Peers(bk', x)
      ensures y in bk'.order && y != x && x in Peers(bk', y) && NamedFor(bk', x, y)
    {
      assert x in bk.order && y in Peers(bk, x) && NamedFor(bk, x, y);
    }
  }

  lemma RegisterKeepsCore(bk: Book, a: Lan, ip: Ip)
    requires Core(bk) && a !in bk.order
    ensures Core(Registered(bk, a, ip))
  {
    RegisterKeepsCounts(bk, a, ip);
    RegisterKeepsLinks(bk, a, ip);
    RegisterKeepsDistinct(bk, a, ip);
  }

  lemma RegisterKeepsDistinct(bk: Book, a: Lan, ip: Ip)
    requires Distinct(bk) && a !in bk.order
    ensures Distinct(Registered(bk, a, ip))
  {
    var bk' := Registered(bk, a, ip);
    forall x | x in bk'.order ensures NoDup(Clients(bk', x)) && NoDup(Peers(bk', x)) && NoDup(IntraFlt(bk', x)) {
      assert x != a ==> NoDup(Clients(bk, x)) && NoDup(Peers(bk, x)) && NoDup(IntraFlt(bk, x));
    }
    forall x, y | x in bk'.order && y in Peers(bk', x) ensures NoDup(Flt(bk', x, y)) {
      assert NoDup(Flt(bk, x, y));
    }
  }

  lemma RegisterMatches(bk: Book, a: Lan, ip: Ip, inst: set<Key>)
    requires Matches(bk, inst) && a !in bk.order
    ensures Matches(Registered(bk, a, ip), inst)
  {
    forall k ensures k in inst <==> Booked(Registered(bk, a, ip), k) {
      if k.CtxKey? || k.RtKey? { RegisteredRefs(bk, a, ip, k.on, k.peerL2); }
    }
  }

  /** `a` has been linked to the interfaces `done`, and to no others. */
  ghost predicate LinkedTo(bk: Book, bk': Book, a: Lan, done: set<Lan>) {
    && bk' == bk.(refCnt := bk'.refCnt, peers := bk'.peers, flt := bk'.flt,
                  tblForFlt := bk'.tblForFlt, tblForRt := bk'.tblForRt)
    && (forall x, y :: x != a ==> (y in Peers(bk', x) <==> y in Peers(bk, x) || (y == a && x in done)))
    && (forall y :: y in Peers(bk', a) <==> y in done)
    && (forall x, y :: x != a && y != a ==> Flt(bk', x, y) == Flt(bk, x, y))
    && (forall y :: y in done ==> Flt(bk', a, y) == [] && Flt(bk', y, a) == [])
  }

  lemma LinkedToStep(bk: Book, bk1: Book, bk2: Book, a: Lan, done: set<Lan>, b: Lan)
    requires LinkedTo(bk, bk1, a, done) && Linked(bk1, bk2, a, b) && a != b && a !in done
    ensures LinkedTo(bk, bk2, a, done + {b})
  {}

  /** The book after `a` has come up: linked to all, with filters for all their clients. */
  ghost predicate BroughtUp(bk: Book, bk': Book, a: Lan, ip: Ip) {
    && bk'.order == [a] + bk.order
    && bk'.ipUp == bk.ipUp[a := {ip}]
    && bk'.clients == bk.clients[a := []]
    && bk'.intraUp == (if a.wlan then bk.intraUp + {a} else bk.intraUp - {a})
    && bk'.intraFlt == bk.intraFlt[a := []]
    && (forall x, y :: x in bk.order ==> (y in Peers(bk', x) <==> y in Peers(bk, x) || y == a))
    && (forall y :: y in Peers(bk', a) <==> y in bk.order)
    && (forall x, y :: x != a && y != a ==> Flt(bk', x, y) == Flt(bk, x, y))
    && (forall y :: y in bk.order ==> Flt(bk', y, a) == [])
    && (forall y, m :: y in bk.order ==> (m in Flt(bk', a, y) <==> m in Clients(bk, y)))
  }

  lemma BroughtUpSettles(bk: Book, bk': Book, a: Lan, ip: Ip)
    requires Settled(bk) && a !in bk.order && Usable(a) && |bk.order| < MAX_NUM_IFACE
    requires BroughtUp(bk, bk', a, ip) && Core(bk')
    ensures Settled(bk')
  {
    assert Limited(bk');
    assert Meshed(bk');
    BroughtUpFilters(bk, bk', a, ip);
  }

  lemma BroughtUpFilter(bk: Book, bk': Book, a: Lan, ip: Ip, x: Lan, y: Lan, m: nat)
    requires Filtered(bk) && Mutual(bk) && a !in bk.order && BroughtUp(bk, bk', a, ip)
    requires (x == a || x in bk.order) && y in Peers(bk', x)
    ensures m in Flt(bk', x, y) <==> m in Clients(bk', y)
  {
    if x != a && y != a {
      assert m in Flt(bk, x, y) <==> m in Clients(bk, y);
    }
  }

  lemma BroughtUpFilters(bk: Book, bk': Book, a: Lan, ip: Ip)
    requires Filtered(bk) && Mutual(bk) && a !in bk.order && BroughtUp(bk, bk', a, ip)
    ensures Filtered(bk')
  {
    forall x, y, m | x in bk'.order && y in Peers(bk', x) ensures m in Flt(bk', x, y) <==> m in Clients(bk', y) {
      BroughtUpFilter(bk, bk', a, ip, x, y, m);
    }
    forall x | x in bk'.order ensures x in bk'.intraUp <==> x.wlan {}
    forall x, m | x in bk'.order && x.wlan ensures m in IntraFlt(bk', x) <==> m in Clients(bk', x) {}
  }

  lemma BroughtUpTopology(bk: Book, bk': Book, a: Lan, ip: Ip)
    requires a !in bk.order && forall x :: x in bk'.order <==> x == a || x in bk.order
    requires bk'.ipUp == bk.ipUp[a := {ip}] && bk'.clients == bk.clients[a := []]
    ensures TopologyOf(bk') == WithIfaceIn(TopologyOf(bk), a, ip)
  {
    var top0 := TopologyOf(bk);
    var top := Topology(top0.ifaces + {a}, top0.ips[a := {ip}], top0.clients[a := {}]);
    forall x | x in top.ifaces ensures top.ips[x] == IpUp(bk', x) && top.clients[x] == ClientSet(bk', x) {
      if x != a { assert Clients(bk', x) == Clients(bk, x); }
    }
    TopologyIs(bk', top);
  }

  // ---------------------------------------------------------------- the rules of a new link

  lemma RtPairIs(a: Lan, c: nat, t: L2Type)
    ensures forall k :: k in RtPair(a, c, t) <==> k.RtKey? && k.on == a && k.mac == c && k.peerL2 == t
  {
    forall k ensures k in RtPair(a, c, t) <==> k.RtKey? && k.on == a && k.mac == c && k.peerL2 == t {
      if k.RtKey? { assert k.ip == V4 || k.ip == V6; }
    }
  }

  lemma LinkReady(bk: Book, inst: set<Key>, a: Lan, b: Lan)
    requires Counted(bk) && Matches(bk, inst) && a in bk.order && b in bk.order && a != b
    ensures Ref(bk, a, b.l2) >= 0 && Ref(bk, b, a.l2) >= 0
    ensures CtxKey(b, a.l2) in inst <==> Ref(bk, b, a.l2) > 0
    ensures CtxKey(a, b.l2) in inst <==> Ref(bk, a, b.l2) > 0
  {
    assert Ref(bk, a, b.l2) == CountL2(Peers(bk, a), b.l2);
    assert Ref(bk, b, a.l2) == CountL2(Peers(bk, b), a.l2);
  }

  /** The routing rules of `b`'s clients for the header type of `a` are all there or all missing. */
  lemma LinkRoutesReady(bk: Book, bk': Book, inst: set<Key>, inst': set<Key>, a: Lan, b: Lan)
    requires Distinct(bk) && Counted(bk) && Matches(bk, inst) && Linked(bk, bk', a, b)
    requires a != b && b in bk.order && inst' == inst + {CtxKey(b, a.l2), CtxKey(a, b.l2)}
    ensures Peers(bk', b) != [] && Peers(bk', b)[0] == a && NoDup(Clients(bk', b))
    ensures forall m, ip :: m in Clients(bk', b) ==> (RtKey(b, m, a.l2, ip) in inst' <==> Ref(bk', b, a.l2) != 1)
  {
    assert Ref(bk, b, a.l2) == CountL2(Peers(bk, b), a.l2);
    assert NoDup(Clients(bk, b));
  }

  lemma LinkMatches(bk: Book, bk': Book, inst: set<Key>, inst': set<Key>, a: Lan, b: Lan)
    requires Counted(bk) && Matches(bk, inst) && Linked(bk, bk', a, b) && a != b && a in bk.order && b in bk.order
    requires a !in Peers(bk, b) && b !in Peers(bk, a) && Clients(bk, a) == []
    requires forall k :: k in inst' <==> k in inst || OfLink(bk, a, b, k)
    ensures Matches(bk', inst')
  {
    forall k ensures k in inst' <==> Booked(bk', k) {
      LinkBooks(bk, bk', a, b, k);
    }
  }

  lemma LinkRules(bk: Book, inst: set<Key>, inst': set<Key>, a: Lan, b: Lan)
    requires forall k :: k in inst' <==>
      || k in inst + {CtxKey(b, a.l2), CtxKey(a, b.l2)}
      || (k.RtKey? && k.on == b && k.peerL2 == a.l2 && k.mac in Clients(bk, b))
    ensures forall k :: k in inst' <==> k in inst || OfLink(bk, a, b, k)
  {}

  lemma LinkDone(bk: Book, bk': Book, inst: set<Key>, inst': set<Key>, a: Lan, b: Lan)
    requires Core(bk) && Matches(bk, inst) && Linked(bk, bk', a, b) && a != b && a in bk.order && b in bk.order
    requires a !in Peers(bk, b) && b !in Peers(bk, a) && Clients(bk, a) == []
    requires forall k :: k in inst' <==>
      || k in inst + {CtxKey(b, a.l2), CtxKey(a, b.l2)}
      || (k.RtKey? && k.on == b && k.peerL2 == a.l2 && k.mac in Clients(bk', b))
    ensures Core(bk') && Matches(bk', inst')
  {
    LinkKeepsCore(bk, bk', a, b);
    assert Clients(bk', b) == Clients(bk, b);
    LinkRules(bk, inst, inst', a, b);
    LinkMatches(bk, bk', inst, inst', a, b);
  }

  // ---------------------------------------------------------------- the first filtering rules

  lemma FirstFltReady(bk: Book, inst: set<Key>, a: Lan, ip: Ip)
    requires Core(bk) && Matches(bk, inst) && a in bk.order
    requires forall b :: b in Peers(bk, a) ==> Flt(bk, a, b) == []
    ensures NoDup(Peers(bk, a))
    ensures forall b :: b in Peers(bk, a) ==> FltReady(bk, inst, a, b, ip)
  {
    forall b | b in Peers(bk, a) ensures FltReady(bk, inst, a, b, ip) {
      assert b in bk.order && a in Peers(bk, b);
      CountPositive(Peers(bk, b), a.l2);
      assert Ref(bk, b, a.l2) > 0;
    }
  }

  lemma FirstFiltersCore(bk: Book, bk': Book, a: Lan, ip: Ip, inst: set<Key>, inst': set<Key>, done: set<Lan>)
    requires Core(bk) && AllPeers(bk, a, done)
    requires FiltersAdded(bk, bk', inst, inst', a, ip, done) && bk' == bk.(flt := bk'.flt)
    ensures Core(bk')
  {
    LinksKept(bk, bk');
    forall x | x in bk'.order ensures NoDup(Clients(bk', x)) && NoDup(Peers(bk', x)) && NoDup(IntraFlt(bk', x)) {
      assert NoDup(Clients(bk, x)) && NoDup(Peers(bk, x)) && NoDup(IntraFlt(bk, x));
    }
    forall x, y | x in bk'.order && y in Peers(bk', x) ensures NoDup(Flt(bk', x, y)) {
      assert NoDup(Flt(bk, x, y));
    }
  }

  lemma FirstFiltersBook(bk: Book, bk': Book, a: Lan, ip: Ip, inst: set<Key>, inst': set<Key>, done: set<Lan>, k: Key)
    requires Matches(bk, inst) && AllPeers(bk, a, done) && a in bk.order && IpUp(bk, a) == {ip}
    requires forall b :: b in Peers(bk, a) ==> Flt(bk, a, b) == []
    requires FiltersAdded(bk, bk', inst, inst', a, ip, done) && bk' == bk.(flt := bk'.flt)
    ensures k in inst' <==> Booked(bk', k)
  {
    assert k in inst <==> Booked(bk, k);
    if k.FltKey? && k.on == a && k.peer in done {
      assert k.mac in Flt(bk', a, k.peer) <==> k.mac in Clients(bk, k.peer);
    }
  }

  lemma FirstFiltersMatch(bk: Book, bk': Book, a: Lan, ip: Ip, inst: set<Key>, inst': set<Key>, done: set<Lan>)
    requires Matches(bk, inst) && AllPeers(bk, a, done) && a in bk.order && IpUp(bk, a) == {ip}
    requires forall b :: b in Peers(bk, a) ==> Flt(bk, a, b) == []
    requires FiltersAdded(bk, bk', inst, inst', a, ip, done) && bk' == bk.(flt := bk'.flt)
    ensures Matches(bk', inst')
  {
    forall k ensures k in inst' <==> Booked(bk', k) {
      FirstFiltersBook(bk, bk', a, ip, inst, inst', done, k);
    }
  }

  /** The book with the intra-interface record of `a` set up, if it is a WLAN interface. */
  function WithIntra(bk: Book, a: Lan): Book {
    if a.wlan then bk.(intraUp := bk.intraUp + {a}) else bk
  }

  lemma IntraKeepsCore(bk: Book, a: Lan)
    requires Core(bk)
    ensures Core(WithIntra(bk, a))
  {
    LinksKept(bk, WithIntra(bk, a));
    assert Distinct(WithIntra(bk, a)) by { IntraKeepsDistinct(bk, a); }
  }

  lemma IntraKeepsDistinct(bk: Book, a: Lan)
    requires Distinct(bk)
    ensures Distinct(WithIntra(bk, a))
  {
    var bk' := WithIntra(bk, a);
    forall x | x in bk'.order ensures NoDup(Clients(bk', x)) && NoDup(Peers(bk', x)) && NoDup(IntraFlt(bk', x)) {
      assert NoDup(Clients(bk, x)) && NoDup(Peers(bk, x)) && NoDup(IntraFlt(bk, x));
    }
    forall x, y | x in bk'.order && y in Peers(bk', x) ensures NoDup(Flt(bk', x, y)) {
      assert NoDup(Flt(bk, x, y));
    }
  }

  lemma IntraBooks(bk: Book, a: Lan, k: Key)
    requires a in bk.order && a !in bk.intraUp && Clients(bk, a) == [] && IntraFlt(bk, a) == []
    ensures Booked(WithIntra(bk, a), k) <==> Booked(bk, k) || (a.wlan && k == IntraCtxKey(a))
  {}

  lemma IntraMatches(bk: Book, a: Lan, inst: set<Key>, inst': set<Key>)
    requires Matches(bk, inst) && a in bk.order && a !in bk.intraUp && Clients(bk, a) == [] && IntraFlt(bk, a) == []
    requires inst' == if a.wlan then inst + {IntraCtxKey(a)} else inst
    ensures Matches(WithIntra(bk, a), inst')
  {
    forall k ensures k in inst' <==> Booked(WithIntra(bk, a), k) {
      IntraBooks(bk, a, k);
    }
  }

  lemma BroughtUpHolds(bk: Book, bk1: Book, bk2: Book, a: Lan, ip: Ip, inst1: set<Key>, inst2: set<Key>, done: set<Lan>)
    requires a !in bk.order && LinkedTo(Registered(bk, a, ip), bk1, a, done)
    requires forall b :: b in done <==> b in bk.order
    requires FiltersAdded(bk1, bk2, inst1, inst2, a, ip, done) && bk2 == bk1.(flt := bk2.flt)
    ensures BroughtUp(bk, WithIntra(bk2, a), a, ip)
  {
    var bk' := WithIntra(bk2, a);
    forall x, y ensures x != a ==> (y in Peers(bk', x) <==> y in Peers(bk, x) || (y == a && x in done)) {
      assert Peers(bk', x) == Peers(bk1, x) && (x != a ==> Peers(Registered(bk, a, ip), x) == Peers(bk, x));
    }
    BroughtUpLists(bk, bk1, bk2, a, ip, inst1, inst2, done);
  }

  lemma BroughtUpLists(bk: Book, bk1: Book, bk2: Book, a: Lan, ip: Ip, inst1: set<Key>, inst2: set<Key>, done: set<Lan>)
    requires a !in bk.order && LinkedTo(Registered(bk, a, ip), bk1, a, done)
    requires FiltersAdded(bk1, bk2, inst1, inst2, a, ip, done) && bk2 == bk1.(flt := bk2.flt)
    requires forall b :: b in done <==> b in bk.order
    ensures var bk' := WithIntra(bk2, a);
            && (forall x, y :: x != a && y != a ==> Flt(bk', x, y) == Flt(bk, x, y))
            && (forall y :: y in bk.order ==> Flt(bk', y, a) == [])
            && (forall y, m :: y in bk.order ==> (m in Flt(bk', a, y) <==> m in Clients(bk, y)))
  {
    var bk0, bk' := Registered(bk, a, ip), WithIntra(bk2, a);
    forall x, y ensures Flt(bk', x, y) == Flt(bk2, x, y) && Flt(bk0, x, y) == Flt(bk, x, y) {}
    forall y | y in bk.order ensures Clients(bk1, y) == Clients(bk, y) {}
  }

  lemma BroughtUpDone(bk: Book, bk1: Book, bk2: Book, a: Lan, ip: Ip, inst1: set<Key>, inst2: set<Key>,
                      inst': set<Key>, done: set<Lan>, done': set<Lan>)
    requires Settled(bk) && a !in bk.order && Usable(a) && |bk.order| < MAX_NUM_IFACE
    requires LinkedTo(Registered(bk, a, ip), bk1, a, done) && forall b :: b in done <==> b in bk.order
    requires AllPeers(bk1, a, done') && FiltersAdded(bk1, bk2, inst1, inst2, a, ip, done')
    requires bk2 == bk1.(flt := bk2.flt) && Core(bk2) && Matches(bk2, inst2)
    requires inst' == if a.wlan then inst2 + {IntraCtxKey(a)} else inst2
    ensures Settled(WithIntra(bk2, a)) && Matches(WithIntra(bk2, a), inst')
    ensures TopologyOf(WithIntra(bk2, a)) == WithIfaceIn(TopologyOf(bk), a, ip)
  {
    assert done == done';
    BroughtUpHolds(bk, bk1, bk2, a, ip, inst1, inst2, done);
    IntraKeepsCore(bk2, a);
    IntraMatches(bk2, a, inst2, inst');
    BroughtUpSettles(bk, WithIntra(bk2, a), a, ip);
    BroughtUpTopology(bk, WithIntra(bk2, a), a, ip);
  }

  /** An interface without peers is nobody's peer. */
  lemma NotYetLinked(bk: Book, a: Lan)
    requires Mutual(bk) && NoDup(bk.order) && a in bk.order && Peers(bk, a) == []
    ensures forall b :: b in bk.order ==> a !in Peers(bk, b)
    ensures LinkedTo(bk, bk, a, {})
  {}
}
