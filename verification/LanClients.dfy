/** Adding and deleting a client, and giving an interface a further address: what these do to
    the book and to what the book calls for. */
module LanClients {
  import opened Common
  import opened LanBook

  // ---------------------------------------------------------------- adding and deleting a client

  function TypesOf(done: set<Lan>): set<L2Type> {
    set b | b in done :: b.l2
  }

  /** What a client `c` of `a` adds for the peers `done`: its routing rules for their header
      types and its filtering rules on them. */
  predicate OfClient(bk: Book, a: Lan, c: nat, done: set<Lan>, k: Key) {
    match k
    case RtKey(x, m, t, _) => x == a && m == c && t in TypesOf(done)
    case FltKey(x, y, m, ip) => y == a && m == c && x in done && ip in IpUp(bk, x)
    case _ => false
  }

  predicate OfIntraClient(bk: Book, a: Lan, c: nat, k: Key) {
    match k
    case IntraRtKey(x, m, _) => x == a && m == c
    case IntraFltKey(x, m, ip) => x == a && m == c && ip in IpUp(bk, a)
    case _ => false
  }

  /** `done` are the peers of `a`. */
  ghost predicate AllPeers(bk: Book, a: Lan, done: set<Lan>) {
    forall b :: b in done <==> b in Peers(bk, a)
  }

  lemma TypesOfPeers(bk: Book, a: Lan, done: set<Lan>, t: L2Type)
    requires Counted(bk) && a in bk.order && AllPeers(bk, a, done)
    ensures t in TypesOf(done) <==> Ref(bk, a, t) > 0
  {
    CountPositive(Peers(bk, a), t);
    if Ref(bk, a, t) > 0 {
      var b :| b in Peers(bk, a) && b.l2 == t;
      assert b in done;
    }
  }

  /** The book after client `c` of `a` has been recorded everywhere. */
  ghost predicate WithClient(bk: Book, bk': Book, a: Lan, c: nat) {
    && bk' == bk.(clients := bk.clients[a := [c] + Clients(bk, a)], flt := bk'.flt, intraFlt := bk'.intraFlt)
    && (forall x, y :: x in bk.order && y in Peers(bk, x) ==>
          Flt(bk', x, y) == if y == a then [c] + Flt(bk, x, a) else Flt(bk, x, y))
    && (forall x :: x in bk.order ==>
          IntraFlt(bk', x) == if x == a && a.wlan then [c] + IntraFlt(bk, a) else IntraFlt(bk, x))
  }

  lemma ClientAddedDistinct(bk: Book, bk': Book, a: Lan, c: nat)
    requires Distinct(bk) && Filtered(bk) && Mutual(bk) && a in bk.order && c !in Clients(bk, a)
    requires WithClient(bk, bk', a, c)
    ensures Distinct(bk')
  {
    forall x | x in bk'.order ensures NoDup(Clients(bk', x)) && NoDup(Peers(bk', x)) && NoDup(IntraFlt(bk', x)) {
      assert NoDup(Clients(bk, x)) && NoDup(Peers(bk, x)) && NoDup(IntraFlt(bk, x));
    }
    forall x, y | x in bk'.order && y in Peers(bk', x) ensures NoDup(Flt(bk', x, y)) {
      assert NoDup(Flt(bk, x, y));
      if y == a { assert c !in Flt(bk, x, a); }
    }
  }

  lemma ClientAddedFilter(bk: Book, bk': Book, a: Lan, c: nat, x: Lan, y: Lan, m: nat)
    requires Filtered(bk) && x in bk.order && y in Peers(bk, x) && WithClient(bk, bk', a, c)
    ensures m in Flt(bk', x, y) <==> m in Clients(bk', y)
  {
    assert m in Flt(bk, x, y) <==> m in Clients(bk, y);
    assert Flt(bk', x, y) == if y == a then [c] + Flt(bk, x, a) else Flt(bk, x, y);
  }

  lemma ClientAddedFiltered(bk: Book, bk': Book, a: Lan, c: nat)
    requires Filtered(bk) && a in bk.order && WithClient(bk, bk', a, c)
    ensures Filtered(bk')
  {
    forall x, y, m | x in bk'.order && y in Peers(bk', x) ensures m in Flt(bk', x, y) <==> m in Clients(bk', y) {
      assert Peers(bk', x) == Peers(bk, x);
      ClientAddedFilter(bk, bk', a, c, x, y, m);
    }
    forall x, m | x in bk'.order && x.wlan ensures m in IntraFlt(bk', x) <==> m in Clients(bk', x) {
      assert m in IntraFlt(bk, x) <==> m in Clients(bk, x);
    }
  }

  /** Links between interfaces do not depend on clients, addresses or recorded filters. */
  lemma LinksKept(bk: Book, bk': Book)
    requires Mutual(bk) && Counted(bk) && Named(bk)
    requires bk'.order == bk.order && bk'.peers == bk.peers && bk'.refCnt == bk.refCnt
    requires bk'.tblForFlt == bk.tblForFlt && bk'.tblForRt == bk.tblForRt
    ensures Mutual(bk') && Counted(bk') && Named(bk')
    ensures Meshed(bk) ==> Meshed(bk')
  {
    CountsKept(bk, bk');
    forall x, y | x in bk'.order && y in Peers(bk', x)
      ensures y in bk'.order && y != x && x in Peers(bk', y) && NamedFor(bk', x, y)
    {
      assert Peers(bk', x) == Peers(bk, x) && Peers(bk', y) == Peers(bk, y);
      assert y in bk.order && NamedFor(bk, x, y);
    }
    if Meshed(bk) {
      forall x, y | x in bk'.order && y in bk'.order && x != y ensures y in Peers(bk', x) {
        assert y in Peers(bk, x);
      }
    }
  }

  lemma CountsKept(bk: Book, bk': Book)
    requires Counted(bk) && bk'.order == bk.order && bk'.peers == bk.peers && bk'.refCnt == bk.refCnt
    ensures Counted(bk')
  {
    forall x, t | x in bk'.order ensures Ref(bk', x, t) == CountL2(Peers(bk', x), t) {
      assert Ref(bk, x, t) == CountL2(Peers(bk, x), t);
    }
  }

  lemma ClientAddedSettles(bk: Book, bk': Book, a: Lan, c: nat)
    requires Settled(bk) && a in bk.order && c !in Clients(bk, a) && |Clients(bk, a)| < MAX_NUM_CLIENT
    requires WithClient(bk, bk', a, c)
    ensures Settled(bk')
  {
    ClientAddedDistinct(bk, bk', a, c);
    ClientAddedFiltered(bk, bk', a, c);
    LinksKept(bk, bk');
  }

  /** The peers of `a` are all the other interfaces, and have `a` as their peer. */
  lemma PeersOfAll(bk: Book, a: Lan, done: set<Lan>, x: Lan)
    requires Mutual(bk) && Meshed(bk) && a in bk.order && AllPeers(bk, a, done)
    ensures x in done <==> x in bk.order && x != a
    ensures x in bk.order ==> (a in Peers(bk, x) <==> x != a)
  {
    if x in bk.order && x != a { assert x in Peers(bk, a); }
    if x in done { assert x in Peers(bk, a); }
  }

  lemma ClientAddedFilters(bk: Book, bk': Book, a: Lan, c: nat, done: set<Lan>,
                           x: Lan, y: Lan, m: nat, ip: Ip)
    requires WithClient(bk, bk', a, c)
    requires x in done <==> x in bk.order && x != a
    requires x in bk.order ==> (a in Peers(bk, x) <==> x != a)
    ensures var k := FltKey(x, y, m, ip);
            Booked(bk', k) <==> Booked(bk, k) || OfClient(bk, a, c, done, k)
  {
    assert Peers(bk', x) == Peers(bk, x) && IpUp(bk', x) == IpUp(bk, x);
    if x in bk.order && y in Peers(bk, x) {
      assert Flt(bk', x, y) == if y == a then [c] + Flt(bk, x, a) else Flt(bk, x, y);
    }
  }

  lemma ClientAddedIntra(bk: Book, bk': Book, a: Lan, c: nat, k: Key)
    requires a in bk.order && WithClient(bk, bk', a, c) && (a in bk.intraUp <==> a.wlan)
    requires k.IntraCtxKey? || k.IntraRtKey? || k.IntraFltKey?
    ensures Booked(bk', k) <==> Booked(bk, k) || (a.wlan && OfIntraClient(bk, a, c, k))
  {}

  lemma ClientAddedRoutes(bk: Book, bk': Book, a: Lan, c: nat, done: set<Lan>, k: Key)
    requires a in bk.order && WithClient(bk, bk', a, c) && (k.CtxKey? || k.RtKey?)
    requires k.RtKey? ==> (k.peerL2 in TypesOf(done) <==> Ref(bk, a, k.peerL2) > 0)
    ensures Booked(bk', k) <==> Booked(bk, k) || OfClient(bk, a, c, done, k)
  {
    assert Ref(bk', k.on, k.peerL2) == Ref(bk, k.on, k.peerL2);
  }

  lemma ClientAddedBooks(bk: Book, bk': Book, a: Lan, c: nat, done: set<Lan>, k: Key)
    requires Filtered(bk) && Mutual(bk) && Meshed(bk) && Counted(bk) && a in bk.order
    requires WithClient(bk, bk', a, c) && AllPeers(bk, a, done)
    ensures Booked(bk', k) <==>
      Booked(bk, k) || OfClient(bk, a, c, done, k) || (a.wlan && OfIntraClient(bk, a, c, k))
  {
    if k.FltKey? {
      PeersOfAll(bk, a, done, k.on);
      ClientAddedFilters(bk, bk', a, c, done, k.on, k.peer, k.mac, k.ip);
    } else if k.CtxKey? || k.RtKey? {
      TypesOfPeers(bk, a, done, k.peerL2);
      ClientAddedRoutes(bk, bk', a, c, done, k);
    } else {
      ClientAddedIntra(bk, bk', a, c, k);
    }
  }

  lemma ClientAddedMatches(bk: Book, bk': Book, a: Lan, c: nat, inst: set<Key>, inst': set<Key>,
                           done: set<Lan>)
    requires Filtered(bk) && Mutual(bk) && Meshed(bk) && Counted(bk) && a in bk.order
    requires WithClient(bk, bk', a, c) && AllPeers(bk, a, done)
    requires Matches(bk, inst)
    requires forall k :: k in inst' <==>
      k in inst || OfClient(bk, a, c, done, k) || (a.wlan && OfIntraClient(bk, a, c, k))
    ensures Matches(bk', inst')
  {
    forall k ensures k in inst' <==> Booked(bk', k) {
      ClientAddedBooks(bk, bk', a, c, done, k);
    }
  }

  /** The filtering rules on `a` for client `c` of `b`, for the addresses `ips`. */
  function FltSet(a: Lan, b: Lan, c: nat, ips: set<Ip>): set<Key> {
    (if V4 in ips then {FltKey(a, b, c, V4)} else {}) + (if V6 in ips then {FltKey(a, b, c, V6)} else {})
  }

  function IntraFltSet(a: Lan, c: nat, ips: set<Ip>): set<Key> {
    (if V4 in ips then {IntraFltKey(a, c, V4)} else {}) + (if V6 in ips then {IntraFltKey(a, c, V6)} else {})
  }

  lemma InFltSet(a: Lan, b: Lan, c: nat, ips: set<Ip>, k: Key)
    ensures k in FltSet(a, b, c, ips) <==> k.FltKey? && k.on == a && k.peer == b && k.mac == c && k.ip in ips
    ensures k in IntraFltSet(a, c, ips) <==> k.IntraFltKey? && k.on == a && k.mac == c && k.ip in ips
  {
    if k.FltKey? || k.IntraFltKey? { assert k.ip == V4 || k.ip == V6; }
  }

  lemma SomeIp(ips: set<Ip>)
    requires ips != {}
    ensures V4 in ips || V6 in ips
  {
    var ip :| ip in ips;
    assert ip == V4 || ip == V6;
  }

  function IntraRtPair(a: Lan, c: nat): set<Key> {
    {IntraRtKey(a, c, V4), IntraRtKey(a, c, V6)}
  }

  lemma IsOfIntraClient(bk: Book, a: Lan, c: nat, k: Key)
    ensures OfIntraClient(bk, a, c, k) <==> k in IntraRtPair(a, c) || k in IntraFltSet(a, c, IpUp(bk, a))
  {
    InFltSet(a, a, c, IpUp(bk, a), k);
    if k.IntraRtKey? { assert k.ip == V4 || k.ip == V6; }
  }

  function RtPair(a: Lan, c: nat, t: L2Type): set<Key> {
    {RtKey(a, c, t, V4), RtKey(a, c, t, V6)}
  }

  lemma TypesOfGrows(done: set<Lan>, b: Lan)
    ensures TypesOf(done + {b}) == TypesOf(done) + {b.l2}
  {
    assert forall x :: x in done + {b} <==> x in done || x == b;
    forall t ensures t in TypesOf(done + {b}) <==> t in TypesOf(done) + {b.l2} {
      if t == b.l2 { assert b in done + {b}; }
      if t in TypesOf(done) {
        var x :| x in done && x.l2 == t;
        assert x in done + {b};
      }
    }
  }

  lemma OfClientGrows(bk: Book, a: Lan, c: nat, done: set<Lan>, b: Lan, k: Key)
    ensures OfClient(bk, a, c, done + {b}, k) <==>
      OfClient(bk, a, c, done, k) || k in RtPair(a, c, b.l2) || k in FltSet(b, a, c, IpUp(bk, b))
  {
    TypesOfGrows(done, b);
    InFltSet(b, a, c, IpUp(bk, b), k);
    if k.RtKey? { assert k.ip == V4 || k.ip == V6; }
  }

  /** The rules and records of the new client `c` of `a` for the peers `done`. */
  ghost predicate AddedFor(bk0: Book, bk: Book, inst0: set<Key>, inst: set<Key>, a: Lan, c: nat, done: set<Lan>) {
    && (forall k :: k in inst <==> k in inst0 || OfClient(bk0, a, c, done, k))
    && (forall x, y :: Flt(bk, x, y) == if y == a && x in done then [c] + Flt(bk0, x, a) else Flt(bk0, x, y))
  }

  lemma AddedStep(bk0: Book, bk: Book, bk': Book, inst0: set<Key>, inst: set<Key>, inst': set<Key>,
                  a: Lan, c: nat, done: set<Lan>, b: Lan)
    requires AddedFor(bk0, bk, inst0, inst, a, c, done) && b !in done && IpUp(bk, b) == IpUp(bk0, b)
    requires inst' == inst + RtPair(a, c, b.l2) + FltSet(b, a, c, IpUp(bk, b))
    requires bk' == bk.(flt := bk.flt[(b, a) := [c] + Flt(bk, b, a)])
    ensures AddedFor(bk0, bk', inst0, inst', a, c, done + {b})
  {
    forall k ensures k in inst' <==> k in inst0 || OfClient(bk0, a, c, done + {b}, k) {
      OfClientGrows(bk0, a, c, done, b, k);
    }
  }

  /** Before the round for `b`: no rule of `c` is installed for it but shared routing rules. */
  lemma AddedReady(bk0: Book, bk: Book, inst0: set<Key>, inst: set<Key>, a: Lan, c: nat, done: set<Lan>, b: Lan)
    requires AddedFor(bk0, bk, inst0, inst, a, c, done) && b !in done && PeerReady(bk0, inst0, a, b, c)
    requires forall t, ip :: RtKey(a, c, t, ip) !in inst0
    ensures CtxKey(a, b.l2) in inst && c !in Flt(bk, b, a)
    ensures forall ip :: FltKey(b, a, c, ip) !in inst
    ensures forall ip :: RtKey(a, c, b.l2, ip) in inst <==> b.l2 in TypesOf(done)
  {}

  /** What is known of a peer `b` of `a` when client `c` of `a` is new. */
  ghost predicate PeerReady(bk: Book, inst: set<Key>, a: Lan, b: Lan, c: nat) {
    && b != a && NamedFor(bk, a, b) && NamedFor(bk, b, a)
    && c !in Flt(bk, b, a) && IpUp(bk, b) != {} && CtxKey(a, b.l2) in inst
    && forall ip :: FltKey(b, a, c, ip) !in inst
  }

  lemma PeersReady(bk: Book, inst: set<Key>, a: Lan, c: nat)
    requires Settled(bk) && Matches(bk, inst) && a in bk.order && c !in Clients(bk, a)
    ensures forall b :: b in Peers(bk, a) ==> PeerReady(bk, inst, a, b, c)
    ensures forall t, ip :: RtKey(a, c, t, ip) !in inst
    ensures NoDup(Peers(bk, a))
  {
    forall b | b in Peers(bk, a) ensures PeerReady(bk, inst, a, b, c) {
      assert b in bk.order && a in Peers(bk, b);
      assert c in Flt(bk, b, a) <==> c in Clients(bk, a);
      CountPositive(Peers(bk, a), b.l2);
      assert Booked(bk, CtxKey(a, b.l2));
    }
  }

  lemma ClientAlreadyIn(bk: Book, a: Lan, c: nat)
    requires a in bk.order && c in Clients(bk, a)
    ensures TopologyOf(bk) == WithClientIn(TopologyOf(bk), a, c)
  {
    assert TopologyOf(bk).clients[a] + {c} == TopologyOf(bk).clients[a];
  }

  /** Nothing intra-interface is installed for a client that is new. */
  lemma ClientIsNew(bk: Book, inst: set<Key>, a: Lan, c: nat)
    requires Limited(bk) && Filtered(bk) && Matches(bk, inst) && a in bk.order && c !in Clients(bk, a)
    ensures IpUp(bk, a) != {}
    ensures a.wlan ==> c !in IntraFlt(bk, a) && IntraCtxKey(a) in inst
    ensures forall ip :: IntraRtKey(a, c, ip) !in inst
    ensures a.wlan ==> forall ip :: IntraFltKey(a, c, ip) !in inst
  {
    assert Booked(bk, IntraCtxKey(a)) <==> a.wlan;
  }

  lemma WithClientHolds(bk: Book, bk': Book, a: Lan, c: nat, done: set<Lan>)
    requires Mutual(bk) && a in bk.order && forall b :: b in done <==> b in Peers(bk, a)
    requires bk' == bk.(clients := bk.clients[a := [c] + Clients(bk, a)], flt := bk'.flt,
                        intraFlt := if a.wlan then bk.intraFlt[a := [c] + IntraFlt(bk, a)] else bk.intraFlt)
    requires forall x, y :: Flt(bk', x, y) == if y == a && x in done then [c] + Flt(bk, x, a) else Flt(bk, x, y)
    ensures WithClient(bk, bk', a, c)
  {
    forall x | x in bk.order && a in Peers(bk, x) ensures x in done { assert x in Peers(bk, a); }
  }

  lemma ClientAddedTopology(bk: Book, bk': Book, a: Lan, c: nat)
    requires a in bk.order && bk'.order == bk.order && bk'.ipUp == bk.ipUp
    requires bk'.clients == bk.clients[a := [c] + Clients(bk, a)]
    ensures TopologyOf(bk') == WithClientIn(TopologyOf(bk), a, c)
  {
    assert ClientSet(bk', a) == ClientSet(bk, a) + {c};
    TopologyIs(bk', WithClientIn(TopologyOf(bk), a, c));
  }

  lemma ClientAdded(bk: Book, bk1: Book, bk': Book, a: Lan, c: nat, inst: set<Key>, inst1: set<Key>,
                    inst': set<Key>, done: set<Lan>)
    requires Settled(bk) && Matches(bk, inst)
    requires a in bk.order && c !in Clients(bk, a) && |Clients(bk, a)| < MAX_NUM_CLIENT
    requires AllPeers(bk, a, done) && AddedFor(bk, bk1, inst, inst1, a, c, done)
    requires bk1 == bk.(clients := bk.clients[a := [c] + Clients(bk, a)], flt := bk1.flt)
    requires bk' == if a.wlan then bk1.(intraFlt := bk.intraFlt[a := [c] + IntraFlt(bk, a)]) else bk1
    requires inst' == if a.wlan then inst1 + IntraRtPair(a, c) + IntraFltSet(a, c, IpUp(bk, a)) else inst1
    ensures Settled(bk') && Matches(bk', inst') && TopologyOf(bk') == WithClientIn(TopologyOf(bk), a, c)
  {
    WithClientHolds(bk, bk', a, c, done);
    ClientAddedSettles(bk, bk', a, c);
    ClientAddedTopology(bk, bk', a, c);
    forall k ensures OfIntraClient(bk, a, c, k) <==> k in IntraRtPair(a, c) || k in IntraFltSet(a, c, IpUp(bk, a)) {
      IsOfIntraClient(bk, a, c, k);
    }
    ClientAddedMatches(bk, bk', a, c, inst, inst', done);
  }

  // ---------------------------------------------------------------- deleting a client

  /** The rules and records of client `c` of `a` are gone for the peers `done`. */
  ghost predicate RemovedFor(bk0: Book, bk: Book, inst0: set<Key>, inst: set<Key>, a: Lan, c: nat, done: set<Lan>) {
    && (forall k :: k in inst <==> k in inst0 && !OfClient(bk0, a, c, done, k))
    && (forall x, y :: Flt(bk, x, y) == if y == a && x in done then Erase(Flt(bk0, x, a), c) else Flt(bk0, x, y))
  }

  /** What is known of a peer `b` of `a` when `a` has client `c`. */
  ghost predicate PeerHas(bk: Book, inst: set<Key>, a: Lan, b: Lan, c: nat) {
    && b != a && c in Flt(bk, b, a)
    && (forall ip :: ip in IpUp(bk, b) ==> FltKey(b, a, c, ip) in inst)
    && forall ip :: RtKey(a, c, b.l2, ip) in inst
  }

  lemma PeersHave(bk: Book, inst: set<Key>, a: Lan, c: nat)
    requires Settled(bk) && Matches(bk, inst) && a in bk.order && c in Clients(bk, a)
    ensures forall b :: b in Peers(bk, a) ==> PeerHas(bk, inst, a, b, c)
    ensures NoDup(Peers(bk, a)) && NoDup(Clients(bk, a))
    ensures a.wlan ==> c in IntraFlt(bk, a) && forall ip :: IntraRtKey(a, c, ip) in inst
    ensures a.wlan ==> forall ip :: ip in IpUp(bk, a) ==> IntraFltKey(a, c, ip) in inst
  {
    forall b | b in Peers(bk, a) ensures PeerHas(bk, inst, a, b, c) {
      assert b in bk.order && a in Peers(bk, b);
      assert c in Flt(bk, b, a) <==> c in Clients(bk, a);
      CountPositive(Peers(bk, a), b.l2);
      assert Ref(bk, a, b.l2) > 0;
    }
  }

  lemma RemovedReady(bk0: Book, bk: Book, inst0: set<Key>, inst: set<Key>, a: Lan, c: nat, done: set<Lan>, b: Lan)
    requires RemovedFor(bk0, bk, inst0, inst, a, c, done) && b !in done && PeerHas(bk0, inst0, a, b, c)
    ensures c in Flt(bk, b, a)
    ensures forall ip :: ip in IpUp(bk0, b) ==> FltKey(b, a, c, ip) in inst
    ensures b.l2 !in TypesOf(done) ==> forall ip :: RtKey(a, c, b.l2, ip) in inst
    ensures b.l2 in TypesOf(done) ==> forall ip :: RtKey(a, c, b.l2, ip) !in inst
  {}

  lemma RemovedStep(bk0: Book, bk: Book, bk': Book, inst0: set<Key>, inst: set<Key>, inst': set<Key>,
                    a: Lan, c: nat, done: set<Lan>, b: Lan)
    requires RemovedFor(bk0, bk, inst0, inst, a, c, done) && b !in done && IpUp(bk, b) == IpUp(bk0, b)
    requires inst' == inst - RtPair(a, c, b.l2) - FltSet(b, a, c, IpUp(bk, b))
    requires bk' == bk.(flt := bk.flt[(b, a) := Erase(Flt(bk, b, a), c)])
    ensures RemovedFor(bk0, bk', inst0, inst', a, c, done + {b})
  {
    forall k ensures k in inst' <==> k in inst0 && !OfClient(bk0, a, c, done + {b}, k) {
      OfClientGrows(bk0, a, c, done, b, k);
    }
  }

  lemma RemovedKeepsIntra(bk0: Book, bk: Book, inst0: set<Key>, inst: set<Key>, a: Lan, c: nat, done: set<Lan>)
    requires RemovedFor(bk0, bk, inst0, inst, a, c, done)
    ensures forall ip :: IntraRtKey(a, c, ip) in inst <==> IntraRtKey(a, c, ip) in inst0
    ensures forall ip :: IntraFltKey(a, c, ip) in inst <==> IntraFltKey(a, c, ip) in inst0
  {}

  lemma ClientNotIn(bk: Book, a: Lan, c: nat)
    requires a in bk.order && c !in Clients(bk, a)
    ensures TopologyOf(bk) == WithoutClientIn(TopologyOf(bk), a, c)
  {
    assert TopologyOf(bk).clients[a] - {c} == TopologyOf(bk).clients[a];
  }

  /** The book after client `c` of `a` has been struck out everywhere. */
  ghost predicate StruckOut(bk: Book, bk': Book, a: Lan, c: nat) {
    && bk' == bk.(clients := bk.clients[a := Erase(Clients(bk, a), c)], flt := bk'.flt, intraFlt := bk'.intraFlt)
    && (forall x, y :: x in bk.order && y in Peers(bk, x) ==>
          Flt(bk', x, y) == if y == a then Erase(Flt(bk, x, a), c) else Flt(bk, x, y))
    && (forall x :: x in bk.order ==>
          IntraFlt(bk', x) == if x == a && a.wlan then Erase(IntraFlt(bk, a), c) else IntraFlt(bk, x))
  }

  lemma ClientRemovedDistinct(bk: Book, bk': Book, a: Lan, c: nat)
    requires Distinct(bk) && a in bk.order && StruckOut(bk, bk', a, c)
    ensures Distinct(bk')
  {
    forall x | x in bk'.order ensures NoDup(Clients(bk', x)) && NoDup(Peers(bk', x)) && NoDup(IntraFlt(bk', x)) {
      assert NoDup(Clients(bk, x)) && NoDup(Peers(bk, x)) && NoDup(IntraFlt(bk, x));
      EraseRemoves(Clients(bk, x), c);
      EraseRemoves(IntraFlt(bk, x), c);
    }
    forall x, y | x in bk'.order && y in Peers(bk', x) ensures NoDup(Flt(bk', x, y)) {
      assert NoDup(Flt(bk, x, y));
      EraseRemoves(Flt(bk, x, y), c);
    }
  }

  /** Membership in the lists after striking out. */
  lemma StruckOutMembers(bk: Book, bk': Book, a: Lan, c: nat)
    requires Distinct(bk) && a in bk.order && StruckOut(bk, bk', a, c)
    ensures forall x, m :: x in bk.order ==> (m in Clients(bk', x) <==> m in Clients(bk, x) && !(x == a && m == c))
    ensures forall x, y, m :: x in bk.order && y in Peers(bk, x) ==>
      (m in Flt(bk', x, y) <==> m in Flt(bk, x, y) && !(y == a && m == c))
    ensures forall x, m :: x in bk.order ==>
      (m in IntraFlt(bk', x) <==> m in IntraFlt(bk, x) && !(x == a && a.wlan && m == c))
    ensures |Clients(bk', a)| <= |Clients(bk, a)|
  {
    EraseRemoves(Clients(bk, a), c);
    EraseRemoves(IntraFlt(bk, a), c);
    forall x | x in bk.order && a in Peers(bk, x)
      ensures forall m :: m in Flt(bk', x, a) <==> m in Flt(bk, x, a) && m != c
    {
      EraseRemoves(Flt(bk, x, a), c);
    }
  }

  lemma ClientRemovedSettles(bk: Book, bk': Book, a: Lan, c: nat)
    requires Settled(bk) && a in bk.order && StruckOut(bk, bk', a, c)
    ensures Settled(bk')
  {
    ClientRemovedDistinct(bk, bk', a, c);
    StruckOutMembers(bk, bk', a, c);
    LinksKept(bk, bk');
    ClientRemovedFiltered(bk, bk', a, c);
  }

  lemma ClientRemovedFiltered(bk: Book, bk': Book, a: Lan, c: nat)
    requires Distinct(bk) && Filtered(bk) && a in bk.order && StruckOut(bk, bk', a, c)
    ensures Filtered(bk')
  {
    StruckOutMembers(bk, bk', a, c);
    forall x, y, m | x in bk'.order && y in Peers(bk', x) ensures m in Flt(bk', x, y) <==> m in Clients(bk', y) {
      assert m in Flt(bk, x, y) <==> m in Clients(bk, y);
      if y !in bk.order { assert Clients(bk', y) == Clients(bk, y); }
    }
  }

  lemma ClientRemovedFilters(bk: Book, bk': Book, a: Lan, c: nat, done: set<Lan>, x: Lan, y: Lan, m: nat, ip: Ip)
    requires StruckOut(bk, bk', a, c) && (x in bk.order && a in Peers(bk, x) ==> NoDup(Flt(bk, x, a)))
    requires x in done <==> x in bk.order && x != a
    requires x in bk.order ==> (a in Peers(bk, x) <==> x != a)
    ensures var k := FltKey(x, y, m, ip); Booked(bk', k) <==> Booked(bk, k) && !OfClient(bk, a, c, done, k)
  {
    assert Peers(bk', x) == Peers(bk, x) && IpUp(bk', x) == IpUp(bk, x);
    if x in bk.order && y in Peers(bk, x) {
      assert Flt(bk', x, y) == if y == a then Erase(Flt(bk, x, a), c) else Flt(bk, x, y);
      if y == a { EraseMembers(Flt(bk, x, a), c); }
    }
  }

  lemma ClientRemovedIntra(bk: Book, bk': Book, a: Lan, c: nat, k: Key)
    requires a in bk.order && StruckOut(bk, bk', a, c) && (a in bk.intraUp <==> a.wlan)
    requires NoDup(Clients(bk, a)) && NoDup(IntraFlt(bk, a))
    requires k.IntraCtxKey? || k.IntraRtKey? || k.IntraFltKey?
    ensures Booked(bk', k) <==> Booked(bk, k) && !(a.wlan && OfIntraClient(bk, a, c, k))
  {
    EraseMembers(Clients(bk, a), c);
    EraseMembers(IntraFlt(bk, a), c);
  }

  lemma ClientRemovedRoutes(bk: Book, bk': Book, a: Lan, c: nat, done: set<Lan>, k: Key)
    requires a in bk.order && StruckOut(bk, bk', a, c) && NoDup(Clients(bk, a)) && (k.CtxKey? || k.RtKey?)
    requires k.RtKey? ==> (k.peerL2 in TypesOf(done) <==> Ref(bk, a, k.peerL2) > 0)
    ensures Booked(bk', k) <==> Booked(bk, k) && !OfClient(bk, a, c, done, k)
  {
    EraseMembers(Clients(bk, a), c);
    assert Ref(bk', k.on, k.peerL2) == Ref(bk, k.on, k.peerL2);
  }

  lemma ClientRemovedBooks(bk: Book, bk': Book, a: Lan, c: nat, done: set<Lan>, k: Key)
    requires Distinct(bk) && Mutual(bk) && Meshed(bk) && Counted(bk) && a in bk.order
    requires (a in bk.intraUp <==> a.wlan) && StruckOut(bk, bk', a, c) && AllPeers(bk, a, done)
    ensures Booked(bk', k) <==>
      Booked(bk, k) && !OfClient(bk, a, c, done, k) && !(a.wlan && OfIntraClient(bk, a, c, k))
  {
    assert NoDup(Clients(bk, a)) && NoDup(IntraFlt(bk, a));
    if k.FltKey? {
      PeersOfAll(bk, a, done, k.on);
      ClientRemovedFilters(bk, bk', a, c, done, k.on, k.peer, k.mac, k.ip);
    } else if k.CtxKey? || k.RtKey? {
      TypesOfPeers(bk, a, done, k.peerL2);
      ClientRemovedRoutes(bk, bk', a, c, done, k);
    } else {
      ClientRemovedIntra(bk, bk', a, c, k);
    }
  }

  lemma ClientRemovedTopology(bk: Book, bk': Book, a: Lan, c: nat)
    requires NoDup(Clients(bk, a)) && a in bk.order && bk'.order == bk.order && bk'.ipUp == bk.ipUp
    requires bk'.clients == bk.clients[a := Erase(Clients(bk, a), c)]
    ensures TopologyOf(bk') == WithoutClientIn(TopologyOf(bk), a, c)
  {
    EraseRemoves(Clients(bk, a), c);
    assert ClientSet(bk', a) == ClientSet(bk, a) - {c};
    TopologyIs(bk', WithoutClientIn(TopologyOf(bk), a, c));
  }

  lemma StruckOutHolds(bk: Book, bk': Book, a: Lan, c: nat, done: set<Lan>)
    requires Mutual(bk) && a in bk.order && AllPeers(bk, a, done)
    requires bk' == bk.(clients := bk.clients[a := Erase(Clients(bk, a), c)], flt := bk'.flt,
                        intraFlt := if a.wlan then bk.intraFlt[a := Erase(IntraFlt(bk, a), c)] else bk.intraFlt)
    requires forall x, y :: Flt(bk', x, y) == if y == a && x in done then Erase(Flt(bk, x, a), c) else Flt(bk, x, y)
    ensures StruckOut(bk, bk', a, c)
  {
    forall x | x in bk.order && a in Peers(bk, x) ensures x in done { assert x in Peers(bk, a); }
  }

  lemma ClientRemoved(bk: Book, bk1: Book, bk': Book, a: Lan, c: nat, inst: set<Key>, inst1: set<Key>,
                      inst': set<Key>, done: set<Lan>)
    requires Settled(bk) && Matches(bk, inst) && a in bk.order
    requires AllPeers(bk, a, done) && RemovedFor(bk, bk1, inst, inst1, a, c, done) && bk1 == bk.(flt := bk1.flt)
    requires bk' == bk1.(clients := bk.clients[a := Erase(Clients(bk, a), c)],
                         intraFlt := if a.wlan then bk.intraFlt[a := Erase(IntraFlt(bk, a), c)] else bk.intraFlt)
    requires inst' == if a.wlan then inst1 - IntraFltSet(a, c, IpUp(bk, a)) - IntraRtPair(a, c) else inst1
    ensures Settled(bk') && Matches(bk', inst') && TopologyOf(bk') == WithoutClientIn(TopologyOf(bk), a, c)
  {
    StruckOutHolds(bk, bk', a, c, done);
    ClientRemovedSettles(bk, bk', a, c);
    ClientRemovedTopology(bk, bk', a, c);
    forall k ensures k in inst' <==> Booked(bk', k) {
      ClientRemovedBooks(bk, bk', a, c, done, k);
      IsOfIntraClient(bk, a, c, k);
    }
  }

  // ---------------------------------------------------------------- filtering rules for all clients

  /** The recorded filters of `b` on `a` have grown by `more`; all others are as they were. */
  ghost predicate FltExtended(bk: Book, bk': Book, a: Lan, b: Lan, more: set<nat>) {
    && (forall x, y :: x != a || y != b ==> Flt(bk', x, y) == Flt(bk, x, y))
    && (forall m :: m in Flt(bk', a, b) <==> m in Flt(bk, a, b) || m in more)
    && NoDup(Flt(bk', a, b))
  }

  lemma FltExtends(bk0: Book, bk: Book, bk': Book, a: Lan, b: Lan, done: set<nat>, c: nat)
    requires FltExtended(bk0, bk, a, b, done)
    requires bk' == if c in Flt(bk, a, b) then bk else bk.(flt := bk.flt[(a, b) := [c] + Flt(bk, a, b)])
    ensures FltExtended(bk0, bk', a, b, done + {c})
  {}

  /** The filtering rules on `a` for the clients `done` of `b` have been installed. */
  ghost predicate FltInstalled(inst: set<Key>, inst': set<Key>, a: Lan, b: Lan, ip: Ip, done: set<nat>) {
    forall k :: k in inst' <==> k in inst || (k.FltKey? && k == FltKey(a, b, k.mac, ip) && k.mac in done)
  }

  lemma FltInstalls(inst: set<Key>, inst': set<Key>, a: Lan, b: Lan, ip: Ip, done: set<nat>, c: nat)
    requires FltInstalled(inst, inst', a, b, ip, done)
    ensures FltInstalled(inst, inst' + {FltKey(a, b, c, ip)}, a, b, ip, done + {c})
  {}

  /** The filtering rules of `a` for its own clients `done` have been installed. */
  ghost predicate IntraFltInstalled(inst: set<Key>, inst': set<Key>, a: Lan, ip: Ip, done: set<nat>) {
    forall k :: k in inst' <==> k in inst || (k.IntraFltKey? && k == IntraFltKey(a, k.mac, ip) && k.mac in done)
  }

  lemma IntraFltInstalls(inst: set<Key>, inst': set<Key>, a: Lan, ip: Ip, done: set<nat>, c: nat)
    requires IntraFltInstalled(inst, inst', a, ip, done)
    ensures IntraFltInstalled(inst, inst' + {IntraFltKey(a, c, ip)}, a, ip, done + {c})
  {}

  /** The filtering rules on `a` for the clients of `b` can be added for the address `ip`. */
  ghost predicate FltReady(bk: Book, inst: set<Key>, a: Lan, b: Lan, ip: Ip) {
    && NamedFor(bk, a, b) && NoDup(Clients(bk, b)) && NoDup(Flt(bk, a, b))
    && forall m :: m in Clients(bk, b) ==> FltKey(a, b, m, ip) !in inst && RtKey(b, m, a.l2, ip) in inst
  }

  /** The filtering rules on `a` for the clients of the peers `done` have been added. */
  ghost predicate FiltersAdded(bk0: Book, bk: Book, inst0: set<Key>, inst: set<Key>, a: Lan, ip: Ip, done: set<Lan>) {
    && (forall k :: k in inst <==>
          k in inst0 || (k.FltKey? && k.on == a && k.ip == ip && k.peer in done && k.mac in Clients(bk0, k.peer)))
    && (forall x, y :: x != a || y !in done ==> Flt(bk, x, y) == Flt(bk0, x, y))
    && (forall y, m :: y in done ==> (m in Flt(bk, a, y) <==> m in Flt(bk0, a, y) || m in Clients(bk0, y)))
    && (forall y :: y in done ==> NoDup(Flt(bk, a, y)))
  }

  lemma FltStillReady(bk0: Book, bk: Book, inst0: set<Key>, inst: set<Key>, a: Lan, ip: Ip, done: set<Lan>, b: Lan)
    requires FiltersAdded(bk0, bk, inst0, inst, a, ip, done) && bk == bk0.(flt := bk.flt)
    requires FltReady(bk0, inst0, a, b, ip) && b !in done
    ensures FltReady(bk, inst, a, b, ip)
  {}

  lemma FiltersAddedStep(bk0: Book, bk: Book, bk': Book, inst0: set<Key>, inst: set<Key>, inst': set<Key>,
                         a: Lan, ip: Ip, done: set<Lan>, b: Lan)
    requires FiltersAdded(bk0, bk, inst0, inst, a, ip, done) && bk == bk0.(flt := bk.flt) && b !in done
    requires FltExtended(bk, bk', a, b, ClientSet(bk, b))
    requires forall k :: k in inst' <==>
      k in inst || (k.FltKey? && k == FltKey(a, b, k.mac, ip) && k.mac in Clients(bk, b))
    ensures FiltersAdded(bk0, bk', inst0, inst', a, ip, done + {b})
  {}

  lemma AllFltReady(bk: Book, inst: set<Key>, a: Lan, ip: Ip)
    requires Settled(bk) && Matches(bk, inst) && a in bk.order && ip !in IpUp(bk, a)
    ensures NoDup(Peers(bk, a)) && NoDup(Clients(bk, a))
    ensures forall b :: b in Peers(bk, a) ==> FltReady(bk, inst, a, b, ip)
    ensures a.wlan ==> forall m :: m in Clients(bk, a) ==>
      IntraFltKey(a, m, ip) !in inst && IntraRtKey(a, m, ip) in inst && m in IntraFlt(bk, a)
  {
    forall b | b in Peers(bk, a) ensures FltReady(bk, inst, a, b, ip) {
      assert b in bk.order && a in Peers(bk, b);
      CountPositive(Peers(bk, b), a.l2);
      assert Ref(bk, b, a.l2) > 0;
    }
  }

  lemma StillFltReady(bk: Book, bk': Book, inst: set<Key>, a: Lan, ip: Ip)
    requires bk' == bk.(ipUp := bk'.ipUp)
    requires forall b :: b in Peers(bk, a) ==> FltReady(bk, inst, a, b, ip)
    ensures forall b :: b in Peers(bk', a) ==> FltReady(bk', inst, a, b, ip)
  {
    forall b | b in Peers(bk', a) ensures FltReady(bk', inst, a, b, ip) {
      assert FltReady(bk, inst, a, b, ip);
    }
  }

  /** The book after the address `ip` of `a` has been recorded. */
  ghost predicate WithAddress(bk: Book, bk': Book, a: Lan, ip: Ip) {
    && bk' == bk.(ipUp := bk.ipUp[a := IpUp(bk, a) + {ip}], flt := bk'.flt)
    && (forall x, y, m :: x in bk.order && y in Peers(bk, x) ==> (m in Flt(bk', x, y) <==> m in Flt(bk, x, y)))
    && (forall x, y :: x in bk.order && y in Peers(bk, x) ==> NoDup(Flt(bk', x, y)))
  }

  lemma WithAddressHolds(bk: Book, bk1: Book, bk': Book, a: Lan, ip: Ip, inst: set<Key>, inst1: set<Key>,
                         done: set<Lan>)
    requires Distinct(bk) && Filtered(bk) && a in bk.order && AllPeers(bk, a, done)
    requires bk1 == bk.(ipUp := bk.ipUp[a := IpUp(bk, a) + {ip}])
    requires FiltersAdded(bk1, bk', inst, inst1, a, ip, done) && bk' == bk1.(flt := bk'.flt)
    ensures WithAddress(bk, bk', a, ip)
  {
    forall x, y | x in bk.order && y in Peers(bk, x)
      ensures NoDup(Flt(bk', x, y)) && forall m :: m in Flt(bk', x, y) <==> m in Flt(bk, x, y)
    {
      assert NoDup(Flt(bk, x, y));
      if x == a {
        assert y in done;
        forall m ensures m in Flt(bk', x, y) <==> m in Flt(bk, x, y) {
          assert m in Flt(bk, a, y) <==> m in Clients(bk, y);
        }
      }
    }
  }

  lemma AddressAddedSettles(bk: Book, bk': Book, a: Lan, ip: Ip)
    requires Settled(bk) && a in bk.order && WithAddress(bk, bk', a, ip)
    ensures Settled(bk') && TopologyOf(bk') == WithIfaceIn(TopologyOf(bk), a, ip)
  {
    LinksKept(bk, bk');
    AddressAddedLists(bk, bk', a, ip);
    AddressAddedTopology(bk, bk', a, ip);
    AddressAddedLimits(bk, bk', a, ip);
  }

  lemma AddressAddedLimits(bk: Book, bk': Book, a: Lan, ip: Ip)
    requires Limited(bk) && bk' == bk.(ipUp := bk.ipUp[a := IpUp(bk, a) + {ip}], flt := bk'.flt)
    ensures Limited(bk')
  {
    forall x | x in bk'.order ensures Usable(x) && IpUp(bk', x) != {} && |Clients(bk', x)| <= MAX_NUM_CLIENT {
      assert ip in IpUp(bk', a);
      assert Usable(x) && IpUp(bk, x) != {} && |Clients(bk, x)| <= MAX_NUM_CLIENT;
    }
  }

  lemma AddressAddedTopology(bk: Book, bk': Book, a: Lan, ip: Ip)
    requires a in bk.order && bk' == bk.(ipUp := bk.ipUp[a := IpUp(bk, a) + {ip}], flt := bk'.flt)
    ensures TopologyOf(bk') == WithIfaceIn(TopologyOf(bk), a, ip)
  {
    forall x | x in bk.order ensures ClientSet(bk', x) == ClientSet(bk, x) {}
    TopologyIs(bk', WithIfaceIn(TopologyOf(bk), a, ip));
  }

  lemma AddressAddedLists(bk: Book, bk': Book, a: Lan, ip: Ip)
    requires Distinct(bk) && Filtered(bk) && a in bk.order && WithAddress(bk, bk', a, ip)
    ensures Distinct(bk') && Filtered(bk')
  {
    forall x | x in bk'.order ensures NoDup(Clients(bk', x)) && NoDup(Peers(bk', x)) && NoDup(IntraFlt(bk', x)) {
      assert NoDup(Clients(bk, x)) && NoDup(Peers(bk, x)) && NoDup(IntraFlt(bk, x));
    }
    forall x, y, m | x in bk'.order && y in Peers(bk', x) ensures m in Flt(bk', x, y) <==> m in Clients(bk', y) {
      assert m in Flt(bk, x, y) <==> m in Clients(bk, y);
    }
  }

  /** The filtering rules for clients of peers that the new address adds. */
  predicate OfAddress(bk: Book, a: Lan, ip: Ip, done: set<Lan>, k: Key) {
    || (k.FltKey? && k.on == a && k.ip == ip && k.peer in done && k.mac in Clients(bk, k.peer))
    || (a.wlan && k.IntraFltKey? && k == IntraFltKey(a, k.mac, ip) && k.mac in Clients(bk, a))
  }

  lemma AddressAddedFilters(bk: Book, bk': Book, a: Lan, ip: Ip, done: set<Lan>, k: Key)
    requires a in bk.order && WithAddress(bk, bk', a, ip) && k.FltKey?
    requires k.peer in done <==> k.peer in Peers(bk, a)
    requires k.peer in Peers(bk, a) ==> (k.mac in Flt(bk, a, k.peer) <==> k.mac in Clients(bk, k.peer))
    ensures Booked(bk', k) <==> Booked(bk, k) || OfAddress(bk, a, ip, done, k)
  {
    assert Peers(bk', k.on) == Peers(bk, k.on);
    assert k.ip in IpUp(bk', k.on) <==> k.ip in IpUp(bk, k.on) || (k.on == a && k.ip == ip);
  }

  lemma AddressAddedOthers(bk: Book, bk': Book, a: Lan, ip: Ip, done: set<Lan>, k: Key)
    requires a in bk.order && WithAddress(bk, bk', a, ip) && !k.FltKey? && (a in bk.intraUp <==> a.wlan)
    requires k.IntraFltKey? && a.wlan ==> (k.mac in IntraFlt(bk, a) <==> k.mac in Clients(bk, a))
    ensures Booked(bk', k) <==> Booked(bk, k) || OfAddress(bk, a, ip, done, k)
  {
    if k.IntraFltKey? {
      assert k.ip in IpUp(bk', k.on) <==> k.ip in IpUp(bk, k.on) || (k.on == a && k.ip == ip);
    }
  }

  lemma AddressAddedBooks(bk: Book, bk': Book, a: Lan, ip: Ip, done: set<Lan>, k: Key)
    requires Filtered(bk) && a in bk.order && WithAddress(bk, bk', a, ip) && AllPeers(bk, a, done)
    ensures Booked(bk', k) <==> Booked(bk, k) || OfAddress(bk, a, ip, done, k)
  {
    if k.FltKey? {
      AddressAddedFilters(bk, bk', a, ip, done, k);
    } else {
      assert a in bk.intraUp <==> a.wlan;
      if k.IntraFltKey? && a.wlan { assert k.mac in IntraFlt(bk, a) <==> k.mac in Clients(bk, a); }
      AddressAddedOthers(bk, bk', a, ip, done, k);
    }
  }

  lemma AddressAddedMatches(bk: Book, bk': Book, a: Lan, ip: Ip, inst: set<Key>, inst': set<Key>, done: set<Lan>)
    requires Filtered(bk) && a in bk.order && WithAddress(bk, bk', a, ip) && AllPeers(bk, a, done)
    requires Matches(bk, inst)
    requires forall k :: k in inst' <==> k in inst || OfAddress(bk, a, ip, done, k)
    ensures Matches(bk', inst')
  {
    forall k ensures k in inst' <==> Booked(bk', k) {
      AddressAddedBooks(bk, bk', a, ip, done, k);
    }
  }

  lemma AddressAddedRules(bk: Book, bk1: Book, bk': Book, a: Lan, ip: Ip, inst: set<Key>, inst1: set<Key>,
                          inst': set<Key>, done: set<Lan>)
    requires bk1.clients == bk.clients && FiltersAdded(bk1, bk', inst, inst1, a, ip, done)
    requires forall k :: k in inst' <==>
      k in inst1 || (a.wlan && k.IntraFltKey? && k == IntraFltKey(a, k.mac, ip) && k.mac in Clients(bk, a))
    ensures forall k :: k in inst' <==> k in inst || OfAddress(bk, a, ip, done, k)
  {
    assert forall x :: Clients(bk1, x) == Clients(bk, x);
  }

  lemma AddressAdded(bk: Book, bk': Book, a: Lan, ip: Ip, inst: set<Key>, inst1: set<Key>, inst': set<Key>,
                     done: set<Lan>)
    requires Settled(bk) && Matches(bk, inst) && a in bk.order && AllPeers(bk, a, done)
    requires bk' == bk.(ipUp := bk.ipUp[a := IpUp(bk, a) + {ip}], flt := bk'.flt)
    requires FiltersAdded(bk.(ipUp := bk.ipUp[a := IpUp(bk, a) + {ip}]), bk', inst, inst1, a, ip, done)
    requires forall k :: k in inst' <==>
      k in inst1 || (a.wlan && k.IntraFltKey? && k == IntraFltKey(a, k.mac, ip) && k.mac in Clients(bk, a))
    ensures Settled(bk') && Matches(bk', inst') && TopologyOf(bk') == WithIfaceIn(TopologyOf(bk), a, ip)
  {
    var bk1 := bk.(ipUp := bk.ipUp[a := IpUp(bk, a) + {ip}]);
    WithAddressHolds(bk, bk1, bk', a, ip, inst, inst1, done);
    AddressAddedSettles(bk, bk', a, ip);
    AddressAddedRules(bk, bk1, bk', a, ip, inst, inst1, inst', done);
    AddressAddedMatches(bk, bk', a, ip, inst, inst', done);
  }
}
