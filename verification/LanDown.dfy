/** An interface goes down: what unlinking it from the others does to the book and to what the
    book calls for. */
module LanDown {
  import opened Common
  import opened LanBook
  import opened LanClients

  /** `a`, which is going down, and `b` are peers no more. */
  ghost predicate Unlinked(bk: Book, bk': Book, a: Lan, b: Lan) {
    && bk' == bk.(refCnt := bk'.refCnt, peers := bk'.peers, flt := bk'.flt)
    && (forall x, t :: Ref(bk', x, t) ==
          Ref(bk, x, t) - (if x == b && t == a.l2 then 1 else 0) - (if x == a && t == b.l2 then 1 else 0))
    && (forall x :: Peers(bk', x) ==
          if x == b then Erase(Peers(bk, b), a) else if x == a then Erase(Peers(bk, a), b) else Peers(bk, x))
    && (forall x, y :: Flt(bk', x, y) == if (x == a && y == b) || (x == b && y == a) then [] else Flt(bk, x, y))
  }

  lemma UnlinkKeepsCounts(bk: Book, bk': Book, a: Lan, b: Lan)
    requires Counted(bk) && Unlinked(bk, bk', a, b) && a != b && a in Peers(bk, b) && b in Peers(bk, a)
    ensures Counted(bk')
  {
    forall x, t | x in bk'.order ensures Ref(bk', x, t) == CountL2(Peers(bk', x), t) {
      assert Ref(bk, x, t) == CountL2(Peers(bk, x), t);
      if x == a { EraseCounts(Peers(bk, a), b, t); }
      if x == b { EraseCounts(Peers(bk, b), a, t); }
    }
  }

  lemma UnlinkMembers(bk: Book, bk': Book, a: Lan, b: Lan)
    requires NoDup(Peers(bk, a)) && NoDup(Peers(bk, b)) && Unlinked(bk, bk', a, b) && a != b
    ensures forall x, y :: y in Peers(bk', x) <==>
      y in Peers(bk, x) && !(x == b && y == a) && !(x == a && y == b)
    ensures NoDup(Peers(bk', a)) && NoDup(Peers(bk', b))
  {
    EraseRemoves(Peers(bk, a), b);
    EraseRemoves(Peers(bk, b), a);
  }

  lemma UnlinkKeepsMutual(bk: Book, bk': Book, a: Lan, b: Lan)
    requires Mutual(bk) && bk'.order == bk.order
    requires forall x, y :: y in Peers(bk', x) <==>
      y in Peers(bk, x) && !(x == b && y == a) && !(x == a && y == b)
    ensures Mutual(bk')
  {}

  lemma UnlinkKeepsDistinct(bk: Book, bk': Book, a: Lan, b: Lan)
    requires Distinct(bk) && Unlinked(bk, bk', a, b) && a != b && a in bk.order && b in bk.order
    ensures Distinct(bk')
  {
    UnlinkMembers(bk, bk', a, b);
    forall x | x in bk'.order ensures NoDup(Clients(bk', x)) && NoDup(Peers(bk', x)) && NoDup(IntraFlt(bk', x)) {
      assert NoDup(Clients(bk, x)) && NoDup(Peers(bk, x)) && NoDup(IntraFlt(bk, x));
    }
    forall x, y | x in bk'.order && y in Peers(bk', x) ensures NoDup(Flt(bk', x, y)) {
      assert y in Peers(bk, x) ==> NoDup(Flt(bk, x, y));
    }
  }

  lemma UnlinkKeepsCore(bk: Book, bk': Book, a: Lan, b: Lan)
    requires Core(bk) && Unlinked(bk, bk', a, b) && a in bk.order && b in Peers(bk, a)
    ensures Core(bk') && b in bk.order && b != a && a in Peers(bk, b)
  {
    assert b in bk.order && b != a && a in Peers(bk, b);
    UnlinkKeepsCounts(bk, bk', a, b);
    UnlinkMembers(bk, bk', a, b);
    UnlinkKeepsMutual(bk, bk', a, b);
    UnlinkKeepsDistinct(bk, bk', a, b);
    UnlinkKeepsNames(bk, bk', a, b);
  }

  lemma UnlinkKeepsNames(bk: Book, bk': Book, a: Lan, b: Lan)
    requires Named(bk) && bk'.order == bk.order && bk'.tblForFlt == bk.tblForFlt && bk'.tblForRt == bk.tblForRt
    requires forall x, y :: y in Peers(bk', x) ==> y in Peers(bk, x)
    ensures Named(bk')
  {
    forall x, y | x in bk'.order && y in Peers(bk', x) ensures NamedFor(bk', x, y) {
      assert NamedFor(bk, x, y);
    }
  }

  /** What unlinking takes away: the filtering rules for each other's clients, and on each side
      the processing context and routing rules if this was the last peer of its header type. */
  predicate OfUnlink(bk: Book, a: Lan, b: Lan, k: Key) {
    match k
    case CtxKey(x, t) => (x == b && t == a.l2 && Ref(bk, b, t) == 1) || (x == a && t == b.l2 && Ref(bk, a, t) == 1)
    case RtKey(x, _, t, _) => (x == b && t == a.l2 && Ref(bk, b, t) == 1) || (x == a && t == b.l2 && Ref(bk, a, t) == 1)
    case FltKey(x, y, _, _) => (x == a && y == b) || (x == b && y == a)
    case _ => false
  }

  lemma UnlinkFilters(bk: Book, bk': Book, a: Lan, b: Lan, x: Lan, y: Lan)
    requires NoDup(Peers(bk, a)) && NoDup(Peers(bk, b)) && Unlinked(bk, bk', a, b) && a != b
    ensures var away := (x == a && y == b) || (x == b && y == a);
            && (y in Peers(bk', x) <==> y in Peers(bk, x) && !away)
            && (!away ==> Flt(bk', x, y) == Flt(bk, x, y))
  {
    EraseMembers(Peers(bk, a), b);
    EraseMembers(Peers(bk, b), a);
  }

  lemma UnlinkFilterBooks(bk: Book, bk': Book, a: Lan, b: Lan, x: Lan, y: Lan, m: nat, ip: Ip)
    requires NoDup(Peers(bk, a)) && NoDup(Peers(bk, b)) && Unlinked(bk, bk', a, b) && a != b
    ensures var k := FltKey(x, y, m, ip); Booked(bk', k) <==> Booked(bk, k) && !OfUnlink(bk, a, b, k)
  {
    UnlinkFilters(bk, bk', a, b, x, y);
  }

  lemma UnlinkTypeBooks(bk: Book, bk': Book, a: Lan, b: Lan, k: Key)
    requires Unlinked(bk, bk', a, b) && a != b && !k.FltKey?
    ensures Booked(bk', k) <==> Booked(bk, k) && !OfUnlink(bk, a, b, k)
  {
    if k.CtxKey? || k.RtKey? {
      assert Ref(bk', k.on, k.peerL2) <= Ref(bk, k.on, k.peerL2);
    }
  }

  lemma UnlinkBooks(bk: Book, bk': Book, a: Lan, b: Lan, k: Key)
    requires NoDup(Peers(bk, a)) && NoDup(Peers(bk, b)) && Unlinked(bk, bk', a, b) && a != b
    ensures Booked(bk', k) <==> Booked(bk, k) && !OfUnlink(bk, a, b, k)
  {
    match k
    case FltKey(x, y, m, ip) => UnlinkFilterBooks(bk, bk', a, b, x, y, m, ip);
    case _ => UnlinkTypeBooks(bk, bk', a, b, k);
  }

  /** The book with the part of `a`'s peer list that is still to be dealt with; the list itself is
      only cleared when the interface has been unlinked from all its peers. */
  function Pending(bk: Book, a: Lan, rest: seq<Lan>): Book {
    bk.(peers := bk.peers[a := rest])
  }

  /** The book with one peer fewer counted for `x`. */
  function OneFewer(bk: Book, x: Lan, t: L2Type): Book {
    bk.(refCnt := bk.refCnt[(x, t) := Ref(bk, x, t) - 1])
  }

  function CountsDown(bk: Book, a: Lan, b: Lan): Book {
    OneFewer(OneFewer(bk, a, b.l2), b, a.l2)
  }

  /** The book after the round for the peer `b` of `a`. */
  function AfterRound(bk: Book, a: Lan, b: Lan): Book {
    CountsDown(bk, a, b).(flt := bk.flt[(a, b) := []][(b, a) := []],
                          peers := bk.peers[b := Erase(Peers(bk, b), a)])
  }

  lemma RoundRefs(bk: Book, a: Lan, b: Lan, x: Lan, t: L2Type)
    requires a != b
    ensures Ref(AfterRound(bk, a, b), x, t) ==
      Ref(bk, x, t) - (if x == b && t == a.l2 then 1 else 0) - (if x == a && t == b.l2 then 1 else 0)
  {}

  lemma RoundFilters(bk: Book, a: Lan, b: Lan, x: Lan, y: Lan)
    ensures Flt(AfterRound(bk, a, b), x, y) == if (x == a && y == b) || (x == b && y == a) then [] else Flt(bk, x, y)
  {}

  lemma RoundUnlinks(bk: Book, a: Lan, b: Lan, rest: seq<Lan>)
    requires a != b && rest != [] && rest[0] == b
    ensures Unlinked(Pending(bk, a, rest), Pending(AfterRound(bk, a, b), a, rest[1..]), a, b)
  {
    var bk0, bk1 := Pending(bk, a, rest), Pending(AfterRound(bk, a, b), a, rest[1..]);
    assert Erase(rest, b) == rest[1..];
    forall x, t ensures Ref(bk1, x, t) ==
        Ref(bk0, x, t) - (if x == b && t == a.l2 then 1 else 0) - (if x == a && t == b.l2 then 1 else 0)
    {
      RoundRefs(bk, a, b, x, t);
    }
    forall x, y ensures Flt(bk1, x, y) == if (x == a && y == b) || (x == b && y == a) then [] else Flt(bk0, x, y) {
      RoundFilters(bk, a, b, x, y);
    }
  }

  /** The recorded filtering rules on `x` for its peer `y` are installed. */
  ghost predicate HasFilters(bk: Book, inst: set<Key>, x: Lan, y: Lan) {
    && NoDup(Flt(bk, x, y))
    && (forall m, ip :: m in Flt(bk, x, y) && ip in IpUp(bk, x) ==> FltKey(x, y, m, ip) in inst)
  }

  /** The routing rules of the clients of `x` for the header type of `y`, and the processing
      context, are installed. */
  ghost predicate HasType(bk: Book, inst: set<Key>, x: Lan, y: Lan) {
    && NoDup(Clients(bk, x)) && CtxKey(x, y.l2) in inst
    && (forall m, ip :: m in Clients(bk, x) ==> RtKey(x, m, y.l2, ip) in inst)
  }

  ghost predicate HasLink(bk: Book, inst: set<Key>, x: Lan, y: Lan) {
    Ref(bk, x, y.l2) >= 1 && HasFilters(bk, inst, x, y) && HasType(bk, inst, x, y)
  }

  lemma FiltersStay(bk: Book, bk': Book, inst: set<Key>, inst': set<Key>, x: Lan, y: Lan)
    requires HasFilters(bk, inst, x, y) && Flt(bk', x, y) == Flt(bk, x, y) && IpUp(bk', x) == IpUp(bk, x)
    requires forall m, ip :: FltKey(x, y, m, ip) in inst ==> FltKey(x, y, m, ip) in inst'
    ensures HasFilters(bk', inst', x, y)
  {}

  lemma TypeStays(bk: Book, bk': Book, inst: set<Key>, inst': set<Key>, x: Lan, y: Lan)
    requires HasType(bk, inst, x, y) && Clients(bk', x) == Clients(bk, x)
    requires CtxKey(x, y.l2) in inst'
    requires forall m, ip :: RtKey(x, m, y.l2, ip) in inst ==> RtKey(x, m, y.l2, ip) in inst'
    ensures HasType(bk', inst', x, y)
  {}

  lemma PeerHasLink(bk: Book, inst: set<Key>, x: Lan, y: Lan)
    requires Distinct(bk) && Counted(bk) && Matches(bk, inst) && x in bk.order && y in Peers(bk, x)
    ensures HasLink(bk, inst, x, y)
  {
    CountPositive(Peers(bk, x), y.l2);
    assert Ref(bk, x, y.l2) == CountL2(Peers(bk, x), y.l2);
    assert NoDup(Clients(bk, x)) && NoDup(Flt(bk, x, y));
  }

  /** The filtering rules on `x` for the clients of `y`. */
  predicate OfFilters(bk: Book, x: Lan, y: Lan, k: Key) {
    k.FltKey? && k.on == x && k.peer == y && k.mac in Flt(bk, x, y) && k.ip in IpUp(bk, x)
  }

  /** What `x` has for the header type of `y`: its clients' routing rules and a context. */
  predicate OfType(bk: Book, x: Lan, y: Lan, k: Key) {
    (k.RtKey? && k.on == x && k.peerL2 == y.l2 && k.mac in Clients(bk, x)) || k == CtxKey(x, y.l2)
  }

  /** What one side of an unlinking deletes on `x`. */
  predicate OfSide(bk: Book, x: Lan, y: Lan, k: Key) {
    OfFilters(bk, x, y, k) || (Ref(bk, x, y.l2) == 1 && OfType(bk, x, y, k))
  }

  lemma RoundBooks(bk: Book, bk': Book, a: Lan, b: Lan, k: Key)
    requires NoDup(Peers(bk, a)) && NoDup(Peers(bk, b)) && Unlinked(bk, bk', a, b) && a != b
    ensures Booked(bk', k) <==> Booked(bk, k) && !OfSide(bk, a, b, k) && !OfSide(bk, b, a, k)
  {
    UnlinkBooks(bk, bk', a, b, k);
  }

  lemma RoundMatches(bk: Book, bk': Book, inst: set<Key>, inst': set<Key>, a: Lan, b: Lan)
    requires NoDup(Peers(bk, a)) && NoDup(Peers(bk, b)) && Unlinked(bk, bk', a, b) && a != b
    requires Matches(bk, inst)
    requires forall k :: k in inst' <==> k in inst && !OfSide(bk, a, b, k) && !OfSide(bk, b, a, k)
    ensures Matches(bk', inst')
  {
    forall k ensures k in inst' <==> Booked(bk', k) {
      RoundBooks(bk, bk', a, b, k);
    }
  }

  lemma SideSame(bk: Book, bk': Book, x: Lan, y: Lan, k: Key)
    requires bk' == bk.(peers := bk'.peers)
    ensures OfSide(bk', x, y, k) <==> OfSide(bk, x, y, k)
  {}

  lemma RoundDone(bk: Book, inst: set<Key>, inst': set<Key>, a: Lan, b: Lan, rest: seq<Lan>)
    requires rest != [] && rest[0] == b && a in bk.order
    requires Core(Pending(bk, a, rest)) && Matches(Pending(bk, a, rest), inst)
    requires forall k :: k in inst' <==> k in inst && !OfSide(bk, a, b, k) && !OfSide(bk, b, a, k)
    ensures Core(Pending(AfterRound(bk, a, b), a, rest[1..]))
    ensures Matches(Pending(AfterRound(bk, a, b), a, rest[1..]), inst')
  {
    var bk0, bk1 := Pending(bk, a, rest), Pending(AfterRound(bk, a, b), a, rest[1..]);
    assert b in Peers(bk0, a);
    RoundUnlinks(bk, a, b, rest);
    UnlinkKeepsCore(bk0, bk1, a, b);
    forall k ensures k in inst' <==> k in inst && !OfSide(bk0, a, b, k) && !OfSide(bk0, b, a, k) {
      SideSame(bk, bk0, a, b, k);
      SideSame(bk, bk0, b, a, k);
    }
    RoundMatches(bk0, bk1, inst, inst', a, b);
  }

  lemma RoundReady(bk: Book, inst: set<Key>, a: Lan, b: Lan, rest: seq<Lan>)
    requires rest != [] && rest[0] == b && a in bk.order
    requires Core(Pending(bk, a, rest)) && Matches(Pending(bk, a, rest), inst)
    ensures a != b && a in Peers(bk, b) && NoDup(Peers(bk, b)) && HasLink(bk, inst, a, b) && HasLink(bk, inst, b, a)
  {
    var bk0 := Pending(bk, a, rest);
    assert b in Peers(bk0, a);
    assert b in bk0.order && b != a && a in Peers(bk0, b);
    PeerHasLink(bk0, inst, a, b);
    PeerHasLink(bk0, inst, b, a);
    HasLinkKept(bk0, bk, inst, a, b);
    HasLinkKept(bk0, bk, inst, b, a);
    assert NoDup(Peers(bk0, b));
  }

  lemma HasLinkKept(bk: Book, bk': Book, inst: set<Key>, x: Lan, y: Lan)
    requires HasLink(bk, inst, x, y) && bk' == bk.(peers := bk'.peers)
    ensures HasLink(bk', inst, x, y)
  {
    FiltersStay(bk, bk', inst, inst, x, y);
    TypeStays(bk, bk', inst, inst, x, y);
  }

  // ---------------------------------------------------------------- the steps of one round

  lemma CountedDown(bk: Book, bk': Book, inst: set<Key>, a: Lan, b: Lan)
    requires a != b && HasLink(bk, inst, a, b) && HasLink(bk, inst, b, a) && bk' == CountsDown(bk, a, b)
    ensures Ref(bk', a, b.l2) == Ref(bk, a, b.l2) - 1 && Ref(bk', b, a.l2) == Ref(bk, b, a.l2) - 1
    ensures bk' == bk.(refCnt := bk'.refCnt)
    ensures HasFilters(bk', inst, a, b) && HasFilters(bk', inst, b, a)
    ensures HasType(bk', inst, a, b) && HasType(bk', inst, b, a)
  {
    FiltersStay(bk, bk', inst, inst, a, b);
    FiltersStay(bk, bk', inst, inst, b, a);
    TypeStays(bk, bk', inst, inst, a, b);
    TypeStays(bk, bk', inst, inst, b, a);
  }

  lemma OwnFiltersCleared(bk: Book, bk': Book, inst: set<Key>, inst': set<Key>, a: Lan, b: Lan)
    requires a != b && HasFilters(bk, inst, b, a) && HasType(bk, inst, a, b) && HasType(bk, inst, b, a)
    requires bk' == bk.(flt := bk.flt[(a, b) := []])
    requires forall k :: k in inst' <==> k in inst && !OfFilters(bk, a, b, k)
    ensures HasFilters(bk', inst', b, a) && HasType(bk', inst', a, b) && HasType(bk', inst', b, a)
  {
    FiltersStay(bk, bk', inst, inst', b, a);
    TypeStays(bk, bk', inst, inst', a, b);
    TypeStays(bk, bk', inst, inst', b, a);
  }

  lemma PeerCleared(bk: Book, bk': Book, inst: set<Key>, inst': set<Key>, a: Lan, b: Lan)
    requires a != b && HasType(bk, inst, a, b) && bk' == bk.(flt := bk'.flt, peers := bk'.peers)
    requires forall k :: k in inst' <==>
      k in inst && !OfFilters(bk, b, a, k) && !(Ref(bk, b, a.l2) == 0 && OfType(bk, b, a, k))
    ensures HasType(bk', inst', a, b)
  {
    TypeStays(bk, bk', inst, inst', a, b);
  }

  /** What one side's clearing deletes, once the counts have been taken down. */
  predicate OfCleared(bk: Book, x: Lan, y: Lan, k: Key) {
    OfFilters(bk, x, y, k) || (Ref(bk, x, y.l2) == 0 && OfType(bk, x, y, k))
  }

  /** Clearing with the counts already taken down clears what the side had. */
  lemma SideCleared(bk: Book, bk': Book, x: Lan, y: Lan, k: Key)
    requires bk' == bk.(refCnt := bk'.refCnt) && Ref(bk', x, y.l2) == Ref(bk, x, y.l2) - 1
    ensures OfSide(bk, x, y, k) <==> OfCleared(bk', x, y, k)
  {
    assert Clients(bk', x) == Clients(bk, x) && Flt(bk', x, y) == Flt(bk, x, y) && IpUp(bk', x) == IpUp(bk, x);
  }

  /** Clearing one side does not depend on what was cleared of the other. */
  lemma ClearedSame(bk: Book, bk': Book, x: Lan, y: Lan, k: Key)
    requires bk' == bk.(flt := bk'.flt, peers := bk'.peers)
    ensures OfType(bk', x, y, k) <==> OfType(bk, x, y, k)
    ensures Ref(bk', x, y.l2) == Ref(bk, x, y.l2)
    ensures Flt(bk', x, y) == Flt(bk, x, y) ==> (OfFilters(bk', x, y, k) <==> OfFilters(bk, x, y, k))
  {
    assert Clients(bk', x) == Clients(bk, x) && IpUp(bk', x) == IpUp(bk, x);
  }

  // ---------------------------------------------------------------- all peers

  /** The interfaces `gone` have forgotten `a`; nothing else changed but `a`'s own records. */
  ghost predicate DownFrom(bk0: Book, bk: Book, a: Lan, gone: set<Lan>) {
    && bk == bk0.(refCnt := bk.refCnt, peers := bk.peers, flt := bk.flt)
    && (forall x, y :: x != a ==> (y in Peers(bk, x) <==> y in Peers(bk0, x) && !(y == a && x in gone)))
    && (forall x, y :: x != a && y != a ==> Flt(bk, x, y) == Flt(bk0, x, y))
  }

  lemma DownFromStep(bk0: Book, bk: Book, a: Lan, b: Lan, gone: set<Lan>)
    requires DownFrom(bk0, bk, a, gone) && a != b && NoDup(Peers(bk, b))
    ensures DownFrom(bk0, AfterRound(bk, a, b), a, gone + {b})
  {
    EraseRemoves(Peers(bk, b), a);
  }

  lemma PendingBooked(bk: Book, a: Lan, k: Key)
    ensures Booked(Pending(bk, a, Peers(bk, a)), k) <==> Booked(bk, k)
  {
    if k.FltKey? { assert Peers(Pending(bk, a, Peers(bk, a)), k.on) == Peers(bk, k.on); }
  }

  lemma PendingSame(bk: Book, a: Lan, inst: set<Key>)
    requires Core(bk) && Matches(bk, inst)
    ensures Core(Pending(bk, a, Peers(bk, a))) && Matches(Pending(bk, a, Peers(bk, a)), inst)
    ensures DownFrom(bk, bk, a, {})
  {
    PendingKeepsCore(bk, Pending(bk, a, Peers(bk, a)), a);
    forall k ensures k in inst <==> Booked(Pending(bk, a, Peers(bk, a)), k) {
      PendingBooked(bk, a, k);
    }
  }

  lemma PendingKeepsCore(bk: Book, bk': Book, a: Lan)
    requires Core(bk) && bk' == bk.(peers := bk'.peers) && forall x :: Peers(bk', x) == Peers(bk, x)
    ensures Core(bk')
  {
    forall x, t | x in bk'.order ensures Ref(bk', x, t) == CountL2(Peers(bk', x), t) {
      assert Ref(bk, x, t) == CountL2(Peers(bk, x), t);
    }
    forall x | x in bk'.order ensures NoDup(Clients(bk', x)) && NoDup(Peers(bk', x)) && NoDup(IntraFlt(bk', x)) {
      assert NoDup(Clients(bk, x)) && NoDup(Peers(bk, x)) && NoDup(IntraFlt(bk, x));
    }
    forall x, y | x in bk'.order && y in Peers(bk', x)
      ensures y in bk'.order && y != x && x in Peers(bk', y) && NamedFor(bk', x, y) && NoDup(Flt(bk', x, y))
    {
      assert y in bk.order && y != x && x in Peers(bk, y) && NamedFor(bk, x, y) && NoDup(Flt(bk, x, y));
    }
  }

  /** What is installed on `a` for traffic among its own clients. */
  predicate OfIntra(bk: Book, a: Lan, k: Key) {
    match k
    case IntraCtxKey(x) => x == a
    case IntraRtKey(x, m, _) => x == a && m in Clients(bk, a)
    case IntraFltKey(x, m, ip) => x == a && m in IntraFlt(bk, a) && ip in IpUp(bk, a)
    case _ => false
  }

  /** The book after `a` has been erased from the list. */
  function Forgotten(bk: Book, a: Lan): Book {
    bk.(intraFlt := if a.wlan then bk.intraFlt[a := []] else bk.intraFlt,
        clients := bk.clients[a := []],
        order := Erase(bk.order, a))
  }

  /** What the book records for traffic among the clients of `a` is installed, and `a` has no
      peers of its own header type. */
  lemma IntraInstalled(bk: Book, inst: set<Key>, a: Lan)
    requires Distinct(bk) && Counted(bk) && Matches(bk, inst) && a in bk.order && a in bk.intraUp && Peers(bk, a) == []
    ensures NoDup(IntraFlt(bk, a)) && NoDup(Clients(bk, a)) && Ref(bk, a, a.l2) == 0 && IntraCtxKey(a) in inst
    ensures forall m, ip :: m in IntraFlt(bk, a) && ip in IpUp(bk, a) ==> IntraFltKey(a, m, ip) in inst
    ensures forall m, ip :: m in Clients(bk, a) ==> IntraRtKey(a, m, ip) in inst
  {
    assert Ref(bk, a, a.l2) == CountL2(Peers(bk, a), a.l2);
  }

  lemma IntraCleared(bk: Book, a: Lan, inst: set<Key>, inst1: set<Key>, inst2: set<Key>)
    requires forall k :: k in inst1 <==>
      k in inst && !(k.IntraFltKey? && k.on == a && k.mac in IntraFlt(bk, a) && k.ip in IpUp(bk, a))
    requires forall k :: k in inst2 <==>
      k in inst1 && !(k.IntraRtKey? && k.on == a && k.mac in Clients(bk, a))
    requires IntraCtxKey(a) in inst
    ensures IntraCtxKey(a) in inst2
    ensures forall k :: k in inst2 - {IntraCtxKey(a)} <==> k in inst && !OfIntra(bk, a, k)
  {}

  lemma IntraRtPairIs(a: Lan, c: nat)
    ensures forall k :: k in IntraRtPair(a, c) <==> k.IntraRtKey? && k.on == a && k.mac == c
  {
    forall k ensures k in IntraRtPair(a, c) <==> k.IntraRtKey? && k.on == a && k.mac == c {
      if k.IntraRtKey? { assert k.ip == V4 || k.ip == V6; }
    }
  }

  lemma IntraUpIff(bk: Book, a: Lan)
    requires Filtered(bk) && a in bk.order
    ensures a in bk.intraUp <==> a.wlan
  {}

  lemma ForgottenReads(bk: Book, a: Lan)
    requires NoDup(bk.order)
    ensures forall x :: x in Forgotten(bk, a).order <==> x in bk.order && x != a
    ensures |Forgotten(bk, a).order| <= |bk.order|
    ensures forall x :: x != a ==> Clients(Forgotten(bk, a), x) == Clients(bk, x)
    ensures forall x :: x != a ==> IntraFlt(Forgotten(bk, a), x) == IntraFlt(bk, x)
  {
    var bk' := Forgotten(bk, a);
    assert bk'.order == Erase(bk.order, a);
    EraseMembers(bk.order, a);
  }

  lemma ForgottenBooks(bk: Book, a: Lan, k: Key)
    requires Counted(bk) && NoDup(bk.order) && a in bk.order && Peers(bk, a) == [] && (a in bk.intraUp <==> a.wlan)
    ensures Booked(Forgotten(bk, a), k) <==> Booked(bk, k) && !(a.wlan && OfIntra(bk, a, k))
  {
    ForgottenReads(bk, a);
    if k.on == a && (k.CtxKey? || k.RtKey?) {
      assert Ref(bk, a, k.peerL2) == CountL2(Peers(bk, a), k.peerL2);
    }
  }

  lemma ForgottenMatches(bk: Book, a: Lan, inst: set<Key>, inst': set<Key>)
    requires Counted(bk) && NoDup(bk.order) && a in bk.order && Peers(bk, a) == [] && (a in bk.intraUp <==> a.wlan)
    requires Matches(bk, inst)
    requires forall k :: k in inst' <==> k in inst && !(a.wlan && OfIntra(bk, a, k))
    ensures Matches(Forgotten(bk, a), inst')
  {
    forall k ensures k in inst' <==> Booked(Forgotten(bk, a), k) {
      ForgottenBooks(bk, a, k);
    }
  }

  lemma ForgottenDistinct(bk: Book, a: Lan)
    requires Distinct(bk)
    ensures Distinct(Forgotten(bk, a))
  {
    var bk' := Forgotten(bk, a);
    EraseRemoves(bk.order, a);
    forall x | x in bk'.order ensures NoDup(Clients(bk', x)) && NoDup(Peers(bk', x)) && NoDup(IntraFlt(bk', x)) {
      assert NoDup(Clients(bk, x)) && NoDup(Peers(bk, x)) && NoDup(IntraFlt(bk, x));
    }
    forall x, y | x in bk'.order && y in Peers(bk', x) ensures NoDup(Flt(bk', x, y)) {
      assert NoDup(Flt(bk, x, y));
    }
  }

  lemma ForgottenLinks(bk: Book, a: Lan)
    requires Mutual(bk) && Counted(bk) && Named(bk) && NoDup(bk.order) && Peers(bk, a) == [] && a in bk.order
    ensures Mutual(Forgotten(bk, a)) && Counted(Forgotten(bk, a)) && Named(Forgotten(bk, a))
  {
    var bk' := Forgotten(bk, a);
    ForgottenReads(bk, a);
    forall x, t | x in bk'.order ensures Ref(bk', x, t) == CountL2(Peers(bk', x), t) {
      assert x in bk.order && Ref(bk, x, t) == CountL2(Peers(bk, x), t);
    }
    forall x, y | x in bk'.order && y in Peers(bk', x)
      ensures y in bk'.order && y != x && x in Peers(bk', y) && NamedFor(bk', x, y)
    {
      assert x in bk.order && y in Peers(bk, x);
      assert y in bk.order && y != x && x in Peers(bk, y) && NamedFor(bk, x, y);
    }
  }

  lemma ForgottenMeshed(bk0: Book, bk: Book, a: Lan, gone: set<Lan>)
    requires Meshed(bk0) && NoDup(bk0.order) && DownFrom(bk0, bk, a, gone)
    ensures Meshed(Forgotten(bk, a))
  {
    ForgottenReads(bk, a);
    var bk' := Forgotten(bk, a);
    forall x, y | x in bk'.order && y in bk'.order && x != y ensures y in Peers(bk', x) {
      assert y in Peers(bk0, x);
    }
  }

  lemma ForgottenFilter(bk0: Book, bk: Book, a: Lan, gone: set<Lan>, x: Lan, y: Lan, m: nat)
    requires Filtered(bk0) && DownFrom(bk0, bk, a, gone) && x in bk0.order && x != a
    requires y in Peers(bk, x) && y != a
    ensures m in Flt(Forgotten(bk, a), x, y) <==> m in Clients(Forgotten(bk, a), y)
  {
    assert m in Flt(bk0, x, y) <==> m in Clients(bk0, y);
  }

  lemma ForgottenIntra(bk0: Book, bk: Book, a: Lan, gone: set<Lan>, x: Lan, m: nat)
    requires Filtered(bk0) && DownFrom(bk0, bk, a, gone) && x in bk0.order && x != a && x.wlan
    ensures m in IntraFlt(Forgotten(bk, a), x) <==> m in Clients(Forgotten(bk, a), x)
  {
    assert m in IntraFlt(bk0, x) <==> m in Clients(bk0, x);
  }

  lemma ForgottenFiltered(bk0: Book, bk: Book, a: Lan, gone: set<Lan>)
    requires Filtered(bk0) && NoDup(bk0.order) && DownFrom(bk0, bk, a, gone)
    requires forall x :: x in bk0.order && x != a ==> a !in Peers(bk, x)
    ensures Filtered(Forgotten(bk, a))
  {
    var bk' := Forgotten(bk, a);
    ForgottenReads(bk, a);
    forall x, y, m | x in bk'.order && y in Peers(bk', x) ensures m in Flt(bk', x, y) <==> m in Clients(bk', y) {
      ForgottenFilter(bk0, bk, a, gone, x, y, m);
    }
    forall x | x in bk'.order ensures x in bk'.intraUp <==> x.wlan { IntraUpIff(bk0, x); }
    forall x, m | x in bk'.order && x.wlan ensures m in IntraFlt(bk', x) <==> m in Clients(bk', x) {
      ForgottenIntra(bk0, bk, a, gone, x, m);
    }
  }

  lemma ForgottenLimited(bk0: Book, bk: Book, a: Lan, gone: set<Lan>)
    requires Limited(bk0) && NoDup(bk0.order) && DownFrom(bk0, bk, a, gone)
    ensures Limited(Forgotten(bk, a))
  {
    ForgottenReads(bk, a);
    var bk' := Forgotten(bk, a);
    forall x | x in bk'.order ensures Usable(x) && IpUp(bk', x) != {} && |Clients(bk', x)| <= MAX_NUM_CLIENT {
      assert Usable(x) && IpUp(bk0, x) != {} && |Clients(bk0, x)| <= MAX_NUM_CLIENT;
    }
  }

  lemma WithoutIfaceReads(top: Topology, a: Lan)
    requires top.ips.Keys == top.ifaces && top.clients.Keys == top.ifaces
    ensures var top' := WithoutIfaceIn(top, a);
            && top'.ips.Keys == top'.ifaces && top'.clients.Keys == top'.ifaces
            && (forall x :: x in top'.ifaces <==> x in top.ifaces && x != a)
            && (forall x :: x in top'.ifaces ==> top'.ips[x] == top.ips[x] && top'.clients[x] == top.clients[x])
  {}

  lemma ForgottenKeeps(bk: Book, a: Lan, x: Lan)
    requires x != a
    ensures ClientSet(Forgotten(bk, a), x) == ClientSet(bk, x) && IpUp(Forgotten(bk, a), x) == IpUp(bk, x)
  {
    assert Clients(Forgotten(bk, a), x) == Clients(bk, x);
  }

  lemma ForgottenTopology(bk: Book, a: Lan)
    requires NoDup(bk.order)
    ensures TopologyOf(Forgotten(bk, a)) == WithoutIfaceIn(TopologyOf(bk), a)
  {
    var bk', top0 := Forgotten(bk, a), TopologyOf(bk);
    var top := WithoutIfaceIn(top0, a);
    WithoutIfaceReads(top0, a);
    ForgottenReads(bk, a);
    forall x | x in top.ifaces ensures top.ips[x] == IpUp(bk', x) && top.clients[x] == ClientSet(bk', x) {
      ForgottenKeeps(bk, a, x);
    }
    TopologyIs(bk', top);
  }

  /** No other interface has `a` as a peer any more. */
  lemma GoneFromAll(bk0: Book, bk: Book, a: Lan, gone: set<Lan>)
    requires Mutual(bk0) && DownFrom(bk0, bk, a, gone) && AllPeers(bk0, a, gone)
    ensures forall x :: x in bk0.order && x != a ==> a !in Peers(bk, x)
  {
    forall x | x in bk0.order && x != a ensures a !in Peers(bk, x) {
      if a in Peers(bk0, x) { assert x in Peers(bk0, a); }
    }
  }

  lemma SameReads(bk: Book, bk': Book)
    requires bk'.order == bk.order && bk'.ipUp == bk.ipUp && bk'.clients == bk.clients
    ensures TopologyOf(bk') == TopologyOf(bk)
  {
    forall x ensures ClientSet(bk', x) == ClientSet(bk, x) && IpUp(bk', x) == IpUp(bk, x) {
      assert Clients(bk', x) == Clients(bk, x);
    }
    TopologyIs(bk', TopologyOf(bk));
  }

  lemma DownDone(bk0: Book, bk: Book, a: Lan, inst: set<Key>, inst': set<Key>, gone: set<Lan>)
    requires Settled(bk0) && a in bk0.order && DownFrom(bk0, bk, a, gone) && AllPeers(bk0, a, gone)
    requires Core(bk) && Matches(bk, inst) && Peers(bk, a) == []
    requires forall k :: k in inst' <==> k in inst && !(a.wlan && OfIntra(bk, a, k))
    ensures Settled(Forgotten(bk, a)) && Matches(Forgotten(bk, a), inst')
    ensures TopologyOf(Forgotten(bk, a)) == WithoutIfaceIn(TopologyOf(bk0), a)
  {
    GoneFromAll(bk0, bk, a, gone);
    ForgottenDistinct(bk, a);
    ForgottenLinks(bk, a);
    ForgottenMeshed(bk0, bk, a, gone);
    ForgottenFiltered(bk0, bk, a, gone);
    ForgottenLimited(bk0, bk, a, gone);
    ForgottenMatches(bk, a, inst, inst');
    ForgottenTopology(bk, a);
    assert TopologyOf(bk) == TopologyOf(bk0) by { SameReads(bk0, bk); }
  }
}
