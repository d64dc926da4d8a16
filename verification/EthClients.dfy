/** The Ethernet client table of a LAN interface: an array of records that are filled at the end
    and closed up by shifting, each holding the handles of its headers and routing rules. */
module EthClients {
  import opened Common

  /** A place for a handle in a client's record: a header, or the routing rule of a transmit
      property, for IPv6 of an address as well, in the LAN table or the WAN table. */
  datatype Slot = Header(ip: Ip) | Route4(tx: nat) | Route6(tx: nat, n: nat) | Route6Wan(tx: nat, n: nat)

  /** A client's record; MAC and IP addresses are numbers. */
  datatype Client = Client(
    mac: nat, v4Addr: nat, v6Addr: map<nat, nat>, hdl: map<Slot, nat>,
    routeSetV4: bool, routeSetV6: nat, ipv4Set: bool, ipv6Set: nat,
    headerSetV4: bool, headerSetV6: bool)

  /** Something installed in the hardware: whose it is, what it is, and for a routing rule the
      address it is for and the handle of the header that it puts in front (0 for none). */
  datatype HwObject = HwObject(mac: nat, slot: Slot, addr: nat, hdr: nat)

  datatype Owner = Owner(mac: nat, slot: Slot)

  const IPA_MAX_NUM_ETH_CLIENTS: nat := 15
  const IPV6_NUM_ADDR: nat := 3
  const NO_CLIENT: Client := Client(0, 0, map[], map[], false, 0, false, 0, false, false)

  /** What the record says is installed. */
  predicate Live(c: Client, s: Slot, tx: seq<Ip>) {
    match s
    case Header(V4) => c.headerSetV4
    case Header(V6) => c.headerSetV6
    case Route4(t) => t < |tx| && tx[t] == V4 && c.routeSetV4
    case Route6(t, n) => t < |tx| && tx[t] == V6 && n < c.routeSetV6
    case Route6Wan(t, n) => t < |tx| && tx[t] == V6 && n < c.routeSetV6
  }

  function V6At(c: Client, n: nat): nat { if n in c.v6Addr then c.v6Addr[n] else 0 }

  function AddrFor(c: Client, s: Slot): nat {
    match s
    case Header(_) => 0
    case Route4(_) => c.v4Addr
    case Route6(_, n) => V6At(c, n)
    case Route6Wan(_, n) => V6At(c, n)
  }

  /** The header that a rule names; the IPv6 rules of the LAN table lead to the processor and name
      none. */
  function HeaderOf(s: Slot): Option<Slot> {
    match s
    case Route4(_) => Some(Header(V4))
    case Route6Wan(_, _) => Some(Header(V6))
    case _ => None
  }

  function HdlAt(c: Client, s: Slot): nat { if s in c.hdl then c.hdl[s] else 0 }

  function HdrFor(c: Client, s: Slot): nat {
    match HeaderOf(s) case Some(x) => HdlAt(c, x) case None => 0
  }

  // ---------------------------------------------------------------- one client and the hardware

  /** The hardware objects are exactly the claimed ones, each under one handle. */
  ghost predicate HwSync(claims: map<Owner, nat>, hw: map<nat, HwObject>, nextHdl: nat) {
    && (forall o :: o in claims ==> claims[o] in hw && hw[claims[o]].mac == o.mac && hw[claims[o]].slot == o.slot)
    && (forall h :: h in hw ==> h < nextHdl && Owner(hw[h].mac, hw[h].slot) in claims
                                && claims[Owner(hw[h].mac, hw[h].slot)] == h)
  }

  /** The record has the handle of slot `s`, and the object behind it is for the right address and
      names the client's header. */
  ghost predicate Has(c: Client, s: Slot, claims: map<Owner, nat>, hw: map<nat, HwObject>) {
    && Owner(c.mac, s) in claims && s in c.hdl && c.hdl[s] == claims[Owner(c.mac, s)]
    && c.hdl[s] in hw && hw[c.hdl[s]].addr == AddrFor(c, s) && hw[c.hdl[s]].hdr == HdrFor(c, s)
  }

  /** The client's objects are those in the slots `held`. */
  ghost predicate Holds(c: Client, held: iset<Slot>, claims: map<Owner, nat>, hw: map<nat, HwObject>) {
    forall s :: if s in held then Has(c, s, claims, hw) else Owner(c.mac, s) !in claims
  }

  ghost function LiveSlots(c: Client, tx: seq<Ip>): iset<Slot> {
    iset s: Slot | Live(c, s, tx)
  }

  /** The client's objects are exactly those that its record names. */
  ghost predicate Right(c: Client, tx: seq<Ip>, claims: map<Owner, nat>, hw: map<nat, HwObject>) {
    Holds(c, LiveSlots(c, tx), claims, hw)
  }

  /** Only objects of the client `mac` have been added or deleted. */
  ghost predicate OthersUntouched(mac: nat, claims: map<Owner, nat>, claims': map<Owner, nat>,
                                  hw: map<nat, HwObject>, hw': map<nat, HwObject>) {
    forall o: Owner :: o.mac != mac ==>
      && (o in claims' <==> o in claims)
      && (o in claims && claims[o] in hw ==>
            claims'[o] == claims[o] && claims[o] in hw' && hw'[claims[o]] == hw[claims[o]])
  }

  lemma RightStays(c: Client, mac: nat, tx: seq<Ip>, claims: map<Owner, nat>, claims': map<Owner, nat>,
                   hw: map<nat, HwObject>, hw': map<nat, HwObject>)
    requires Right(c, tx, claims, hw) && OthersUntouched(mac, claims, claims', hw, hw') && c.mac != mac
    ensures Right(c, tx, claims', hw')
  {
    forall s ensures if s in LiveSlots(c, tx) then Has(c, s, claims', hw') else Owner(c.mac, s) !in claims' {
      assert Owner(c.mac, s).mac != mac;
      if s in LiveSlots(c, tx) { assert Has(c, s, claims, hw); }
    }
  }

  lemma AddSync(claims: map<Owner, nat>, hw: map<nat, HwObject>, nextHdl: nat, o: Owner, x: HwObject)
    requires HwSync(claims, hw, nextHdl) && o !in claims && x.mac == o.mac && x.slot == o.slot
    ensures HwSync(claims[o := nextHdl], hw[nextHdl := x], nextHdl + 1)
    ensures OthersUntouched(o.mac, claims, claims[o := nextHdl], hw, hw[nextHdl := x])
  {}

  /** What is installed for slot `s` of a client. */
  function ObjectFor(c: Client, s: Slot): HwObject {
    HwObject(c.mac, s, AddrFor(c, s), HdrFor(c, s))
  }

  lemma AddHolds(c: Client, held: iset<Slot>, claims: map<Owner, nat>, hw: map<nat, HwObject>, nextHdl: nat, s: Slot)
    requires HwSync(claims, hw, nextHdl) && Holds(c, held, claims, hw) && s !in held
    requires forall x :: x in held ==> HeaderOf(x) != Some(s)
    ensures Holds(c.(hdl := c.hdl[s := nextHdl]), held + iset{s}, claims[Owner(c.mac, s) := nextHdl],
                  hw[nextHdl := ObjectFor(c, s)])
  {
    var c' := c.(hdl := c.hdl[s := nextHdl]);
    var claims', hw' := claims[Owner(c.mac, s) := nextHdl], hw[nextHdl := ObjectFor(c, s)];
    forall x ensures if x in held + iset{s} then Has(c', x, claims', hw') else Owner(c.mac, x) !in claims' {
      assert AddrFor(c', x) == AddrFor(c, x);
      if x in held { assert Has(c, x, claims, hw) && c.hdl[x] in hw && c.hdl[x] < nextHdl; }
    }
  }

  lemma DelSync(claims: map<Owner, nat>, hw: map<nat, HwObject>, nextHdl: nat, o: Owner)
    requires HwSync(claims, hw, nextHdl) && o in claims
    ensures HwSync(claims - {o}, hw - {claims[o]}, nextHdl)
    ensures OthersUntouched(o.mac, claims, claims - {o}, hw, hw - {claims[o]})
  {}

  lemma DelHolds(c: Client, held: iset<Slot>, claims: map<Owner, nat>, hw: map<nat, HwObject>, nextHdl: nat, s: Slot)
    requires HwSync(claims, hw, nextHdl) && Holds(c, held, claims, hw) && s in held
    ensures Holds(c, held - iset{s}, claims - {Owner(c.mac, s)}, hw - {claims[Owner(c.mac, s)]})
  {
    var o := Owner(c.mac, s);
    forall x
      ensures
        if x in held - iset{s} then Has(c, x, claims - {o}, hw - {claims[o]}) else Owner(c.mac, x) !in claims - {o}
    {
      if x in held { assert Has(c, x, claims, hw); }
    }
  }

  /** What is held only depends on the handles and on the addresses of the rules held. */
  lemma HoldsSame(c: Client, c': Client, held: iset<Slot>, claims: map<Owner, nat>, hw: map<nat, HwObject>)
    requires Holds(c, held, claims, hw) && c'.mac == c.mac
    requires forall s :: s in held ==>
               s in c'.hdl && s in c.hdl && c'.hdl[s] == c.hdl[s] && ObjectFor(c', s) == ObjectFor(c, s)
    ensures Holds(c', held, claims, hw)
  {
    forall s ensures if s in held then Has(c', s, claims, hw) else Owner(c'.mac, s) !in claims {
      if s in held { assert Has(c, s, claims, hw); }
    }
  }

  /** The hardware has an object for slot `s` of the client `mac`, for the address `addr`. */
  ghost predicate Installed(hw: map<nat, HwObject>, mac: nat, s: Slot, addr: nat) {
    exists h :: h in hw && hw[h].mac == mac && hw[h].slot == s && hw[h].addr == addr
  }

  /** Every address of the client is routed for every transmit property of its type: an IPv4 one by a
      rule, an IPv6 one by a rule in either table. */
  ghost predicate Served(hw: map<nat, HwObject>, c: Client, tx: seq<Ip>, ip: Ip) {
    forall t :: 0 <= t < |tx| && tx[t] == ip ==>
      match ip
      case V4 => c.ipv4Set ==> Installed(hw, c.mac, Route4(t), c.v4Addr)
      case V6 => forall n :: 0 <= n < c.ipv6Set ==>
        Installed(hw, c.mac, Route6(t, n), V6At(c, n)) && Installed(hw, c.mac, Route6Wan(t, n), V6At(c, n))
  }

  /** Is the slot a routing rule for the address type? */
  predicate IsRoute(s: Slot, ip: Ip) {
    if ip == V4 then s.Route4? else s.Route6? || s.Route6Wan?
  }

  /** The hardware has no routing rule of the client `mac` for the address type. */
  ghost predicate Unrouted(hw: map<nat, HwObject>, mac: nat, ip: Ip) {
    forall h :: h in hw && hw[h].mac == mac ==> !IsRoute(hw[h].slot, ip)
  }

  lemma LiveIsInstalled(c: Client, tx: seq<Ip>, claims: map<Owner, nat>, hw: map<nat, HwObject>, nextHdl: nat, s: Slot)
    requires HwSync(claims, hw, nextHdl) && Right(c, tx, claims, hw)
    ensures Live(c, s, tx) ==> Installed(hw, c.mac, s, AddrFor(c, s))
    ensures !Live(c, s, tx) ==> forall h :: h in hw && hw[h].mac == c.mac ==> hw[h].slot != s
  {
    if Live(c, s, tx) {
      assert s in LiveSlots(c, tx) && Has(c, s, claims, hw);
    } else {
      assert s !in LiveSlots(c, tx) && Owner(c.mac, s) !in claims;
    }
  }

  lemma RoutedIsServed(c: Client, tx: seq<Ip>, claims: map<Owner, nat>, hw: map<nat, HwObject>, nextHdl: nat, ip: Ip)
    requires HwSync(claims, hw, nextHdl) && Right(c, tx, claims, hw)
    requires if ip == V4 then c.ipv4Set ==> c.routeSetV4 else c.routeSetV6 >= c.ipv6Set
    ensures Served(hw, c, tx, ip)
  {
    forall t | 0 <= t < |tx| && tx[t] == ip
      ensures
        match ip
        case V4 => c.ipv4Set ==> Installed(hw, c.mac, Route4(t), c.v4Addr)
        case V6 => forall n :: 0 <= n < c.ipv6Set ==>
          Installed(hw, c.mac, Route6(t, n), V6At(c, n)) && Installed(hw, c.mac, Route6Wan(t, n), V6At(c, n))
    {
      if ip == V4 {
        if c.ipv4Set { LiveIsInstalled(c, tx, claims, hw, nextHdl, Route4(t)); }
      } else {
        forall n | 0 <= n < c.ipv6Set
          ensures Installed(hw, c.mac, Route6(t, n), V6At(c, n)) && Installed(hw, c.mac, Route6Wan(t, n), V6At(c, n))
        {
          LiveIsInstalled(c, tx, claims, hw, nextHdl, Route6(t, n));
          LiveIsInstalled(c, tx, claims, hw, nextHdl, Route6Wan(t, n));
        }
      }
    }
  }

  lemma NoneIsUnrouted(c: Client, tx: seq<Ip>, claims: map<Owner, nat>, hw: map<nat, HwObject>, nextHdl: nat, ip: Ip)
    requires HwSync(claims, hw, nextHdl) && Right(c, tx, claims, hw)
    requires if ip == V4 then !c.routeSetV4 else c.routeSetV6 == 0
    ensures Unrouted(hw, c.mac, ip)
  {
    forall h | h in hw && hw[h].mac == c.mac ensures !IsRoute(hw[h].slot, ip) {
      LiveIsInstalled(c, tx, claims, hw, nextHdl, hw[h].slot);
    }
  }

  /** A client that has just appeared has no address and no rule, and a header for each address type
      that there is a transmit property for. */
  ghost predicate Appeared(hw: map<nat, HwObject>, c: Client, mac: nat, tx: seq<Ip>) {
    && c.mac == mac && !c.ipv4Set && c.ipv6Set == 0
    && Unrouted(hw, mac, V4) && Unrouted(hw, mac, V6)
    && (forall ip :: ip in tx ==> Installed(hw, mac, Header(ip), 0))
  }

  lemma JustHeaders(c: Client, tx: seq<Ip>, claims: map<Owner, nat>, hw: map<nat, HwObject>, nextHdl: nat)
    requires HwSync(claims, hw, nextHdl) && Right(c, tx, claims, hw) && HeadersSet(c, tx)
    requires !c.ipv4Set && c.ipv6Set == 0 && !c.routeSetV4 && c.routeSetV6 == 0
    ensures Appeared(hw, c, c.mac, tx)
  {
    NoneIsUnrouted(c, tx, claims, hw, nextHdl, V4);
    NoneIsUnrouted(c, tx, claims, hw, nextHdl, V6);
    forall ip | ip in tx ensures Installed(hw, c.mac, Header(ip), 0) {
      HeadersInstalled(c, tx, claims, hw, nextHdl, ip);
    }
  }

  lemma HeadersInstalled(c: Client, tx: seq<Ip>, claims: map<Owner, nat>, hw: map<nat, HwObject>, nextHdl: nat, ip: Ip)
    requires HwSync(claims, hw, nextHdl) && Right(c, tx, claims, hw) && HeadersSet(c, tx) && ip in tx
    ensures Installed(hw, c.mac, Header(ip), 0)
  {
    LiveIsInstalled(c, tx, claims, hw, nextHdl, Header(ip));
  }

  // ---------------------------------------------------------------- the table

  /** The records are within the limits, and an address is recorded once. */
  predicate Sane(c: Client) {
    && c.routeSetV6 <= c.ipv6Set <= IPV6_NUM_ADDR && (c.routeSetV4 ==> c.ipv4Set)
    && (forall n :: 0 <= n < c.ipv6Set ==> n in c.v6Addr)
    && (forall n, m :: 0 <= n < m < c.ipv6Set && n in c.v6Addr && m in c.v6Addr ==> c.v6Addr[n] != c.v6Addr[m])
  }

  /** The flags in a place that is not in use may be stale, but only say that a header was added
      for a transmit property that still is there. */
  predicate FlagsFit(c: Client, tx: seq<Ip>) {
    (c.headerSetV4 ==> V4 in tx) && (c.headerSetV6 ==> V6 in tx)
  }

  /** A client has a header for each address type that there is a transmit property for. */
  predicate HeadersSet(c: Client, tx: seq<Ip>) {
    (V4 in tx ==> c.headerSetV4) && (V6 in tx ==> c.headerSetV6)
  }

  ghost predicate DistinctMacs(s: seq<Client>) {
    forall i, j :: 0 <= i < j < |s| ==> s[i].mac != s[j].mac
  }

  ghost predicate HasMac(s: seq<Client>, mac: nat) {
    exists i :: 0 <= i < |s| && s[i].mac == mac
  }

  ghost predicate AllKnown(s: seq<Client>, claims: map<Owner, nat>) {
    forall o :: o in claims ==> HasMac(s, o.mac)
  }

  ghost predicate AllRight(s: seq<Client>, tx: seq<Ip>, claims: map<Owner, nat>, hw: map<nat, HwObject>) {
    forall i :: 0 <= i < |s| ==> Right(s[i], tx, claims, hw)
  }

  /** What holds of the records in use and the hardware between events. */
  ghost predicate InOrder(s: seq<Client>, tx: seq<Ip>, claims: map<Owner, nat>, hw: map<nat, HwObject>) {
    DistinctMacs(s) && AllKnown(s, claims) && AllRight(s, tx, claims, hw)
  }

  /** Only the record at `i`, and what it names in the hardware, has changed. */
  lemma OneChanged(s: seq<Client>, s': seq<Client>, i: nat, tx: seq<Ip>, claims: map<Owner, nat>,
                   claims': map<Owner, nat>, hw: map<nat, HwObject>, hw': map<nat, HwObject>)
    requires InOrder(s, tx, claims, hw) && |s'| == |s| && i < |s| && s'[i].mac == s[i].mac
    requires forall k :: 0 <= k < |s| && k != i ==> s'[k] == s[k]
    requires OthersUntouched(s[i].mac, claims, claims', hw, hw') && Right(s'[i], tx, claims', hw')
    ensures InOrder(s', tx, claims', hw')
  {
    forall k | 0 <= k < |s'| ensures Right(s'[k], tx, claims', hw') {
      if k != i { RightStays(s[k], s[i].mac, tx, claims, claims', hw, hw'); }
    }
    forall o | o in claims' ensures HasMac(s', o.mac) {
      if o.mac == s[i].mac {
        assert s'[i].mac == o.mac;
      } else {
        assert HasMac(s, o.mac);
        var k :| 0 <= k < |s| && s[k].mac == o.mac;
        assert s'[k].mac == o.mac;
      }
    }
    forall a, b | 0 <= a < b < |s'| ensures s'[a].mac != s'[b].mac {
      assert s'[a].mac == s[a].mac && s'[b].mac == s[b].mac;
    }
  }

  class EthTable {
    const tx: seq<Ip>
    const hasTx: bool
    const clients: array<Client>
    var num: nat
    // the hardware
    var hw: map<nat, HwObject>
    var nextHdl: nat
    ghost var claims: map<Owner, nat>

    ghost predicate Shape()
      reads this, clients
    {
      && clients.Length == IPA_MAX_NUM_ETH_CLIENTS && num <= IPA_MAX_NUM_ETH_CLIENTS
      && (forall i :: 0 <= i < num ==> Sane(clients[i]) && HeadersSet(clients[i], tx))
      && (forall i :: 0 <= i < IPA_MAX_NUM_ETH_CLIENTS ==> FlagsFit(clients[i], tx))
    }

    ghost predicate Valid()
      reads this, clients
    {
      Shape() && HwSync(claims, hw, nextHdl) && InOrder(clients[..num], tx, claims, hw)
    }

    constructor (tx: seq<Ip>, hasTx: bool)
      ensures Valid() && num == 0 && hw == map[] && fresh(clients) && this.tx == tx && this.hasTx == hasTx
    {
      this.tx, this.hasTx := tx, hasTx;
      clients := new Client[IPA_MAX_NUM_ETH_CLIENTS](_ => NO_CLIENT);
      num, hw, nextHdl, claims := 0, map[], 0, map[];
    }

    method GetEthClientIndex(mac: nat) returns (index: int)
      requires Shape()
      ensures index == -1 <==> !HasMac(clients[..num], mac)
      ensures index != -1 ==> 0 <= index < num && clients[index].mac == mac
    {
      for cnt := 0 to num
        invariant forall k :: 0 <= k < cnt ==> clients[k].mac != mac
      {
        if clients[cnt].mac == mac {
          assert clients[..num][cnt].mac == mac;
          return cnt;
        }
      }
      return -1;
    }

    // -------------------------------------------------------------- one object

    /** Adds an object for slot `s` of the client at `i` and stores its handle in the record. */
    method Install(i: nat, s: Slot, addr: nat, hdr: nat, ghost held: iset<Slot>)
      requires i < clients.Length && HwSync(claims, hw, nextHdl) && Holds(clients[i], held, claims, hw) && s !in held
      requires addr == AddrFor(clients[i], s) && hdr == HdrFor(clients[i], s)
      requires forall x :: x in held ==> HeaderOf(x) != Some(s)
      modifies this`hw, this`nextHdl, this`claims, clients
      ensures HwSync(claims, hw, nextHdl) && Holds(clients[i], held + iset{s}, claims, hw)
      ensures clients[..] == old(clients[..])[i := old(clients[i]).(hdl := clients[i].hdl)]
      ensures forall x :: x != s && x in old(clients[i]).hdl ==>
        x in clients[i].hdl && clients[i].hdl[x] == old(clients[i]).hdl[x]
      ensures OthersUntouched(clients[i].mac, old(claims), claims, old(hw), hw)
    {
      ghost var o := Owner(clients[i].mac, s);
      AddSync(claims, hw, nextHdl, o, ObjectFor(clients[i], s));
      AddHolds(clients[i], held, claims, hw, nextHdl, s);
      hw := hw[nextHdl := HwObject(clients[i].mac, s, addr, hdr)];
      clients[i] := clients[i].(hdl := clients[i].hdl[s := nextHdl]);
      claims := claims[o := nextHdl];
      nextHdl := nextHdl + 1;
    }

    /** Deletes the object whose handle is in slot `s` of the client at `i`. */
    method Delete(i: nat, s: Slot, ghost held: iset<Slot>)
      requires i < clients.Length && HwSync(claims, hw, nextHdl) && Holds(clients[i], held, claims, hw) && s in held
      modifies this`hw, this`claims
      ensures HwSync(claims, hw, nextHdl) && Holds(clients[i], held - iset{s}, claims, hw)
      ensures OthersUntouched(clients[i].mac, old(claims), claims, old(hw), hw)
    {
      assert Has(clients[i], s, claims, hw);
      ghost var o := Owner(clients[i].mac, s);
      DelSync(claims, hw, nextHdl, o);
      DelHolds(clients[i], held, claims, hw, nextHdl, s);
      hw := hw - {clients[i].hdl[s]};
      claims := claims - {o};
    }

    // -------------------------------------------------------------- routing rules

    /** Deletes the IPv4 routing rules of the client at `i`. */
    method DeleteRoutesV4(i: nat) returns (ghost held: iset<Slot>)
      requires i < clients.Length && HwSync(claims, hw, nextHdl) && Right(clients[i], tx, claims, hw)
      modifies this`hw, this`claims
      ensures HwSync(claims, hw, nextHdl) && Holds(clients[i], held, claims, hw)
      ensures WithoutV4(held, clients[i], tx, |tx|)
      ensures OthersUntouched(clients[i].mac, old(claims), claims, old(hw), hw)
    {
      held := LiveSlots(clients[i], tx);
      for t := 0 to |tx|
        invariant HwSync(claims, hw, nextHdl) && Holds(clients[i], held, claims, hw)
        invariant WithoutV4(held, clients[i], tx, t)
        invariant OthersUntouched(clients[i].mac, old(claims), claims, old(hw), hw)
      {
        WithoutV4Step(held, clients[i], tx, t);
        if tx[t] == V4 && clients[i].routeSetV4 {
          Delete(i, Route4(t), held);
          held := held - iset{Route4(t)};
        }
      }
    }

    /** Deletes the IPv6 routing rules of the client at `i` for the transmit property `t`, in both
        tables. */
    method DeleteRoutesV6For(i: nat, t: nat, ghost held0: iset<Slot>) returns (ghost held: iset<Slot>)
      requires i < clients.Length && HwSync(claims, hw, nextHdl) && Holds(clients[i], held0, claims, hw)
      requires t < |tx| && tx[t] == V6 && WithoutV6(held0, clients[i], tx, t, 0)
      modifies this`hw, this`claims
      ensures HwSync(claims, hw, nextHdl) && Holds(clients[i], held, claims, hw)
      ensures WithoutV6(held, clients[i], tx, t, clients[i].routeSetV6)
      ensures OthersUntouched(clients[i].mac, old(claims), claims, old(hw), hw)
    {
      held := held0;
      for n := 0 to clients[i].routeSetV6
        invariant HwSync(claims, hw, nextHdl) && Holds(clients[i], held, claims, hw)
        invariant WithoutV6(held, clients[i], tx, t, n)
        invariant OthersUntouched(clients[i].mac, old(claims), claims, old(hw), hw)
      {
        WithoutV6Step(held, clients[i], tx, t, n);
        Delete(i, Route6(t, n), held);
        held := held - iset{Route6(t, n)};
        Delete(i, Route6Wan(t, n), held);
        held := held - iset{Route6Wan(t, n)};
      }
    }

    method DeleteRoutesV6(i: nat) returns (ghost held: iset<Slot>)
      requires i < clients.Length && HwSync(claims, hw, nextHdl) && Right(clients[i], tx, claims, hw)
      modifies this`hw, this`claims
      ensures HwSync(claims, hw, nextHdl) && Holds(clients[i], held, claims, hw)
      ensures WithoutV6(held, clients[i], tx, |tx|, 0)
      ensures OthersUntouched(clients[i].mac, old(claims), claims, old(hw), hw)
    {
      held := LiveSlots(clients[i], tx);
      for t := 0 to |tx|
        invariant HwSync(claims, hw, nextHdl) && Holds(clients[i], held, claims, hw)
        invariant WithoutV6(held, clients[i], tx, t, 0)
        invariant OthersUntouched(clients[i].mac, old(claims), claims, old(hw), hw)
      {
        if tx[t] == V6 && clients[i].routeSetV6 != 0 {
          held := DeleteRoutesV6For(i, t, held);
        }
        WithoutV6Next(held, clients[i], tx, t);
      }
    }

    /** delete_eth_rtrules. */
    method DeleteEthRtRules(i: nat, ip: Ip)
      requires i < clients.Length && HwSync(claims, hw, nextHdl) && Right(clients[i], tx, claims, hw)
      modifies this`hw, this`claims, clients
      ensures HwSync(claims, hw, nextHdl) && Right(clients[i], tx, claims, hw)
      ensures clients[i] == NoRoutes(old(clients[i]), ip) && Unrouted(hw, clients[i].mac, ip)
      ensures forall k :: 0 <= k < clients.Length && k != i ==> clients[k] == old(clients[k])
      ensures OthersUntouched(clients[i].mac, old(claims), claims, old(hw), hw)
    {
      ghost var c := clients[i];
      if ip == V4 {
        ghost var held := DeleteRoutesV4(i);
        if clients[i].routeSetV4 {
          clients[i] := clients[i].(routeSetV4 := false);
        }
        HeldIsLive(c, clients[i], held, tx, claims, hw);
      } else {
        ghost var held := DeleteRoutesV6(i);
        if clients[i].routeSetV6 != 0 {
          clients[i] := clients[i].(routeSetV6 := 0);
        }
        HeldIsLive(c, clients[i], held, tx, claims, hw);
      }
      NoneIsUnrouted(clients[i], tx, claims, hw, nextHdl, ip);
    }

    /** Adds the IPv4 routing rules of the client at `i`, one for each IPv4 transmit property. */
    method AddRoutesV4(i: nat) returns (ghost held: iset<Slot>)
      requires i < clients.Length && HwSync(claims, hw, nextHdl) && Right(clients[i], tx, claims, hw)
      requires !clients[i].routeSetV4
      modifies this`hw, this`nextHdl, this`claims, clients
      ensures HwSync(claims, hw, nextHdl) && Holds(clients[i], held, claims, hw)
      ensures WithV4(held, old(clients[i]), tx, |tx|)
      ensures clients[i] == old(clients[i]).(hdl := clients[i].hdl)
      ensures forall k :: 0 <= k < clients.Length && k != i ==> clients[k] == old(clients[k])
      ensures OthersUntouched(clients[i].mac, old(claims), claims, old(hw), hw)
    {
      ghost var c := clients[i];
      held := LiveSlots(c, tx);
      for t := 0 to |tx|
        invariant clients[i] == c.(hdl := clients[i].hdl)
        invariant forall k :: 0 <= k < clients.Length && k != i ==> clients[k] == old(clients[k])
        invariant HwSync(claims, hw, nextHdl) && Holds(clients[i], held, claims, hw) && WithV4(held, c, tx, t)
        invariant OthersUntouched(c.mac, old(claims), claims, old(hw), hw)
      {
        WithV4Step(held, c, tx, t);
        if tx[t] == V4 {
          AddRouteV4At(i, t, held);
          held := held + iset{Route4(t)};
        }
      }
    }

    method AddRouteV4At(i: nat, t: nat, ghost held: iset<Slot>)
      requires i < clients.Length && HwSync(claims, hw, nextHdl) && Holds(clients[i], held, claims, hw)
      requires Route4(t) !in held
      modifies this`hw, this`nextHdl, this`claims, clients
      ensures HwSync(claims, hw, nextHdl) && Holds(clients[i], held + iset{Route4(t)}, claims, hw)
      ensures clients[i] == old(clients[i]).(hdl := clients[i].hdl)
      ensures forall k :: 0 <= k < clients.Length && k != i ==> clients[k] == old(clients[k])
      ensures OthersUntouched(clients[i].mac, old(claims), claims, old(hw), hw)
    {
      Install(i, Route4(t), clients[i].v4Addr, HdlAt(clients[i], Header(V4)), held);
    }

    method AddRoutesV6For(i: nat, t: nat, ghost c: Client, ghost held0: iset<Slot>) returns (ghost held: iset<Slot>)
      requires i < clients.Length && HwSync(claims, hw, nextHdl) && Holds(clients[i], held0, claims, hw)
      requires t < |tx| && tx[t] == V6 && WithV6(held0, c, tx, t, c.routeSetV6)
      requires clients[i] == c.(hdl := clients[i].hdl) && c.routeSetV6 <= c.ipv6Set
      modifies this`hw, this`nextHdl, this`claims, clients
      ensures HwSync(claims, hw, nextHdl) && Holds(clients[i], held, claims, hw) && WithV6(held, c, tx, t, c.ipv6Set)
      ensures clients[i] == c.(hdl := clients[i].hdl)
      ensures forall k :: 0 <= k < clients.Length && k != i ==> clients[k] == old(clients[k])
      ensures OthersUntouched(c.mac, old(claims), claims, old(hw), hw)
    {
      held := held0;
      for n := clients[i].routeSetV6 to clients[i].ipv6Set
        invariant clients[i] == c.(hdl := clients[i].hdl)
        invariant forall k :: 0 <= k < clients.Length && k != i ==> clients[k] == old(clients[k])
        invariant HwSync(claims, hw, nextHdl) && Holds(clients[i], held, claims, hw) && WithV6(held, c, tx, t, n)
        invariant OthersUntouched(c.mac, old(claims), claims, old(hw), hw)
      {
        held := AddRoutesV6At(i, t, n, c, held);
      }
    }

    /** The rules for one address: one in the LAN table, and one in the WAN table. */
    method AddRoutesV6At(i: nat, t: nat, n: nat, ghost c: Client, ghost held0: iset<Slot>)
      returns (ghost held: iset<Slot>)
      requires i < clients.Length && HwSync(claims, hw, nextHdl) && Holds(clients[i], held0, claims, hw)
      requires t < |tx| && tx[t] == V6 && c.routeSetV6 <= n < c.ipv6Set && WithV6(held0, c, tx, t, n)
      requires clients[i] == c.(hdl := clients[i].hdl)
      modifies this`hw, this`nextHdl, this`claims, clients
      ensures HwSync(claims, hw, nextHdl) && Holds(clients[i], held, claims, hw) && WithV6(held, c, tx, t, n + 1)
      ensures clients[i] == c.(hdl := clients[i].hdl)
      ensures forall k :: 0 <= k < clients.Length && k != i ==> clients[k] == old(clients[k])
      ensures OthersUntouched(c.mac, old(claims), claims, old(hw), hw)
    {
      WithV6Step(held0, c, tx, t, n);
      Install(i, Route6(t, n), V6At(clients[i], n), 0, held0);
      held := held0 + iset{Route6(t, n)};
      Install(i, Route6Wan(t, n), V6At(clients[i], n), HdlAt(clients[i], Header(V6)), held);
      held := held + iset{Route6Wan(t, n)};
    }

    /** Adds the IPv6 routing rules of the client at `i` for the addresses that have none yet. */
    method AddRoutesV6(i: nat) returns (ghost held: iset<Slot>)
      requires i < clients.Length && HwSync(claims, hw, nextHdl) && Right(clients[i], tx, claims, hw)
      requires clients[i].routeSetV6 <= clients[i].ipv6Set
      modifies this`hw, this`nextHdl, this`claims, clients
      ensures HwSync(claims, hw, nextHdl) && Holds(clients[i], held, claims, hw)
      ensures WithV6(held, old(clients[i]), tx, |tx|, old(clients[i]).routeSetV6)
      ensures clients[i] == old(clients[i]).(hdl := clients[i].hdl)
      ensures forall k :: 0 <= k < clients.Length && k != i ==> clients[k] == old(clients[k])
      ensures OthersUntouched(clients[i].mac, old(claims), claims, old(hw), hw)
    {
      ghost var c := clients[i];
      held := LiveSlots(c, tx);
      for t := 0 to |tx|
        invariant clients[i] == c.(hdl := clients[i].hdl)
        invariant forall k :: 0 <= k < clients.Length && k != i ==> clients[k] == old(clients[k])
        invariant HwSync(claims, hw, nextHdl) && Holds(clients[i], held, claims, hw)
        invariant WithV6(held, c, tx, t, c.routeSetV6)
        invariant OthersUntouched(c.mac, old(claims), claims, old(hw), hw)
      {
        if tx[t] == V6 {
          held := AddRoutesV6For(i, t, c, held);
        }
        WithV6Next(held, c, tx, t);
      }
    }

    // -------------------------------------------------------------- events

    /** handle_eth_client_route_rule: the routing rules for the addresses that have none yet. */
    method HandleEthClientRouteRule(mac: nat, ip: Ip)
      requires Valid()
      modifies this`hw, this`nextHdl, this`claims, clients
      ensures Valid()
      ensures BroughtUpToDate(old(clients[..num]), clients[..num], mac, ip, hasTx)
      ensures hasTx ==> ServedAll(hw, clients[..num], tx, mac, ip)
    {
      if !hasTx {
        return;
      }
      var index := GetEthClientIndex(mac);
      if index == -1 {
        return;
      }
      ghost var s0 := clients[..num];
      RouteClient(index, ip);
      OnlyOneRouted(s0, clients[..num], index, tx, claims, hw, nextHdl, ip);
    }

    method RouteClient(i: nat, ip: Ip)
      requires Valid() && i < num
      modifies this`hw, this`nextHdl, this`claims, clients
      ensures Valid() && DistinctMacs(old(clients[..num]))
      ensures clients[..num] == old(clients[..num])[i := Routed(old(clients[i]), ip).(hdl := clients[i].hdl)]
    {
      ghost var s0, claims0, hw0 := clients[..num], claims, hw;
      assert Right(clients[..num][i], tx, claims, hw);
      if (ip == V4 && !clients[i].routeSetV4 && clients[i].ipv4Set)
         || (ip == V6 && clients[i].routeSetV6 < clients[i].ipv6Set) {
        AddRoutes(i, ip);
      }
      OneChanged(s0, clients[..num], i, tx, claims0, claims, hw0, hw);
    }

    method AddRoutes(i: nat, ip: Ip)
      requires i < clients.Length && HwSync(claims, hw, nextHdl)
      requires Right(clients[i], tx, claims, hw) && Sane(clients[i])
      requires FlagsFit(clients[i], tx)
      requires ip == V4 ==> !clients[i].routeSetV4 && clients[i].ipv4Set
      modifies this`hw, this`nextHdl, this`claims, clients
      ensures HwSync(claims, hw, nextHdl) && Right(clients[i], tx, claims, hw)
      ensures Sane(clients[i]) && FlagsFit(clients[i], tx)
      ensures clients[i] == Routed(old(clients[i]), ip).(hdl := clients[i].hdl)
      ensures forall k :: 0 <= k < clients.Length && k != i ==> clients[k] == old(clients[k])
      ensures OthersUntouched(clients[i].mac, old(claims), claims, old(hw), hw)
    {
      if ip == V4 {
        ghost var held := AddRoutesV4(i);
        ghost var c1 := clients[i];
        clients[i] := clients[i].(routeSetV4 := true);
        HeldIsLive(c1, clients[i], held, tx, claims, hw);
      } else {
        ghost var held := AddRoutesV6(i);
        ghost var c1 := clients[i];
        clients[i] := clients[i].(routeSetV6 := clients[i].ipv6Set);
        HeldIsLive(c1, clients[i], held, tx, claims, hw);
      }
    }

    /** handle_eth_client_ipaddr for IPv4: a new address replaces the old one and its rules. */
    method HandleEthClientIpv4(mac: nat, addr: nat) returns (ok: bool)
      requires Valid()
      modifies this`hw, this`claims, clients
      ensures Valid()
      ensures ok <==>
        && addr != 0
        && exists k :: 0 <= k < num && old(clients[k]).mac == mac
                       && (!old(clients[k]).ipv4Set || addr != old(clients[k]).v4Addr)
      ensures forall k :: 0 <= k < num ==>
        clients[k] == if ok && clients[k].mac == mac then WithIpv4(old(clients[k]), addr) else old(clients[k])
      ensures ok ==> Unrouted(hw, mac, V4) && forall k :: 0 <= k < num && clients[k].mac == mac ==>
        clients[k].ipv4Set && clients[k].v4Addr == addr
    {
      var index := GetEthClientIndex(mac);
      if index == -1 {
        OnlyThere(clients[..num], mac);
        return false;
      }
      if addr == 0 || (clients[index].ipv4Set && addr == clients[index].v4Addr) {
        return false;
      }
      ghost var s0, claims0, hw0 := clients[..num], claims, hw;
      assert Right(clients[..num][index], tx, claims, hw);
      SetIpv4(index, addr);
      OneChanged(s0, clients[..num], index, tx, claims0, claims, hw0, hw);
      return true;
    }

    method SetIpv4(i: nat, addr: nat)
      requires i < clients.Length && HwSync(claims, hw, nextHdl)
      requires Right(clients[i], tx, claims, hw) && Sane(clients[i])
      modifies this`hw, this`claims, clients
      ensures HwSync(claims, hw, nextHdl) && Right(clients[i], tx, claims, hw)
      ensures clients[i] == WithIpv4(old(clients[i]), addr) && Unrouted(hw, clients[i].mac, V4)
      ensures forall k :: 0 <= k < clients.Length && k != i ==> clients[k] == old(clients[k])
      ensures OthersUntouched(clients[i].mac, old(claims), claims, old(hw), hw)
    {
      if !clients[i].ipv4Set {
        ghost var c := clients[i];
        clients[i] := clients[i].(v4Addr := addr, ipv4Set := true);
        NewV4Right(c, clients[i], tx, claims, hw);
      } else {
        DeleteEthRtRules(i, V4);
        ghost var c := clients[i];
        clients[i] := clients[i].(routeSetV4 := false);
        clients[i] := clients[i].(v4Addr := addr);
        NewV4Right(c, clients[i], tx, claims, hw);
      }
      NoneIsUnrouted(clients[i], tx, claims, hw, nextHdl, V4);
    }

    /** handle_eth_client_ipaddr for IPv6: a new address is added to the list, if there is room.
        Whether the address has the right prefix is a parameter. */
    method HandleEthClientIpv6(mac: nat, addr: nat, prefixFits: bool) returns (ok: bool)
      requires Valid()
      modifies clients
      ensures Valid()
      ensures ok <==>
        && addr != 0 && prefixFits
        && exists k :: 0 <= k < num && old(clients[k]).mac == mac && WantsV6(old(clients[k]), addr)
      ensures forall k :: 0 <= k < num ==>
        clients[k] == if ok && clients[k].mac == mac then WithIpv6(old(clients[k]), addr) else old(clients[k])
      ensures ok ==> forall k :: 0 <= k < num && clients[k].mac == mac ==>
        Addresses(clients[k]) == Addresses(old(clients[k])) + [addr] && |Addresses(clients[k])| <= IPV6_NUM_ADDR
    {
      var index := GetEthClientIndex(mac);
      if index == -1 {
        OnlyThere(clients[..num], mac);
        return false;
      }
      OnlyAt(clients[..num], index);
      if addr == 0 || !prefixFits || clients[index].ipv6Set >= IPV6_NUM_ADDR {
        return false;
      }
      var seen := HasIpv6(index, addr);
      if seen {
        return false;
      }
      assert WantsV6(clients[index], addr);
      AppendIpv6(index, addr);
      return true;
    }

    method AppendIpv6(i: nat, addr: nat)
      requires Valid() && i < num && WantsV6(clients[i], addr)
      modifies clients
      ensures Valid() && clients[..] == old(clients[..])[i := WithIpv6(old(clients[i]), addr)]
      ensures Addresses(clients[i]) == Addresses(old(clients[i])) + [addr] && |Addresses(clients[i])| <= IPV6_NUM_ADDR
    {
      AddressesGrow(clients[i], addr);
      ghost var s0 := clients[..num];
      assert Right(clients[..num][i], tx, claims, hw);
      NewV6Right(clients[i], WithIpv6(clients[i], addr), addr, tx, claims, hw);
      AddIpv6(i, addr);
      OneChanged(s0, clients[..num], i, tx, claims, claims, hw, hw);
    }

    method HasIpv6(i: nat, addr: nat) returns (seen: bool)
      requires i < clients.Length
      ensures seen <==> exists n :: 0 <= n < clients[i].ipv6Set && V6At(clients[i], n) == addr
    {
      for n := 0 to clients[i].ipv6Set
        invariant forall m :: 0 <= m < n ==> V6At(clients[i], m) != addr
      {
        if V6At(clients[i], n) == addr {
          return true;
        }
      }
      return false;
    }

    method AddIpv6(i: nat, addr: nat)
      requires i < clients.Length
      modifies clients
      ensures clients[..] == old(clients[..])[i := WithIpv6(old(clients[i]), addr)]
    {
      clients[i] := clients[i].(v6Addr := clients[i].v6Addr[clients[i].ipv6Set := addr]);
      clients[i] := clients[i].(ipv6Set := clients[i].ipv6Set + 1);
    }

    /** handle_eth_hdr_init: a new client gets its headers and a place at the end of the table. */
    method HandleEthHdrInit(mac: nat) returns (ok: bool)
      requires Valid()
      modifies this, clients
      ensures Valid()
      ensures ok <==> !HasMac(old(clients[..num]), mac) && old(num) < IPA_MAX_NUM_ETH_CLIENTS
      ensures num == old(num) + if ok && hasTx then 1 else 0
      ensures forall k :: 0 <= k < old(num) ==> clients[k] == old(clients[k])
      ensures ok && hasTx ==> clients[old(num)] == NewClient(mac, tx, old(clients[num])).(hdl := clients[old(num)].hdl)
      ensures ok && hasTx ==> Appeared(hw, clients[old(num)], mac, tx)
    {
      var index := GetEthClientIndex(mac);
      if index != -1 {
        return false;
      }
      if num >= IPA_MAX_NUM_ETH_CLIENTS {
        return false;
      }
      ghost var s0 := clients[..num];
      clients[num] := clients[num].(mac := mac);
      assert clients[..num] == s0;
      if hasTx {
        AddClient();
      }
      return true;
    }

    /** Takes the record after the last one, which has its MAC address already, into use. */
    method AddClient()
      requires Valid() && num < IPA_MAX_NUM_ETH_CLIENTS && !HasMac(clients[..num], clients[num].mac)
      modifies this, clients
      ensures Valid() && num == old(num) + 1
      ensures forall k :: 0 <= k < old(num) ==> clients[k] == old(clients[k])
      ensures clients[old(num)] ==
        NewClient(old(clients[num]).mac, tx, old(clients[num])).(hdl := clients[old(num)].hdl)
      ensures Appeared(hw, clients[old(num)], old(clients[num]).mac, tx)
    {
      ghost var s0, claims0, hw0 := clients[..num], claims, hw;
      NewHoldsNothing(s0, clients[num], claims, hw);
      AddHeaders(num);
      assert clients[..num] == s0;
      NewClientRight(s0, clients[num], tx, claims0, claims, hw0, hw);
      num := num + 1;
      assert clients[..num] == s0 + [clients[num - 1]];
    }

    /** Adds the IPv4 header and the IPv6 header, if there are such transmit properties, and
        initializes the record. */
    method AddHeaders(i: nat)
      requires i < clients.Length && HwSync(claims, hw, nextHdl)
      requires Holds(clients[i], iset{}, claims, hw) && FlagsFit(clients[i], tx)
      modifies this`hw, this`nextHdl, this`claims, clients
      ensures HwSync(claims, hw, nextHdl) && Right(clients[i], tx, claims, hw)
      ensures clients[i] == NewClient(old(clients[i]).mac, tx, old(clients[i])).(hdl := clients[i].hdl)
      ensures Appeared(hw, clients[i], clients[i].mac, tx)
      ensures forall k :: 0 <= k < clients.Length && k != i ==> clients[k] == old(clients[k])
      ensures OthersUntouched(clients[i].mac, old(claims), claims, old(hw), hw)
    {
      ghost var held := AddHeader(i, V4, iset{});
      held := AddHeader(i, V6, held);
      ghost var c1 := clients[i];
      clients[i] := clients[i].(routeSetV4 := false, routeSetV6 := 0, ipv4Set := false, ipv6Set := 0);
      OnlyHeadersLive(clients[i], tx, held);
      HeldIsLive(c1, clients[i], held, tx, claims, hw);
      JustHeaders(clients[i], tx, claims, hw, nextHdl);
    }

    /** Adds the header for the first transmit property for `ip`, if there is one. */
    method AddHeader(i: nat, ip: Ip, ghost held0: iset<Slot>) returns (ghost held: iset<Slot>)
      requires i < clients.Length && HwSync(claims, hw, nextHdl)
      requires Holds(clients[i], held0, claims, hw) && Header(ip) !in held0 && forall x :: x in held0 ==> x.Header?
      modifies this`hw, this`nextHdl, this`claims, clients
      ensures HwSync(claims, hw, nextHdl) && Holds(clients[i], held, claims, hw)
      ensures held == if ip in tx then held0 + iset{Header(ip)} else held0
      ensures clients[i] ==
        if ip in tx then WithHeader(old(clients[i]), ip).(hdl := clients[i].hdl) else old(clients[i])
      ensures forall k :: 0 <= k < clients.Length && k != i ==> clients[k] == old(clients[k])
      ensures OthersUntouched(clients[i].mac, old(claims), claims, old(hw), hw)
    {
      held := held0;
      var cnt := 0;
      while cnt < |tx| && tx[cnt] != ip
        invariant 0 <= cnt <= |tx| && forall m :: 0 <= m < cnt ==> tx[m] != ip
        decreases |tx| - cnt
      {
        cnt := cnt + 1;
      }
      if cnt < |tx| {
        Install(i, Header(ip), 0, 0, held);
        held := held + iset{Header(ip)};
        ghost var c := clients[i];
        clients[i] := if ip == V4 then clients[i].(headerSetV4 := true) else clients[i].(headerSetV6 := true);
        HoldsSame(c, clients[i], held, claims, hw);
      }
    }

    /** handle_eth_client_down_evt: deletes everything of the client and closes the gap. */
    method HandleEthClientDown(mac: nat)
      requires Valid()
      modifies this, clients
      ensures Valid() && forall h :: h in hw ==> hw[h].mac != mac
      ensures !HasMac(old(clients[..num]), mac) ==> clients[..num] == old(clients[..num])
      ensures HasMac(old(clients[..num]), mac) ==>
        exists i: nat :: ClosedUp(old(clients[..num]), clients[..num], i, tx) && old(clients[..num])[i].mac == mac
    {
      var index := GetEthClientIndex(mac);
      if index == -1 {
        NothingOf(clients[..num], claims, hw, nextHdl, mac);
        return;
      }
      ghost var s0, claims0, hw0 := clients[..num], claims, hw;
      assert Right(clients[..num][index], tx, claims, hw);
      ClearClient(index);
      Shift(index, s0);
      num := num - 1;
      ClosedUpInOrder(s0, clients[..num], index, tx, claims0, claims, hw0, hw);
      NothingOf(clients[..num], claims, hw, nextHdl, mac);
    }

    /** Deletes the routing rules and the headers of the client at `i`. */
    method ClearClient(i: nat)
      requires i < clients.Length && HwSync(claims, hw, nextHdl) && Right(clients[i], tx, claims, hw)
      modifies this`hw, this`claims, clients
      ensures HwSync(claims, hw, nextHdl) && Holds(clients[i], iset{}, claims, hw)
      ensures clients[i] == Cleared(old(clients[i]))
      ensures forall k :: 0 <= k < clients.Length && k != i ==> clients[k] == old(clients[k])
      ensures OthersUntouched(clients[i].mac, old(claims), claims, old(hw), hw)
    {
      ClearRoutes(i);
      ClearHeaders(i);
      clients[i] := clients[i].(ipv4Set := false, ipv6Set := 0, headerSetV4 := false, headerSetV6 := false,
                                routeSetV4 := false, routeSetV6 := 0);
    }

    method ClearRoutes(i: nat)
      requires i < clients.Length && HwSync(claims, hw, nextHdl) && Right(clients[i], tx, claims, hw)
      modifies this`hw, this`claims, clients
      ensures HwSync(claims, hw, nextHdl) && Right(clients[i], tx, claims, hw)
      ensures clients[i] == NoRoutes(NoRoutes(old(clients[i]), V4), V6)
      ensures forall k :: 0 <= k < clients.Length && k != i ==> clients[k] == old(clients[k])
      ensures OthersUntouched(clients[i].mac, old(claims), claims, old(hw), hw)
    {
      DeleteEthRtRules(i, V4);
      DeleteEthRtRules(i, V6);
    }

    method ClearHeaders(i: nat)
      requires i < clients.Length && HwSync(claims, hw, nextHdl) && Right(clients[i], tx, claims, hw)
      requires !clients[i].routeSetV4 && clients[i].routeSetV6 == 0
      modifies this`hw, this`claims, clients
      ensures HwSync(claims, hw, nextHdl) && Holds(clients[i], iset{}, claims, hw)
      ensures clients[i] == WithoutHeader(WithoutHeader(old(clients[i]), V4), V6)
      ensures forall k :: 0 <= k < clients.Length && k != i ==> clients[k] == old(clients[k])
      ensures OthersUntouched(clients[i].mac, old(claims), claims, old(hw), hw)
    {
      ghost var c := clients[i];
      ghost var held := LiveSlots(clients[i], tx);
      held := DeleteHeader(i, V4, held);
      held := DeleteHeader(i, V6, held);
      NothingHeld(c, held, tx);
    }

    method DeleteHeader(i: nat, ip: Ip, ghost held0: iset<Slot>) returns (ghost held: iset<Slot>)
      requires i < clients.Length && HwSync(claims, hw, nextHdl) && Holds(clients[i], held0, claims, hw)
      requires Header(ip) in held0 <==> HeaderSet(clients[i], ip)
      modifies this`hw, this`claims, clients
      ensures HwSync(claims, hw, nextHdl) && Holds(clients[i], held, claims, hw) && held == held0 - iset{Header(ip)}
      ensures clients[i] == WithoutHeader(old(clients[i]), ip)
      ensures forall k :: 0 <= k < clients.Length && k != i ==> clients[k] == old(clients[k])
      ensures OthersUntouched(clients[i].mac, old(claims), claims, old(hw), hw)
    {
      held := held0;
      if HeaderSet(clients[i], ip) {
        Delete(i, Header(ip), held);
        held := held - iset{Header(ip)};
        ghost var c := clients[i];
        clients[i] := WithoutHeader(clients[i], ip);
        HoldsSame(c, clients[i], held, claims, hw);
      }
    }

    /** Closes the gap at `i`: every later record moves one place forward. */
    method Shift(i: nat, ghost s0: seq<Client>)
      requires i < num == |s0| && clients.Length == IPA_MAX_NUM_ETH_CLIENTS && num <= IPA_MAX_NUM_ETH_CLIENTS
      requires forall k :: 0 <= k < clients.Length ==> FlagsFit(clients[k], tx)
      requires forall k :: 0 <= k < num ==> (k != i ==> clients[k] == s0[k]) && Sane(s0[k]) && FlagsFit(s0[k], tx)
      requires forall k :: 0 <= k < num ==> HeadersSet(s0[k], tx)
      modifies clients
      ensures ClosedUp(s0, clients[..num - 1], i, tx)
      ensures forall k :: 0 <= k < num - 1 ==> Sane(clients[k]) && HeadersSet(clients[k], tx)
      ensures forall k :: 0 <= k < clients.Length ==> FlagsFit(clients[k], tx)
    {
      for k := i to num - 1
        invariant forall j :: 0 <= j < i || k <= j < clients.Length ==> clients[j] == old(clients[j])
        invariant forall j :: i <= j < k ==> SameClient(s0[j + 1], clients[j], tx)
      {
        CopyClient(k);
      }
      forall k | i <= k < num - 1 ensures Sane(clients[k]) && FlagsFit(clients[k], tx) && HeadersSet(clients[k], tx) {
        SameClientSane(s0[k + 1], clients[k], tx);
      }
    }

    /** Copies the record at `k + 1` to `k`: of the addresses and the handles only those that are
        in use. */
    method CopyClient(k: nat)
      requires k + 1 < clients.Length
      modifies clients
      ensures SameClient(old(clients[k + 1]), clients[k], tx)
      ensures forall j :: 0 <= j < clients.Length && j != k ==> clients[j] == old(clients[j])
    {
      var from := clients[k + 1];
      var v6Addr := CopyAddresses(clients[k].v6Addr, from);
      var hdl := CopyHandles(clients[k].hdl, from);
      clients[k] := from.(v6Addr := v6Addr, hdl := hdl);
    }

    method CopyAddresses(to: map<nat, nat>, from: Client) returns (v6Addr: map<nat, nat>)
      ensures forall n :: 0 <= n < from.ipv6Set ==> n in v6Addr && v6Addr[n] == V6At(from, n)
    {
      v6Addr := to;
      for n := 0 to from.ipv6Set
        invariant forall m :: 0 <= m < n ==> m in v6Addr && v6Addr[m] == V6At(from, m)
      {
        v6Addr := v6Addr[n := V6At(from, n)];
      }
    }

    method CopyHandles(to: map<Slot, nat>, from: Client) returns (hdl: map<Slot, nat>)
      ensures forall s :: Live(from, s, tx) || s.Header? ==> CopiedSlot(hdl, from, s)
    {
      CopySlotKeeps(to, from, Header(V4));
      hdl := CopySlot(to, from.hdl, Header(V4));
      CopySlotKeeps(hdl, from, Header(V6));
      hdl := CopySlot(hdl, from.hdl, Header(V6));
      HeadersCopied(hdl, from);
      for t := 0 to |tx|
        invariant Copied(hdl, from, t, 0)
      {
        CopySlotKeeps(hdl, from, Route4(t));
        hdl := CopySlot(hdl, from.hdl, Route4(t));
        for n := 0 to from.routeSetV6
          invariant Copied(hdl, from, t, n) && CopiedSlot(hdl, from, Route4(t))
        {
          CopySlotKeeps(hdl, from, Route6(t, n));
          hdl := CopySlot(hdl, from.hdl, Route6(t, n));
          CopySlotKeeps(hdl, from, Route6Wan(t, n));
          hdl := CopySlot(hdl, from.hdl, Route6Wan(t, n));
        }
      }
      forall s | Live(from, s, tx) || s.Header? ensures CopiedSlot(hdl, from, s) {
        assert Moved(from, s, |tx|, 0);
      }
    }

    /** handle_lan_client_reset_rt: all clients lose their rules and addresses for `ip`. */
    method HandleLanClientResetRt(ip: Ip)
      requires Valid()
      modifies this`hw, this`claims, clients
      ensures Valid()
      ensures forall k :: 0 <= k < num ==> clients[k] == NoAddresses(NoRoutes(old(clients[k]), ip), ip)
      ensures forall h :: h in hw ==> !IsRoute(hw[h].slot, ip)
      ensures forall k :: 0 <= k < num ==> if ip == V4 then !clients[k].ipv4Set else Addresses(clients[k]) == []
    {
      DeleteAllRoutes(ip);
      NoRouteLeft(clients[..num], tx, claims, hw, nextHdl, ip);
      ResetAddresses(ip);
    }

    method DeleteAllRoutes(ip: Ip)
      requires Valid()
      modifies this`hw, this`claims, clients
      ensures Valid()
      ensures forall k :: 0 <= k < num ==> clients[k] == NoRoutes(old(clients[k]), ip)
    {
      for i := 0 to num
        invariant Valid()
        invariant forall k :: 0 <= k < i ==> clients[k] == NoRoutes(old(clients[k]), ip)
        invariant forall k :: i <= k < num ==> clients[k] == old(clients[k])
      {
        DeleteRoutesOf(i, ip);
      }
    }

    method DeleteRoutesOf(i: nat, ip: Ip)
      requires Valid() && i < num
      modifies this`hw, this`claims, clients
      ensures Valid() && clients[i] == NoRoutes(old(clients[i]), ip)
      ensures forall k :: 0 <= k < clients.Length && k != i ==> clients[k] == old(clients[k])
    {
      ghost var s0, claims0, hw0 := clients[..num], claims, hw;
      assert Right(clients[..num][i], tx, claims, hw);
      DeleteEthRtRules(i, ip);
      OneChanged(s0, clients[..num], i, tx, claims0, claims, hw0, hw);
    }

    method ResetAddresses(ip: Ip)
      requires Valid() && forall k :: 0 <= k < num ==> clients[k] == NoRoutes(clients[k], ip)
      modifies clients
      ensures Valid()
      ensures forall k :: 0 <= k < num ==> clients[k] == NoAddresses(old(clients[k]), ip)
    {
      for i := 0 to num
        invariant Valid()
        invariant forall k :: 0 <= k < i ==> clients[k] == NoAddresses(old(clients[k]), ip)
        invariant forall k :: i <= k < num ==> clients[k] == old(clients[k])
      {
        ghost var s0, c := clients[..num], clients[i];
        assert Right(clients[..num][i], tx, claims, hw) && c == NoRoutes(c, ip);
        if ip == V4 {
          clients[i] := clients[i].(ipv4Set := false);
        } else {
          clients[i] := clients[i].(ipv6Set := 0);
        }
        NoAddressesRight(c, ip, tx, claims, hw);
        OneChanged(s0, clients[..num], i, tx, claims, claims, hw, hw);
      }
    }
  }

  // ---------------------------------------------------------------- a client comes and goes

  function NoAddresses(c: Client, ip: Ip): Client {
    if ip == V4 then c.(ipv4Set := false) else c.(ipv6Set := 0)
  }

  lemma NoAddressesRight(c: Client, ip: Ip, tx: seq<Ip>, claims: map<Owner, nat>, hw: map<nat, HwObject>)
    requires Right(c, tx, claims, hw)
    ensures Right(NoAddresses(c, ip), tx, claims, hw)
  {
    var held := LiveSlots(c, tx);
    forall s ensures s in held <==> Live(NoAddresses(c, ip), s, tx) {}
    HeldIsLive(c, NoAddresses(c, ip), held, tx, claims, hw);
  }

  predicate HeaderSet(c: Client, ip: Ip) {
    if ip == V4 then c.headerSetV4 else c.headerSetV6
  }

  function WithHeader(c: Client, ip: Ip): Client {
    if ip == V4 then c.(headerSetV4 := true) else c.(headerSetV6 := true)
  }

  function WithoutHeader(c: Client, ip: Ip): Client {
    if ip == V4 then c.(headerSetV4 := false) else c.(headerSetV6 := false)
  }

  function NewClient(mac: nat, tx: seq<Ip>, stale: Client): Client {
    stale.(mac := mac, headerSetV4 := V4 in tx, headerSetV6 := V6 in tx,
           routeSetV4 := false, routeSetV6 := 0, ipv4Set := false, ipv6Set := 0)
  }

  function Cleared(c: Client): Client {
    c.(ipv4Set := false, ipv6Set := 0, headerSetV4 := false, headerSetV6 := false, routeSetV4 := false, routeSetV6 := 0)
  }

  lemma OnlyHeadersLive(c: Client, tx: seq<Ip>, held: iset<Slot>)
    requires !c.routeSetV4 && c.routeSetV6 == 0
    requires held == (if c.headerSetV4 then iset{Header(V4)} else iset{})
                     + (if c.headerSetV6 then iset{Header(V6)} else iset{})
    ensures forall s :: s in held <==> Live(c, s, tx)
  {
    forall s ensures s in held <==> Live(c, s, tx) {
      if s.Header? { assert s.ip == V4 || s.ip == V6; }
    }
  }

  lemma NewHoldsNothing(s: seq<Client>, c: Client, claims: map<Owner, nat>, hw: map<nat, HwObject>)
    requires AllKnown(s, claims) && !HasMac(s, c.mac)
    ensures Holds(c, iset{}, claims, hw)
  {
    forall o: Owner | o.mac == c.mac ensures o !in claims {}
  }

  lemma NewClientRight(s: seq<Client>, c: Client, tx: seq<Ip>, claims: map<Owner, nat>, claims': map<Owner, nat>,
                       hw: map<nat, HwObject>, hw': map<nat, HwObject>)
    requires InOrder(s, tx, claims, hw) && !HasMac(s, c.mac)
    requires OthersUntouched(c.mac, claims, claims', hw, hw') && Right(c, tx, claims', hw')
    ensures InOrder(s + [c], tx, claims', hw')
  {
    var s' := s + [c];
    OnlyThere(s, c.mac);
    forall k | 0 <= k < |s'| ensures Right(s'[k], tx, claims', hw') {
      if k < |s| { RightStays(s[k], c.mac, tx, claims, claims', hw, hw'); }
    }
    forall o | o in claims' ensures HasMac(s', o.mac) {
      if o.mac == c.mac {
        assert s'[|s|].mac == o.mac;
      } else {
        assert HasMac(s, o.mac);
        var k :| 0 <= k < |s| && s[k].mac == o.mac;
        assert s'[k].mac == o.mac;
      }
    }
  }

  /** When all headers and rules have been deleted, nothing is held. */
  lemma NothingHeld(c: Client, held: iset<Slot>, tx: seq<Ip>)
    requires held == LiveSlots(c, tx) - iset{Header(V4)} - iset{Header(V6)} && !c.routeSetV4 && c.routeSetV6 == 0
    ensures held == iset{}
  {
    forall s ensures s !in held {
      if s.Header? { assert s.ip == V4 || s.ip == V6; }
    }
  }

  function CopySlot(to: map<Slot, nat>, from: map<Slot, nat>, s: Slot): map<Slot, nat> {
    if s in from then to[s := from[s]] else to - {s}
  }

  ghost predicate CopiedSlot(hdl: map<Slot, nat>, from: Client, s: Slot) {
    (s in hdl <==> s in from.hdl) && (s in from.hdl ==> hdl[s] == from.hdl[s])
  }

  /** Has the slot been dealt with: a header, a rule of the first `t` transmit properties, or an
      IPv6 rule of property `t` for one of the first `n` addresses in use? */
  predicate Moved(from: Client, s: Slot, t: nat, n: nat) {
    match s
    case Header(_) => true
    case Route4(u) => u < t
    case Route6(u, m) => m < from.routeSetV6 && (u < t || (u == t && m < n))
    case Route6Wan(u, m) => m < from.routeSetV6 && (u < t || (u == t && m < n))
  }

  ghost predicate Copied(hdl: map<Slot, nat>, from: Client, t: nat, n: nat) {
    forall s: Slot :: Moved(from, s, t, n) ==> CopiedSlot(hdl, from, s)
  }

  lemma CopySlotKeeps(hdl: map<Slot, nat>, from: Client, x: Slot)
    ensures CopiedSlot(CopySlot(hdl, from.hdl, x), from, x)
    ensures forall s :: CopiedSlot(hdl, from, s) ==> CopiedSlot(CopySlot(hdl, from.hdl, x), from, s)
  {}

  lemma HeadersCopied(hdl: map<Slot, nat>, from: Client)
    requires CopiedSlot(hdl, from, Header(V4)) && CopiedSlot(hdl, from, Header(V6))
    ensures Copied(hdl, from, 0, 0)
  {
    forall s: Slot | Moved(from, s, 0, 0) ensures CopiedSlot(hdl, from, s) {
      assert s.ip == V4 || s.ip == V6;
    }
  }

  /** The same client with the same things in use. */
  ghost predicate SameClient(c: Client, c': Client, tx: seq<Ip>) {
    && c' == c.(v6Addr := c'.v6Addr, hdl := c'.hdl)
    && (forall n :: 0 <= n < c.ipv6Set ==> n in c'.v6Addr && V6At(c', n) == V6At(c, n))
    && (forall s :: Live(c, s, tx) || s.Header? ==> CopiedSlot(c'.hdl, c, s))
  }

  lemma SameClientSane(c: Client, c': Client, tx: seq<Ip>)
    requires SameClient(c, c', tx) && Sane(c) && FlagsFit(c, tx) && HeadersSet(c, tx)
    ensures Sane(c') && FlagsFit(c', tx) && HeadersSet(c', tx)
  {
    forall n | 0 <= n < c.ipv6Set ensures n in c'.v6Addr && n in c.v6Addr && c'.v6Addr[n] == c.v6Addr[n] {
      assert V6At(c', n) == V6At(c, n);
    }
  }

  /** `s'` is `s` without the client at `i`; all others are the same, in the same order. */
  ghost predicate ClosedUp(s: seq<Client>, s': seq<Client>, i: nat, tx: seq<Ip>) {
    && i < |s| && |s'| == |s| - 1
    && (forall k :: 0 <= k < i ==> s'[k] == s[k])
    && (forall k :: i <= k < |s'| ==> SameClient(s[k + 1], s'[k], tx))
  }

  lemma SameObject(c: Client, c': Client, tx: seq<Ip>, s: Slot)
    requires SameClient(c, c', tx) && c.routeSetV6 <= c.ipv6Set && Live(c, s, tx)
    ensures ObjectFor(c', s) == ObjectFor(c, s)
  {
    assert CopiedSlot(c'.hdl, c, Header(V4)) && CopiedSlot(c'.hdl, c, Header(V6));
    assert HdlAt(c', Header(V4)) == HdlAt(c, Header(V4)) && HdlAt(c', Header(V6)) == HdlAt(c, Header(V6));
  }

  lemma SameClientRight(c: Client, c': Client, tx: seq<Ip>, claims: map<Owner, nat>, hw: map<nat, HwObject>)
    requires Right(c, tx, claims, hw) && SameClient(c, c', tx) && c.routeSetV6 <= c.ipv6Set
    ensures Right(c', tx, claims, hw)
  {
    forall s ensures if Live(c', s, tx) then Has(c', s, claims, hw) else Owner(c'.mac, s) !in claims {
      assert Live(c', s, tx) <==> Live(c, s, tx);
      if Live(c, s, tx) {
        assert s in LiveSlots(c, tx) && Has(c, s, claims, hw);
        SameObject(c, c', tx, s);
      }
    }
  }

  /** The record at place `k` after closing up was at place `k` or `k + 1`. */
  function Before(k: nat, i: nat): nat {
    if k < i then k else k + 1
  }

  lemma ClosedUpMacs(s: seq<Client>, s': seq<Client>, i: nat, tx: seq<Ip>)
    requires DistinctMacs(s) && ClosedUp(s, s', i, tx)
    ensures forall k :: 0 <= k < |s'| ==> s'[k].mac == s[Before(k, i)].mac
    ensures DistinctMacs(s') && !HasMac(s', s[i].mac)
    ensures forall mac :: HasMac(s, mac) && mac != s[i].mac ==> HasMac(s', mac)
  {
    forall a, b | 0 <= a < b < |s'| ensures s'[a].mac != s'[b].mac {
      assert s[Before(a, i)].mac != s[Before(b, i)].mac;
    }
    forall k | 0 <= k < |s'| ensures s'[k].mac != s[i].mac {
      assert s'[k].mac == s[Before(k, i)].mac;
    }
    forall mac | HasMac(s, mac) && mac != s[i].mac ensures HasMac(s', mac) {
      var k :| 0 <= k < |s| && s[k].mac == mac;
      var k' := if k < i then k else k - 1;
      assert s'[k'].mac == s[Before(k', i)].mac;
    }
  }

  lemma ClosedUpInOrder(s: seq<Client>, s': seq<Client>, i: nat, tx: seq<Ip>, claims: map<Owner, nat>,
                        claims': map<Owner, nat>, hw: map<nat, HwObject>, hw': map<nat, HwObject>)
    requires InOrder(s, tx, claims, hw) && ClosedUp(s, s', i, tx) && OthersUntouched(s[i].mac, claims, claims', hw, hw')
    requires forall x :: Owner(s[i].mac, x) !in claims'
    requires forall k :: 0 <= k < |s| ==> s[k].routeSetV6 <= s[k].ipv6Set
    ensures InOrder(s', tx, claims', hw') && !HasMac(s', s[i].mac)
  {
    ClosedUpMacs(s, s', i, tx);
    forall k | 0 <= k < |s'| ensures Right(s'[k], tx, claims', hw') {
      var c := s[Before(k, i)];
      assert c.mac != s[i].mac;
      RightStays(c, s[i].mac, tx, claims, claims', hw, hw');
      if k >= i { SameClientRight(c, s'[k], tx, claims', hw'); }
    }
    forall o | o in claims' ensures HasMac(s', o.mac) {
      assert o == Owner(o.mac, o.slot) && o.mac != s[i].mac;
      assert HasMac(s, o.mac);
    }
  }

  /** The hardware has nothing of a client that is not in the table. */
  lemma NothingOf(s: seq<Client>, claims: map<Owner, nat>, hw: map<nat, HwObject>, nextHdl: nat, mac: nat)
    requires HwSync(claims, hw, nextHdl) && AllKnown(s, claims) && !HasMac(s, mac)
    ensures forall h :: h in hw ==> hw[h].mac != mac
  {
    forall h | h in hw ensures hw[h].mac != mac {
      assert HasMac(s, Owner(hw[h].mac, hw[h].slot).mac);
    }
  }

  /** The record after its routing rules for `ip` have been brought up to date. */
  function Routed(c: Client, ip: Ip): Client {
    if ip == V4 then (if c.ipv4Set then c.(routeSetV4 := true) else c)
    else if c.routeSetV6 < c.ipv6Set then c.(routeSetV6 := c.ipv6Set) else c
  }

  /** The records of the client `mac` have their rules up to date; the others are the same. */
  ghost predicate BroughtUpToDate(s: seq<Client>, s': seq<Client>, mac: nat, ip: Ip, hasTx: bool) {
    |s'| == |s| && forall k :: 0 <= k < |s| ==>
      s'[k] == if s[k].mac == mac && hasTx then Routed(s[k], ip).(hdl := s'[k].hdl) else s[k]
  }

  ghost predicate ServedAll(hw: map<nat, HwObject>, s: seq<Client>, tx: seq<Ip>, mac: nat, ip: Ip) {
    forall k :: 0 <= k < |s| && s[k].mac == mac ==> Served(hw, s[k], tx, ip)
  }

  lemma OnlyOneRouted(s: seq<Client>, s': seq<Client>, i: nat, tx: seq<Ip>, claims: map<Owner, nat>,
                      hw: map<nat, HwObject>, nextHdl: nat, ip: Ip)
    requires DistinctMacs(s) && i < |s| == |s'| && s' == s[i := Routed(s[i], ip).(hdl := s'[i].hdl)]
    requires HwSync(claims, hw, nextHdl) && InOrder(s', tx, claims, hw)
    ensures BroughtUpToDate(s, s', s[i].mac, ip, true) && ServedAll(hw, s', tx, s[i].mac, ip)
  {
    OnlyAt(s, i);
    RoutedIsServed(s'[i], tx, claims, hw, nextHdl, ip);
    forall k | 0 <= k < |s'| && s'[k].mac == s[i].mac ensures Served(hw, s'[k], tx, ip) {
      assert s[k].mac == s[i].mac;
    }
  }

  function WithIpv4(c: Client, addr: nat): Client {
    c.(ipv4Set := true, v4Addr := addr, routeSetV4 := false)
  }

  function WithIpv6(c: Client, addr: nat): Client {
    c.(ipv6Set := c.ipv6Set + 1, v6Addr := c.v6Addr[c.ipv6Set := addr])
  }

  /** The IPv6 addresses recorded for the client, in the order in which they came. */
  function Addresses(c: Client): seq<nat> {
    seq(c.ipv6Set, n requires 0 <= n < c.ipv6Set => V6At(c, n))
  }

  /** There is room for the address, and it is not recorded yet. */
  predicate WantsV6(c: Client, addr: nat) {
    c.ipv6Set < IPV6_NUM_ADDR && forall n :: 0 <= n < c.ipv6Set ==> V6At(c, n) != addr
  }

  lemma AddressesGrow(c: Client, addr: nat)
    ensures Addresses(WithIpv6(c, addr)) == Addresses(c) + [addr]
  {}

  lemma WantsV6Iff(c: Client, addr: nat)
    ensures WantsV6(c, addr) <==> |Addresses(c)| < IPV6_NUM_ADDR && addr !in Addresses(c)
  {
    assert forall n :: 0 <= n < c.ipv6Set ==> Addresses(c)[n] == V6At(c, n);
  }

  /** A further IPv6 address leaves the rules for the earlier ones right. */
  lemma NewV6Right(c: Client, c': Client, addr: nat, tx: seq<Ip>, claims: map<Owner, nat>, hw: map<nat, HwObject>)
    requires Right(c, tx, claims, hw) && Sane(c) && WantsV6(c, addr) && c' == WithIpv6(c, addr)
    ensures Right(c', tx, claims, hw) && Sane(c')
  {
    forall s ensures if Live(c', s, tx) then Has(c', s, claims, hw) else Owner(c'.mac, s) !in claims {
      assert Live(c', s, tx) <==> Live(c, s, tx);
      if Live(c, s, tx) {
        assert s in LiveSlots(c, tx) && Has(c, s, claims, hw) && ObjectFor(c', s) == ObjectFor(c, s);
      }
    }
    assert forall n :: 0 <= n < c.ipv6Set ==> V6At(c, n) == c.v6Addr[n];
  }

  lemma OnlyAt(s: seq<Client>, i: nat)
    requires DistinctMacs(s) && i < |s|
    ensures forall k :: 0 <= k < |s| && s[k].mac == s[i].mac ==> k == i
  {}

  lemma OnlyThere(s: seq<Client>, mac: nat)
    requires !HasMac(s, mac)
    ensures forall k :: 0 <= k < |s| ==> s[k].mac != mac
  {}

  /** A new IPv4 address is right for a client without IPv4 rules. */
  lemma NewV4Right(c: Client, c': Client, tx: seq<Ip>, claims: map<Owner, nat>, hw: map<nat, HwObject>)
    requires Right(c, tx, claims, hw) && !c.routeSetV4 && c' == c.(v4Addr := c'.v4Addr, ipv4Set := c'.ipv4Set)
    ensures Right(c', tx, claims, hw)
  {
    forall s ensures if Live(c', s, tx) then Has(c', s, claims, hw) else Owner(c'.mac, s) !in claims {
      assert Live(c', s, tx) <==> Live(c, s, tx);
      if Live(c, s, tx) {
        assert s in LiveSlots(c, tx) && Has(c, s, claims, hw) && ObjectFor(c', s) == ObjectFor(c, s);
      }
    }
  }

  function NoRoutes(c: Client, ip: Ip): Client {
    if ip == V4 then c.(routeSetV4 := false) else c.(routeSetV6 := 0)
  }

  /** The slots left when the IPv4 rules of the first `t` transmit properties have been deleted. */
  ghost predicate WithoutV4(held: iset<Slot>, c: Client, tx: seq<Ip>, t: nat) {
    forall s :: s in held <==> Live(c, s, tx) && !(s.Route4? && s.tx < t)
  }

  lemma WithoutV4Step(held: iset<Slot>, c: Client, tx: seq<Ip>, t: nat)
    requires t < |tx| && WithoutV4(held, c, tx, t)
    ensures if tx[t] == V4 && c.routeSetV4 then Route4(t) in held && WithoutV4(held - iset{Route4(t)}, c, tx, t + 1)
            else WithoutV4(held, c, tx, t + 1)
  {}

  /** Is the slot an IPv6 rule of the first `t` transmit properties, or of property `t` and the
      addresses from `lo` to `n`? */
  predicate V6Before(s: Slot, t: nat, lo: nat, n: nat) {
    match s
    case Route6(u, m) => u < t || (u == t && lo <= m < n)
    case Route6Wan(u, m) => u < t || (u == t && lo <= m < n)
    case _ => false
  }

  ghost predicate WithoutV6(held: iset<Slot>, c: Client, tx: seq<Ip>, t: nat, n: nat) {
    forall s :: s in held <==> Live(c, s, tx) && !V6Before(s, t, 0, n)
  }

  lemma WithoutV6Step(held: iset<Slot>, c: Client, tx: seq<Ip>, t: nat, n: nat)
    requires t < |tx| && tx[t] == V6 && n < c.routeSetV6 && WithoutV6(held, c, tx, t, n)
    ensures Route6(t, n) in held && Route6Wan(t, n) in held
    ensures WithoutV6(held - iset{Route6(t, n)} - iset{Route6Wan(t, n)}, c, tx, t, n + 1)
  {}

  lemma WithoutV6Next(held: iset<Slot>, c: Client, tx: seq<Ip>, t: nat)
    requires t < |tx|
    requires
      if tx[t] == V6 && c.routeSetV6 != 0 then WithoutV6(held, c, tx, t, c.routeSetV6) else WithoutV6(held, c, tx, t, 0)
    ensures WithoutV6(held, c, tx, t + 1, 0)
  {}

  /** The slots held when the IPv4 rules of the first `t` transmit properties have been added. */
  ghost predicate WithV4(held: iset<Slot>, c: Client, tx: seq<Ip>, t: nat)
    requires t <= |tx|
  {
    forall s :: s in held <==> Live(c, s, tx) || (s.Route4? && s.tx < t && tx[s.tx] == V4)
  }

  lemma WithV4Step(held: iset<Slot>, c: Client, tx: seq<Ip>, t: nat)
    requires t < |tx| && WithV4(held, c, tx, t) && !c.routeSetV4
    ensures if tx[t] == V4 then Route4(t) !in held && WithV4(held + iset{Route4(t)}, c, tx, t + 1)
            else WithV4(held, c, tx, t + 1)
  {}

  /** Is the slot a new IPv6 rule, for an address from `lo` to `hi`, of the first `t` transmit
      properties, or of property `t` and the addresses up to `n`? */
  predicate NewV6(s: Slot, tx: seq<Ip>, lo: nat, hi: nat, t: nat, n: nat) {
    match s
    case Route6(u, m) => u < |tx| && tx[u] == V6 && lo <= m < hi && (u < t || (u == t && m < n))
    case Route6Wan(u, m) => u < |tx| && tx[u] == V6 && lo <= m < hi && (u < t || (u == t && m < n))
    case _ => false
  }

  ghost predicate WithV6(held: iset<Slot>, c: Client, tx: seq<Ip>, t: nat, n: nat) {
    forall s :: s in held <==> Live(c, s, tx) || NewV6(s, tx, c.routeSetV6, c.ipv6Set, t, n)
  }

  lemma WithV6Step(held: iset<Slot>, c: Client, tx: seq<Ip>, t: nat, n: nat)
    requires t < |tx| && tx[t] == V6 && c.routeSetV6 <= n < c.ipv6Set && WithV6(held, c, tx, t, n)
    ensures Route6(t, n) !in held && Route6Wan(t, n) !in held
    ensures WithV6(held + iset{Route6(t, n)} + iset{Route6Wan(t, n)}, c, tx, t, n + 1)
  {}

  lemma WithV6Next(held: iset<Slot>, c: Client, tx: seq<Ip>, t: nat)
    requires t < |tx| && c.routeSetV6 <= c.ipv6Set
    requires if tx[t] == V6 then WithV6(held, c, tx, t, c.ipv6Set) else WithV6(held, c, tx, t, c.routeSetV6)
    ensures WithV6(held, c, tx, t + 1, c.routeSetV6)
  {}

  /** When the slots held are those that the new flags name, the record is right. */
  lemma HeldIsLive(c: Client, c': Client, held: iset<Slot>, tx: seq<Ip>, claims: map<Owner, nat>,
                   hw: map<nat, HwObject>)
    requires Holds(c, held, claims, hw)
    requires c'.mac == c.mac && c'.hdl == c.hdl && c'.v4Addr == c.v4Addr && c'.v6Addr == c.v6Addr
    requires forall s :: s in held <==> Live(c', s, tx)
    ensures Right(c', tx, claims, hw)
  {
    assert held == LiveSlots(c', tx);
    forall s ensures if s in held then Has(c', s, claims, hw) else Owner(c'.mac, s) !in claims {
      assert ObjectFor(c', s) == ObjectFor(c, s);
      if s in held { assert Has(c, s, claims, hw); }
    }
  }

  /** Is handle `h` the one that record `k` names in slot `s`? */
  predicate Named(recs: seq<Client>, tx: seq<Ip>, k: int, s: Slot, h: nat) {
    0 <= k < |recs| && Live(recs[k], s, tx) && s in recs[k].hdl && recs[k].hdl[s] == h
  }

  lemma NamedIsInstalled(recs: seq<Client>, tx: seq<Ip>, claims: map<Owner, nat>, hw: map<nat, HwObject>,
                         nextHdl: nat, k: int, s: Slot, h: nat)
    requires HwSync(claims, hw, nextHdl) && InOrder(recs, tx, claims, hw) && Named(recs, tx, k, s, h)
    ensures h in hw && hw[h].mac == recs[k].mac && hw[h].slot == s
  {
    assert Right(recs[k], tx, claims, hw) && s in LiveSlots(recs[k], tx);
    assert Has(recs[k], s, claims, hw);
  }

  lemma InstalledIsNamed(recs: seq<Client>, tx: seq<Ip>, claims: map<Owner, nat>, hw: map<nat, HwObject>,
                         nextHdl: nat, h: nat) returns (k: int)
    requires HwSync(claims, hw, nextHdl) && InOrder(recs, tx, claims, hw) && h in hw
    ensures Named(recs, tx, k, hw[h].slot, h)
  {
    var o := Owner(hw[h].mac, hw[h].slot);
    assert HasMac(recs, o.mac);
    k :| 0 <= k < |recs| && recs[k].mac == o.mac;
    assert Right(recs[k], tx, claims, hw);
    assert o.slot in LiveSlots(recs[k], tx) && Has(recs[k], o.slot, claims, hw);
  }

  lemma NoRouteLeft(recs: seq<Client>, tx: seq<Ip>, claims: map<Owner, nat>, hw: map<nat, HwObject>, nextHdl: nat,
                    ip: Ip)
    requires HwSync(claims, hw, nextHdl) && InOrder(recs, tx, claims, hw)
    requires forall k :: 0 <= k < |recs| ==> recs[k] == NoRoutes(recs[k], ip)
    ensures forall h :: h in hw ==> !IsRoute(hw[h].slot, ip)
  {
    forall h | h in hw ensures !IsRoute(hw[h].slot, ip) {
      var k := InstalledIsNamed(recs, tx, claims, hw, nextHdl, h);
      assert recs[k] == NoRoutes(recs[k], ip);
    }
  }

  /** The handles in the hardware are exactly those that the records in use name. */
  lemma HardwareIsExactlyNamed(o: EthTable, h: nat)
    requires o.Valid()
    ensures h in o.hw <==> exists k, s :: Named(o.clients[..o.num], o.tx, k, s, h)
  {
    var recs := o.clients[..o.num];
    if h in o.hw {
      var k := InstalledIsNamed(recs, o.tx, o.claims, o.hw, o.nextHdl, h);
    }
    if k, s :| Named(recs, o.tx, k, s, h) {
      NamedIsInstalled(recs, o.tx, o.claims, o.hw, o.nextHdl, k, s, h);
    }
  }

  /** Every IPv4 rule, and every IPv6 rule of the WAN table, names the handle of its own client's
      header, which is in the hardware; the IPv6 rules of the LAN table name none. */
  lemma RulesNameHeaders(o: EthTable, h: nat)
    requires o.Valid() && h in o.hw
    ensures match o.hw[h].slot
            case Route4(_) => IsHeader(o.hw, o.hw[h].hdr, o.hw[h].mac, V4)
            case Route6Wan(_, _) => IsHeader(o.hw, o.hw[h].hdr, o.hw[h].mac, V6)
            case _ => o.hw[h].hdr == 0
  {
    var recs := o.clients[..o.num];
    var k := InstalledIsNamed(recs, o.tx, o.claims, o.hw, o.nextHdl, h);
    assert o.clients[k] == recs[k] && HeadersSet(recs[k], o.tx);
    NamesItsHeader(recs[k], o.tx, o.claims, o.hw, o.nextHdl, o.hw[h].slot, h);
  }

  /** Under the handle `h` there is the client's header. */
  predicate IsHeader(hw: map<nat, HwObject>, h: nat, mac: nat, ip: Ip) {
    h in hw && hw[h].mac == mac && hw[h].slot == Header(ip)
  }

  lemma NamesItsHeader(c: Client, tx: seq<Ip>, claims: map<Owner, nat>, hw: map<nat, HwObject>, nextHdl: nat,
                       s: Slot, h: nat)
    requires Right(c, tx, claims, hw) && HwSync(claims, hw, nextHdl) && HeadersSet(c, tx)
    requires Live(c, s, tx) && s in c.hdl && c.hdl[s] == h
    ensures h in hw && hw[h].mac == c.mac && hw[h].slot == s
    ensures match HeaderOf(s)
            case Some(x) => hw[h].hdr in hw && hw[hw[h].hdr].slot == x && hw[hw[h].hdr].mac == c.mac
            case None => hw[h].hdr == 0
  {
    assert s in LiveSlots(c, tx) && Has(c, s, claims, hw);
    if HeaderOf(s).Some? {
      var x := HeaderOf(s).value;
      assert x in LiveSlots(c, tx) && Has(c, x, claims, hw);
    }
  }

  /** No two records, and no two slots of a record, name the same handle. */
  lemma HandlesAreNamedOnce(o: EthTable, k: int, s: Slot, k': int, s': Slot, h: nat)
    requires o.Valid() && Named(o.clients[..o.num], o.tx, k, s, h) && Named(o.clients[..o.num], o.tx, k', s', h)
    ensures k == k' && s == s'
  {
    var recs := o.clients[..o.num];
    NamedIsInstalled(recs, o.tx, o.claims, o.hw, o.nextHdl, k, s, h);
    NamedIsInstalled(recs, o.tx, o.claims, o.hw, o.nextHdl, k', s', h);
  }
}
