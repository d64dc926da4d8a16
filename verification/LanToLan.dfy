/** The LAN-to-LAN offload controller.  Its methods keep the book of `LanBook` and drive the
    hardware step by step, as the event handlers do; between events the hardware holds exactly
    what the topology wants. */
module LanToLan {
  import opened Common
  import opened LanBook
  import opened LanClients
  import opened LanDown
  import opened LanEvents
  import opened LanHistory
  import opened LanLinks

  /** Something installed in the hardware: what it is, the routing table it belongs in or points
      to, and the handle of the processing context that a routing rule names (otherwise 0). */
  datatype HwObject = HwObject(key: Key, table: Table, ctx: nat)

  class Controller {
    var bk: Book
    var cached: seq<(Lan, nat)>
    // the handle fields of the interface, client and filter records, by what they are for
    var hdl: map<Key, nat>
    // the hardware
    var hw: map<nat, HwObject>
    var nextHdl: nat
    ghost var installed: set<Key>

    /** The hardware holds exactly the installed things, in their proper tables, each under the
        one handle that is recorded for it; a routing rule names the handle that is recorded for
        its processing context. */
    ghost predicate HwSync()
      reads this`hdl, this`hw, this`nextHdl, this`installed
    {
      && (forall k :: k in installed ==>
            k in hdl && hdl[k] in hw && hw[hdl[k]] == HwObject(k, TableFor(k), ContextHdl(hdl, k)))
      && (forall h :: h in hw ==> h < nextHdl && hw[h].key in installed && hdl[hw[h].key] == h)
    }

    ghost predicate Valid()
      reads this`bk, this`hdl, this`hw, this`nextHdl, this`installed
    {
      && HwSync()
      && Settled(bk)
      && Matches(bk, installed)
    }

    /** The invariant between events. */
    ghost predicate Sound()
      reads this
    {
      Valid() && CacheBounded(cached, TopologyOf(bk).ifaces)
    }

    /** The network as the controller knows it. */
    ghost function State(): (n: Network)
      reads this`bk, this`cached
      ensures WellFormed(n.top)
    {
      Network(TopologyOf(bk), cached)
    }

    /** A controller that knows of no interface. */
    constructor ()
      ensures Sound() && State() == NOTHING
    {
      bk := Book([], map[], map[], map[], map[], map[], map[], map[], {}, map[]);
      cached := [];
      hdl := map[];
      hw := map[];
      nextHdl := 0;
      installed := {};
      new;
      assert TopologyOf(bk) == NOTHING.top;
    }

    // -------------------------------------------------------------- hardware calls

    method Install(k: Key, table: Table, ctx: nat)
      requires HwSync() && k !in installed && table == TableFor(k) && ctx == ContextHdl(hdl, k)
      requires Unnamed(k)
      modifies this`hdl, this`hw, this`nextHdl, this`installed
      ensures HwSync() && installed == old(installed) + {k}
    {
      hw := hw[nextHdl := HwObject(k, table, ctx)];
      hdl := hdl[k := nextHdl];
      nextHdl := nextHdl + 1;
      installed := installed + {k};
    }

    /** No installed rule names `k` as its context. */
    ghost predicate Unnamed(k: Key)
      reads this`installed
    {
      forall r :: r in installed && NamesContext(r) ==> ContextOf(r) != k
    }

    method Uninstall(k: Key)
      requires HwSync() && k in installed
      modifies this`hw, this`installed
      ensures HwSync() && installed == old(installed) - {k}
    {
      hw := hw - {hdl[k]};
      installed := installed - {k};
    }

    // -------------------------------------------------------------- single rules

    method AddHdrProcCtx(a: Lan, t: L2Type)
      requires HwSync() && (Ref(bk, a, t) == 1 ==> CtxKey(a, t) !in installed && Unnamed(CtxKey(a, t)))
      modifies this`hdl, this`hw, this`nextHdl, this`installed
      ensures HwSync() && installed == old(installed) + if Ref(bk, a, t) == 1 then {CtxKey(a, t)} else {}
    {
      if Ref(bk, a, t) == 1 {
        Install(CtxKey(a, t), IntraTable, 0);
      }
    }

    method DelHdrProcCtx(a: Lan, t: L2Type)
      requires HwSync() && (Ref(bk, a, t) == 0 ==> CtxKey(a, t) in installed)
      modifies this`hw, this`installed
      ensures HwSync() && installed == old(installed) - if Ref(bk, a, t) == 0 then {CtxKey(a, t)} else {}
    {
      if Ref(bk, a, t) == 0 {
        Uninstall(CtxKey(a, t));
      }
    }

    /** Adds the routing rules of client `c` of `a` by the record of its peer `b`; they refer to
        the installed processing context for the peer's header type. */
    method AddClientRtRule(a: Lan, b: Lan, c: nat)
      requires HwSync() && NamedFor(bk, a, b) && CtxKey(a, b.l2) in installed
      requires forall ip :: RtKey(a, c, b.l2, ip) !in installed
      modifies this`hdl, this`hw, this`nextHdl, this`installed
      ensures HwSync()
      ensures installed == old(installed) + {RtKey(a, c, b.l2, V4), RtKey(a, c, b.l2, V6)}
    {
      Install(RtKey(a, c, b.l2, V4), bk.tblForRt[(a, b)], hdl[CtxKey(a, b.l2)]);
      Install(RtKey(a, c, b.l2, V6), bk.tblForRt[(a, b)], hdl[CtxKey(a, b.l2)]);
    }

    method DelClientRtRule(a: Lan, t: L2Type, c: nat)
      requires HwSync() && forall ip :: RtKey(a, c, t, ip) in installed
      modifies this`hw, this`installed
      ensures HwSync()
      ensures installed == old(installed) - {RtKey(a, c, t, V4), RtKey(a, c, t, V6)}
    {
      Uninstall(RtKey(a, c, t, V4));
      Uninstall(RtKey(a, c, t, V6));
    }

    /** Adds a filtering rule on `a` for client `c` of its peer `b`; the table it points to
        already holds that client's routing rule. */
    method AddClientFltRule(a: Lan, b: Lan, c: nat, ip: Ip)
      requires HwSync() && NamedFor(bk, a, b)
      requires FltKey(a, b, c, ip) !in installed && RtKey(b, c, a.l2, ip) in installed
      modifies this`bk, this`hdl, this`hw, this`nextHdl, this`installed
      ensures HwSync() && installed == old(installed) + {FltKey(a, b, c, ip)}
      ensures bk == if c in Flt(old(bk), a, b) then old(bk)
                    else old(bk).(flt := old(bk).flt[(a, b) := [c] + Flt(old(bk), a, b)])
    {
      Install(FltKey(a, b, c, ip), bk.tblForFlt[(a, b)], 0);
      if c !in Flt(bk, a, b) {
        bk := bk.(flt := bk.flt[(a, b) := [c] + Flt(bk, a, b)]);
      }
    }

    /** Deletes the filtering rules on `a` for client `c` of `b`, for the addresses `a` has. */
    method DelClientFltRule(a: Lan, b: Lan, c: nat)
      requires HwSync() && c in Flt(bk, a, b)
      requires forall ip :: ip in IpUp(bk, a) ==> FltKey(a, b, c, ip) in installed
      modifies this`bk, this`hw, this`installed
      ensures HwSync()
      ensures installed == old(installed) - FltSet(a, b, c, IpUp(old(bk), a))
      ensures bk == old(bk).(flt := old(bk).flt[(a, b) := Erase(Flt(old(bk), a, b), c)])
    {
      if V4 in IpUp(bk, a) {
        Uninstall(FltKey(a, b, c, V4));
      }
      if V6 in IpUp(bk, a) {
        Uninstall(FltKey(a, b, c, V6));
      }
      bk := bk.(flt := bk.flt[(a, b) := Erase(Flt(bk, a, b), c)]);
    }

    method AddIntraRtRule(a: Lan, c: nat)
      requires HwSync() && IntraCtxKey(a) in installed && forall ip :: IntraRtKey(a, c, ip) !in installed
      modifies this`hdl, this`hw, this`nextHdl, this`installed
      ensures HwSync() && installed == old(installed) + {IntraRtKey(a, c, V4), IntraRtKey(a, c, V6)}
    {
      Install(IntraRtKey(a, c, V4), IntraTable, hdl[IntraCtxKey(a)]);
      Install(IntraRtKey(a, c, V6), IntraTable, hdl[IntraCtxKey(a)]);
    }

    method DelIntraRtRule(a: Lan, c: nat)
      requires HwSync() && forall ip :: IntraRtKey(a, c, ip) in installed
      modifies this`hw, this`installed
      ensures HwSync() && installed == old(installed) - {IntraRtKey(a, c, V4), IntraRtKey(a, c, V6)}
    {
      Uninstall(IntraRtKey(a, c, V4));
      Uninstall(IntraRtKey(a, c, V6));
    }

    method AddIntraFltRule(a: Lan, c: nat, ip: Ip)
      requires HwSync() && IntraFltKey(a, c, ip) !in installed && IntraRtKey(a, c, ip) in installed
      modifies this`bk, this`hdl, this`hw, this`nextHdl, this`installed
      ensures HwSync() && installed == old(installed) + {IntraFltKey(a, c, ip)}
      ensures bk == if c in IntraFlt(old(bk), a) then old(bk)
                    else old(bk).(intraFlt := old(bk).intraFlt[a := [c] + IntraFlt(old(bk), a)])
    {
      Install(IntraFltKey(a, c, ip), IntraTable, 0);
      if c !in IntraFlt(bk, a) {
        bk := bk.(intraFlt := bk.intraFlt[a := [c] + IntraFlt(bk, a)]);
      }
    }

    method DelIntraFltRule(a: Lan, c: nat)
      requires HwSync() && c in IntraFlt(bk, a)
      requires forall ip :: ip in IpUp(bk, a) ==> IntraFltKey(a, c, ip) in installed
      modifies this`bk, this`hw, this`installed
      ensures HwSync()
      ensures installed == old(installed) - IntraFltSet(a, c, IpUp(old(bk), a))
      ensures bk == old(bk).(intraFlt := old(bk).intraFlt[a := Erase(IntraFlt(old(bk), a), c)])
    {
      if V4 in IpUp(bk, a) {
        Uninstall(IntraFltKey(a, c, V4));
      }
      if V6 in IpUp(bk, a) {
        Uninstall(IntraFltKey(a, c, V6));
      }
      bk := bk.(intraFlt := bk.intraFlt[a := Erase(IntraFlt(bk, a), c)]);
    }

    // -------------------------------------------------------------- a client appears

    /** Adds the filtering rules of a new client of `b` on its peer `a`. */
    method AddOneClientFltRule(a: Lan, b: Lan, c: nat)
      requires HwSync() && NamedFor(bk, a, b) && c !in Flt(bk, a, b) && IpUp(bk, a) != {}
      requires forall ip :: FltKey(a, b, c, ip) !in installed && RtKey(b, c, a.l2, ip) in installed
      modifies this`bk, this`hdl, this`hw, this`nextHdl, this`installed
      ensures HwSync() && installed == old(installed) + FltSet(a, b, c, IpUp(old(bk), a))
      ensures bk == old(bk).(flt := old(bk).flt[(a, b) := [c] + Flt(old(bk), a, b)])
    {
      SomeIp(IpUp(bk, a));
      if V4 in IpUp(bk, a) {
        AddClientFltRule(a, b, c, V4);
      }
      if V6 in IpUp(bk, a) {
        AddClientFltRule(a, b, c, V6);
      }
    }

    /** One round of the loop over the peers of a client's interface. */
    method AddClientToPeer(a: Lan, b: Lan, c: nat, flag: set<L2Type>) returns (flag': set<L2Type>)
      requires HwSync() && NamedFor(bk, a, b) && NamedFor(bk, b, a) && CtxKey(a, b.l2) in installed
      requires c !in Flt(bk, b, a) && IpUp(bk, b) != {}
      requires forall ip :: FltKey(b, a, c, ip) !in installed
      requires forall ip :: RtKey(a, c, b.l2, ip) in installed <==> b.l2 in flag
      modifies this`bk, this`hdl, this`hw, this`nextHdl, this`installed
      ensures HwSync() && flag' == flag + {b.l2}
      ensures installed == old(installed) + RtPair(a, c, b.l2) + FltSet(b, a, c, IpUp(old(bk), b))
      ensures bk == old(bk).(flt := old(bk).flt[(b, a) := [c] + Flt(old(bk), b, a)])
    {
      flag' := flag;
      if b.l2 !in flag {
        AddClientRtRule(a, b, c);
        flag' := flag + {b.l2};
      }
      forall ip ensures RtKey(a, c, b.l2, ip) in installed { assert ip == V4 || ip == V6; }
      AddOneClientFltRule(b, a, c);
    }

    /** The inter-interface rules of a new client: routing rules once for each header type among
        the peers, and filtering rules on every peer. */
    method AddClientToPeers(a: Lan, c: nat, ghost bk0: Book) returns (ghost done: set<Lan>)
      requires HwSync() && NoDup(Peers(bk0, a)) && bk == bk0.(clients := bk.clients)
      requires forall b :: b in Peers(bk0, a) ==> PeerReady(bk0, installed, a, b, c)
      requires forall t, ip :: RtKey(a, c, t, ip) !in installed
      modifies this`bk, this`hdl, this`hw, this`nextHdl, this`installed
      ensures HwSync() && AllPeers(bk0, a, done)
      ensures AddedFor(bk0, bk, old(installed), installed, a, c, done)
      ensures bk == old(bk).(flt := bk.flt)
    {
      ghost var inst0, bkIn := installed, bk;
      done := {};
      var flag: set<L2Type> := {};
      var list := Peers(bk, a);
      for n := 0 to |list|
        invariant HwSync() && bk == bkIn.(flt := bk.flt) && flag == TypesOf(done)
        invariant Visited(list, n, done)
        invariant AddedFor(bk0, bk, inst0, installed, a, c, done)
      {
        VisitNext(list, n, done);
        flag, done := AddClientRound(a, list[n], c, flag, bk0, inst0, done);
      }
    }

    method AddClientRound(a: Lan, b: Lan, c: nat, flag: set<L2Type>, ghost bk0: Book, ghost inst0: set<Key>,
                          ghost done: set<Lan>) returns (flag': set<L2Type>, ghost done': set<Lan>)
      requires HwSync() && AddedFor(bk0, bk, inst0, installed, a, c, done) && flag == TypesOf(done)
      requires b !in done && PeerReady(bk0, inst0, a, b, c) && forall t, ip :: RtKey(a, c, t, ip) !in inst0
      requires bk == bk0.(clients := bk.clients, flt := bk.flt)
      modifies this`bk, this`hdl, this`hw, this`nextHdl, this`installed
      ensures HwSync() && AddedFor(bk0, bk, inst0, installed, a, c, done')
      ensures done' == done + {b} && flag' == TypesOf(done') && bk == old(bk).(flt := bk.flt)
    {
      ghost var bk1, inst1 := bk, installed;
      AddedReady(bk0, bk, inst0, installed, a, c, done, b);
      flag' := AddClientToPeer(a, b, c, flag);
      AddedStep(bk0, bk1, bk, inst0, inst1, installed, a, c, done, b);
      TypesOfGrows(done, b);
      done' := done + {b};
    }

    /** The intra-interface rules of a new client. */
    method AddIntraClient(a: Lan, c: nat)
      requires HwSync() && c !in IntraFlt(bk, a) && IpUp(bk, a) != {} && IntraCtxKey(a) in installed
      requires forall ip :: IntraRtKey(a, c, ip) !in installed && IntraFltKey(a, c, ip) !in installed
      modifies this`bk, this`hdl, this`hw, this`nextHdl, this`installed
      ensures HwSync()
      ensures installed == old(installed) + IntraRtPair(a, c) + IntraFltSet(a, c, IpUp(old(bk), a))
      ensures bk == old(bk).(intraFlt := old(bk).intraFlt[a := [c] + IntraFlt(old(bk), a)])
    {
      AddIntraRtRule(a, c);
      AddIntraFltRules(a, c);
    }

    method AddIntraFltRules(a: Lan, c: nat)
      requires HwSync() && c !in IntraFlt(bk, a) && IpUp(bk, a) != {}
      requires IntraRtPair(a, c) <= installed && forall ip :: IntraFltKey(a, c, ip) !in installed
      modifies this`bk, this`hdl, this`hw, this`nextHdl, this`installed
      ensures HwSync() && installed == old(installed) + IntraFltSet(a, c, IpUp(old(bk), a))
      ensures bk == old(bk).(intraFlt := old(bk).intraFlt[a := [c] + IntraFlt(old(bk), a)])
    {
      SomeIp(IpUp(bk, a));
      if V4 in IpUp(bk, a) {
        AddIntraFltRule(a, c, V4);
      }
      if V6 in IpUp(bk, a) {
        AddIntraFltRule(a, c, V6);
      }
    }

    /** Records a new client and installs its rules. */
    method AddNewClient(a: Lan, c: nat)
      requires Valid() && a in bk.order && c !in Clients(bk, a) && |Clients(bk, a)| < MAX_NUM_CLIENT
      modifies this`bk, this`hdl, this`hw, this`nextHdl, this`installed
      ensures Valid() && TopologyOf(bk) == WithClientIn(TopologyOf(old(bk)), a, c)
      ensures |Clients(bk, a)| == |Clients(old(bk), a)| + 1
    {
      ghost var bk0, inst0 := bk, installed;
      ClientIsNew(bk, installed, a, c);
      PeersReady(bk, installed, a, c);
      bk := bk.(clients := bk.clients[a := [c] + Clients(bk, a)]);
      ghost var done := AddClientToPeers(a, c, bk0);
      ghost var bk1, inst1 := bk, installed;
      if a.wlan {
        AddIntraClient(a, c);
      }
      ClientAdded(bk0, bk1, bk, a, c, inst0, inst1, installed, done);
    }

    /** A client appears on an interface that is up. */
    method HandleClientAdd(a: Lan, c: nat)
      requires Valid() && a in bk.order
      modifies this`bk, this`hdl, this`hw, this`nextHdl, this`installed
      ensures Valid()
      ensures TopologyOf(bk) == if |Clients(old(bk), a)| < MAX_NUM_CLIENT
                                then WithClientIn(TopologyOf(old(bk)), a, c) else TopologyOf(old(bk))
      ensures |Clients(bk, a)| <= |Clients(old(bk), a)| + 1
    {
      if c in Clients(bk, a) {
        ClientAlreadyIn(bk, a, c);
      } else if |Clients(bk, a)| != MAX_NUM_CLIENT {
        AddNewClient(a, c);
      }
    }

    // -------------------------------------------------------------- a client disappears

    /** One round of the loop over the peers of a client's interface. */
    method DelClientRound(a: Lan, b: Lan, c: nat, flag: set<L2Type>, ghost bk0: Book, ghost inst0: set<Key>,
                          ghost done: set<Lan>) returns (flag': set<L2Type>, ghost done': set<Lan>)
      requires HwSync() && RemovedFor(bk0, bk, inst0, installed, a, c, done) && flag == TypesOf(done)
      requires b !in done && PeerHas(bk0, inst0, a, b, c) && bk == bk0.(flt := bk.flt)
      modifies this`bk, this`hw, this`installed
      ensures HwSync() && RemovedFor(bk0, bk, inst0, installed, a, c, done')
      ensures done' == done + {b} && flag' == TypesOf(done') && bk == old(bk).(flt := bk.flt)
    {
      ghost var bk1, inst1 := bk, installed;
      RemovedReady(bk0, bk, inst0, installed, a, c, done, b);
      DelClientFltRule(b, a, c);
      flag' := flag;
      if b.l2 !in flag {
        DelClientRtRule(a, b.l2, c);
        flag' := flag + {b.l2};
      }
      RemovedStep(bk0, bk1, bk, inst0, inst1, installed, a, c, done, b);
      TypesOfGrows(done, b);
      done' := done + {b};
    }

    /** Deletes the inter-interface rules of a client. */
    method DelClientFromPeers(a: Lan, c: nat) returns (ghost done: set<Lan>)
      requires HwSync() && NoDup(Peers(bk, a))
      requires forall b :: b in Peers(bk, a) ==> PeerHas(bk, installed, a, b, c)
      modifies this`bk, this`hw, this`installed
      ensures HwSync() && AllPeers(old(bk), a, done)
      ensures RemovedFor(old(bk), bk, old(installed), installed, a, c, done)
      ensures bk == old(bk).(flt := bk.flt)
    {
      ghost var inst0, bk0 := installed, bk;
      done := {};
      var flag: set<L2Type> := {};
      var list := Peers(bk, a);
      for n := 0 to |list|
        invariant HwSync() && bk == bk0.(flt := bk.flt) && flag == TypesOf(done)
        invariant Visited(list, n, done)
        invariant RemovedFor(bk0, bk, inst0, installed, a, c, done)
      {
        VisitNext(list, n, done);
        flag, done := DelClientRound(a, list[n], c, flag, bk0, inst0, done);
      }
    }

    method DelIntraClient(a: Lan, c: nat)
      requires HwSync() && c in IntraFlt(bk, a) && forall ip :: IntraRtKey(a, c, ip) in installed
      requires forall ip :: ip in IpUp(bk, a) ==> IntraFltKey(a, c, ip) in installed
      modifies this`bk, this`hw, this`installed
      ensures HwSync()
      ensures installed == old(installed) - IntraFltSet(a, c, IpUp(old(bk), a)) - IntraRtPair(a, c)
      ensures bk == old(bk).(intraFlt := old(bk).intraFlt[a := Erase(IntraFlt(old(bk), a), c)])
    {
      DelIntraFltRule(a, c);
      DelIntraRtRule(a, c);
    }

    method RemoveClient(a: Lan, c: nat)
      requires Valid() && a in bk.order && c in Clients(bk, a)
      modifies this`bk, this`hw, this`installed
      ensures Valid() && TopologyOf(bk) == WithoutClientIn(TopologyOf(old(bk)), a, c)
    {
      ghost var bk0, inst0 := bk, installed;
      PeersHave(bk, installed, a, c);
      ghost var done := DelClientFromPeers(a, c);
      ghost var bk1, inst1 := bk, installed;
      if a.wlan { RemovedKeepsIntra(bk0, bk, inst0, installed, a, c, done); }
      StrikeOutClient(a, c);
      ClientRemoved(bk0, bk1, bk, a, c, inst0, inst1, installed, done);
    }

    /** Deletes the intra-interface rules of a client and erases it from the list. */
    method StrikeOutClient(a: Lan, c: nat)
      requires HwSync()
      requires a.wlan ==> c in IntraFlt(bk, a) && forall ip :: IntraRtKey(a, c, ip) in installed
      requires a.wlan ==> forall ip :: ip in IpUp(bk, a) ==> IntraFltKey(a, c, ip) in installed
      modifies this`bk, this`hw, this`installed
      ensures HwSync()
      ensures installed == if a.wlan then old(installed) - IntraFltSet(a, c, IpUp(old(bk), a)) - IntraRtPair(a, c)
                           else old(installed)
      ensures var bk0 := old(bk);
              bk == bk0.(clients := bk0.clients[a := Erase(Clients(bk0, a), c)],
                         intraFlt := if a.wlan then bk0.intraFlt[a := Erase(IntraFlt(bk0, a), c)] else bk0.intraFlt)
    {
      if a.wlan {
        DelIntraClient(a, c);
      }
      bk := bk.(clients := bk.clients[a := Erase(Clients(bk, a), c)]);
    }

    /** A client disappears from an interface that is up. */
    method HandleClientDel(a: Lan, c: nat)
      requires Valid() && a in bk.order
      modifies this`bk, this`hw, this`installed
      ensures Valid() && TopologyOf(bk) == WithoutClientIn(TopologyOf(old(bk)), a, c)
    {
      if c in Clients(bk, a) {
        RemoveClient(a, c);
      } else {
        ClientNotIn(bk, a, c);
      }
    }

    // -------------------------------------------------------------- filtering rules for all clients

    /** Adds the filtering rules on `a` for all clients of its peer `b`. */
    method AddPeerFltRules(a: Lan, b: Lan, ip: Ip)
      requires HwSync() && NamedFor(bk, a, b) && NoDup(Clients(bk, b)) && NoDup(Flt(bk, a, b))
      requires forall m :: m in Clients(bk, b) ==>
        FltKey(a, b, m, ip) !in installed && RtKey(b, m, a.l2, ip) in installed
      modifies this`bk, this`hdl, this`hw, this`nextHdl, this`installed
      ensures HwSync() && bk == old(bk).(flt := bk.flt)
      ensures forall k :: k in installed <==>
        k in old(installed) || (k.FltKey? && k == FltKey(a, b, k.mac, ip) && k.mac in Clients(old(bk), b))
      ensures FltExtended(old(bk), bk, a, b, ClientSet(old(bk), b))
    {
      ghost var bk0, inst0 := bk, installed;
      ghost var done: set<nat> := {};
      var list := Clients(bk, b);
      for n := 0 to |list|
        invariant HwSync() && bk == bk0.(flt := bk.flt) && FltExtended(bk0, bk, a, b, done)
        invariant Visited(list, n, done) && FltInstalled(inst0, installed, a, b, ip, done)
      {
        VisitNext(list, n, done);
        AddPeerFltRound(a, b, ip, list[n], bk0, inst0, done);
        done := done + {list[n]};
      }
      assert done == ClientSet(bk0, b);
    }

    method AddPeerFltRound(a: Lan, b: Lan, ip: Ip, c: nat, ghost bk0: Book, ghost inst0: set<Key>, ghost done: set<nat>)
      requires HwSync() && bk == bk0.(flt := bk.flt) && FltExtended(bk0, bk, a, b, done) && NamedFor(bk0, a, b)
      requires FltInstalled(inst0, installed, a, b, ip, done) && c !in done
      requires FltKey(a, b, c, ip) !in inst0 && RtKey(b, c, a.l2, ip) in inst0
      modifies this`bk, this`hdl, this`hw, this`nextHdl, this`installed
      ensures HwSync() && bk == bk0.(flt := bk.flt) && FltExtended(bk0, bk, a, b, done + {c})
      ensures FltInstalled(inst0, installed, a, b, ip, done + {c})
    {
      ghost var bk1 := bk;
      FltInstalls(inst0, installed, a, b, ip, done, c);
      AddClientFltRule(a, b, c, ip);
      FltExtends(bk0, bk1, bk, a, b, done, c);
    }

    /** Adds the filtering rules on `a` for all clients of all its peers. */
    method AddAllInterFltRules(a: Lan, ip: Ip) returns (ghost done: set<Lan>)
      requires HwSync() && NoDup(Peers(bk, a))
      requires forall b :: b in Peers(bk, a) ==> FltReady(bk, installed, a, b, ip)
      modifies this`bk, this`hdl, this`hw, this`nextHdl, this`installed
      ensures HwSync() && bk == old(bk).(flt := bk.flt)
      ensures AllPeers(old(bk), a, done) && FiltersAdded(old(bk), bk, old(installed), installed, a, ip, done)
    {
      ghost var bk0, inst0 := bk, installed;
      done := {};
      var list := Peers(bk, a);
      for n := 0 to |list|
        invariant HwSync() && bk == bk0.(flt := bk.flt)
        invariant Visited(list, n, done)
        invariant FiltersAdded(bk0, bk, inst0, installed, a, ip, done)
      {
        VisitNext(list, n, done);
        ghost var bk1, inst1 := bk, installed;
        assert FltReady(bk0, inst0, a, list[n], ip);
        FltStillReady(bk0, bk, inst0, installed, a, ip, done, list[n]);
        AddPeerFltRules(a, list[n], ip);
        FiltersAddedStep(bk0, bk1, bk, inst0, inst1, installed, a, ip, done, list[n]);
        done := done + {list[n]};
      }
    }

    /** Adds the filtering rules on `a` for its own clients. */
    method AddAllIntraFltRules(a: Lan, ip: Ip)
      requires HwSync() && NoDup(Clients(bk, a)) && forall m :: m in Clients(bk, a) ==> m in IntraFlt(bk, a)
      requires forall m :: m in Clients(bk, a) ==>
        IntraFltKey(a, m, ip) !in installed && IntraRtKey(a, m, ip) in installed
      modifies this`bk, this`hdl, this`hw, this`nextHdl, this`installed
      ensures HwSync() && bk == old(bk)
      ensures forall k :: k in installed <==>
        k in old(installed) || (k.IntraFltKey? && k == IntraFltKey(a, k.mac, ip) && k.mac in Clients(old(bk), a))
    {
      ghost var inst0 := installed;
      ghost var done: set<nat> := {};
      var list := Clients(bk, a);
      for n := 0 to |list|
        invariant HwSync() && bk == old(bk)
        invariant Visited(list, n, done) && IntraFltInstalled(inst0, installed, a, ip, done)
      {
        VisitNext(list, n, done);
        IntraFltInstalls(inst0, installed, a, ip, done, list[n]);
        AddIntraFltRule(a, list[n], ip);
        done := done + {list[n]};
      }
    }

    // -------------------------------------------------------------- an interface gets a further address

    method HandleMoreAddress(a: Lan, ip: Ip)
      requires Valid() && a in bk.order && ip !in IpUp(bk, a)
      modifies this`bk, this`hdl, this`hw, this`nextHdl, this`installed
      ensures Valid() && TopologyOf(bk) == WithIfaceIn(TopologyOf(old(bk)), a, ip)
    {
      ghost var bk0, inst0 := bk, installed;
      AllFltReady(bk, installed, a, ip);
      bk := bk.(ipUp := bk.ipUp[a := IpUp(bk, a) + {ip}]);
      StillFltReady(bk0, bk, installed, a, ip);
      ghost var done := AddAllInterFltRules(a, ip);
      ghost var inst1 := installed;
      if a.wlan {
        AddAllIntraFltRules(a, ip);
      }
      AddressAdded(bk0, bk, a, ip, inst0, inst1, installed, done);
    }

    // -------------------------------------------------------------- a new interface comes up

    /** Records the peer `y` on `x` and installs the processing context for its header type if it
        is the first of that type. */
    method HandleNewPeer(x: Lan, y: Lan, forFlt: Table, forRt: Table)
      requires HwSync() && Ref(bk, x, y.l2) >= 0
      requires CtxKey(x, y.l2) in installed <==> Ref(bk, x, y.l2) > 0
      requires Ref(bk, x, y.l2) == 0 ==> Unnamed(CtxKey(x, y.l2))
      modifies this`bk, this`hdl, this`hw, this`nextHdl, this`installed
      ensures HwSync() && bk == AddPeer(old(bk), x, y, forFlt, forRt)
      ensures installed == old(installed) + {CtxKey(x, y.l2)}
    {
      bk := bk.(refCnt := bk.refCnt[(x, y.l2) := Ref(bk, x, y.l2) + 1]);
      AddHdrProcCtx(x, y.l2);
      bk := bk.(peers := bk.peers[x := [y] + Peers(bk, x)], flt := bk.flt[(x, y) := []],
                tblForFlt := bk.tblForFlt[(x, y) := forFlt], tblForRt := bk.tblForRt[(x, y) := forRt]);
    }

    /** Adds the routing rules of the clients of `b` for its newest peer, if that is the first of
        its header type. */
    method AddClientRtRuleForNewIface(b: Lan)
      requires HwSync() && Peers(bk, b) != [] && NoDup(Clients(bk, b))
      requires var a := Peers(bk, b)[0];
               && NamedFor(bk, b, a) && CtxKey(b, a.l2) in installed
               && forall m, ip :: m in Clients(bk, b) ==>
                    (RtKey(b, m, a.l2, ip) in installed <==> Ref(bk, b, a.l2) != 1)
      modifies this`hdl, this`hw, this`nextHdl, this`installed
      ensures HwSync()
      ensures forall k :: k in installed <==>
        || k in old(installed)
        || (k.RtKey? && k.on == b && k.peerL2 == Peers(bk, b)[0].l2 && k.mac in Clients(bk, b))
    {
      var a := Peers(bk, b)[0];
      ghost var inst0 := installed;
      if Ref(bk, b, a.l2) == 1 {
        ghost var done: set<nat> := {};
        var list := Clients(bk, b);
        for n := 0 to |list|
          invariant HwSync()
          invariant Visited(list, n, done)
          invariant forall k :: k in installed <==>
            k in inst0 || (k.RtKey? && k.on == b && k.peerL2 == a.l2 && k.mac in done)
        {
          VisitNext(list, n, done);
          AddClientRtRule(b, a, list[n]);
          RtPairIs(b, list[n], a.l2);
          done := done + {list[n]};
        }
      }
    }

    /** Records the new interface `a` and the existing interface `b` as peers of each other, with
        crossed table names. */
    method RecordPeers(a: Lan, b: Lan)
      requires HwSync() && a != b && Ref(bk, a, b.l2) >= 0 && Ref(bk, b, a.l2) >= 0
      requires CtxKey(b, a.l2) in installed <==> Ref(bk, b, a.l2) > 0
      requires CtxKey(a, b.l2) in installed <==> Ref(bk, a, b.l2) > 0
      requires Ref(bk, b, a.l2) == 0 ==> Unnamed(CtxKey(b, a.l2))
      requires Ref(bk, a, b.l2) == 0 ==> Unnamed(CtxKey(a, b.l2))
      modifies this`bk, this`hdl, this`hw, this`nextHdl, this`installed
      ensures HwSync() && Linked(old(bk), bk, a, b)
      ensures installed == old(installed) + {CtxKey(b, a.l2), CtxKey(a, b.l2)}
    {
      ghost var bk0 := bk;
      var forFlt, forRt := InterTable(b.l2, a.l2), InterTable(a.l2, b.l2);
      HandleNewPeer(b, a, forFlt, forRt);
      HandleNewPeer(a, b, forRt, forFlt);
      RecordsLink(bk0, a, b);
    }

    /** Links the new interface `a` to the existing interface `b`. */
    method LinkIface(a: Lan, b: Lan)
      requires HwSync() && Core(bk) && Matches(bk, installed)
      requires a in bk.order && b in bk.order && a != b && a !in Peers(bk, b) && b !in Peers(bk, a)
      requires Clients(bk, a) == []
      modifies this`bk, this`hdl, this`hw, this`nextHdl, this`installed
      ensures HwSync() && Core(bk) && Matches(bk, installed) && Linked(old(bk), bk, a, b)
    {
      ghost var bk0, inst0 := bk, installed;
      LinkReady(bk0, installed, a, b);
      RecordPeers(a, b);
      LinkRoutesReady(bk0, bk, inst0, installed, a, b);
      AddClientRtRuleForNewIface(b);
      LinkDone(bk0, bk, inst0, installed, a, b);
    }

    /** Links the newest interface `a`, the front of the list, to all the others. */
    method LinkAll(a: Lan) returns (ghost done: set<Lan>)
      requires HwSync() && Core(bk) && Matches(bk, installed) && bk.order != [] && bk.order[0] == a
      requires Peers(bk, a) == [] && Clients(bk, a) == []
      modifies this`bk, this`hdl, this`hw, this`nextHdl, this`installed
      ensures HwSync() && Core(bk) && Matches(bk, installed) && LinkedTo(old(bk), bk, a, done)
      ensures forall b :: b in done <==> b in old(bk).order && b != a
    {
      ghost var bk0 := bk;
      done := {};
      NotYetLinked(bk, a);
      var list := bk.order;
      for n := 1 to |list|
        invariant HwSync() && Core(bk) && Matches(bk, installed) && LinkedTo(bk0, bk, a, done)
        invariant Visited(list, n, done + {a}) && a !in done
      {
        VisitNext(list, n, done + {a});
        assert done + {list[n]} + {a} == done + {a} + {list[n]};
        done := LinkRound(a, list[n], bk0, done);
      }
    }

    method LinkRound(a: Lan, b: Lan, ghost bk0: Book, ghost done: set<Lan>) returns (ghost done': set<Lan>)
      requires HwSync() && Core(bk) && Matches(bk, installed) && LinkedTo(bk0, bk, a, done)
      requires a in bk0.order && b in bk0.order && a != b && b !in done && a !in done && Clients(bk0, a) == []
      requires a !in Peers(bk0, b)
      modifies this`bk, this`hdl, this`hw, this`nextHdl, this`installed
      ensures HwSync() && Core(bk) && Matches(bk, installed) && done' == done + {b}
      ensures LinkedTo(bk0, bk, a, done')
    {
      ghost var bk1 := bk;
      LinkIface(a, b);
      LinkedToStep(bk0, bk1, bk, a, done, b);
      done' := done + {b};
    }

    /** An interface that was not known comes up. */
    method BringUp(a: Lan, ip: Ip)
      requires Valid() && a !in bk.order && Usable(a) && |bk.order| < MAX_NUM_IFACE
      modifies this`bk, this`hdl, this`hw, this`nextHdl, this`installed
      ensures Valid() && TopologyOf(bk) == WithIfaceIn(TopologyOf(old(bk)), a, ip) && Clients(bk, a) == []
    {
      ghost var bk0 := bk;
      ghost var done := LinkNew(a, ip);
      ghost var bk1, inst1 := bk, installed;
      ghost var done' := AddFirstFilters(a, ip);
      ghost var bk2, inst2 := bk, installed;
      BringUpIntra(a);
      BroughtUpDone(bk0, bk1, bk2, a, ip, inst1, inst2, installed, done, done');
    }

    /** A WLAN interface also gets the context for traffic among its own clients. */
    method BringUpIntra(a: Lan)
      requires HwSync() && Matches(bk, installed) && a !in bk.intraUp
      modifies this`bk, this`hdl, this`hw, this`nextHdl, this`installed
      ensures HwSync() && bk == WithIntra(old(bk), a)
      ensures installed == if a.wlan then old(installed) + {IntraCtxKey(a)} else old(installed)
    {
      if a.wlan {
        Install(IntraCtxKey(a), IntraTable, 0);
        bk := bk.(intraUp := bk.intraUp + {a});
      }
    }

    /** Records a new interface and links it to all the others. */
    method LinkNew(a: Lan, ip: Ip) returns (ghost done: set<Lan>)
      requires HwSync() && Core(bk) && Matches(bk, installed) && a !in bk.order
      modifies this`bk, this`hdl, this`hw, this`nextHdl, this`installed
      ensures HwSync() && Core(bk) && Matches(bk, installed)
      ensures LinkedTo(Registered(old(bk), a, ip), bk, a, done) && forall b :: b in done <==> b in old(bk).order
      ensures a in bk.order && IpUp(bk, a) == {ip} && a !in bk.intraUp
      ensures forall b :: b in Peers(bk, a) ==> Flt(bk, a, b) == []
    {
      RegisterKeepsCore(bk, a, ip);
      RegisterMatches(bk, a, ip, installed);
      bk := Registered(bk, a, ip);
      done := LinkAll(a);
    }

    /** Adds the first filtering rules of the new interface `a`. */
    method AddFirstFilters(a: Lan, ip: Ip) returns (ghost done: set<Lan>)
      requires HwSync() && Core(bk) && Matches(bk, installed) && a in bk.order && IpUp(bk, a) == {ip}
      requires forall b :: b in Peers(bk, a) ==> Flt(bk, a, b) == []
      modifies this`bk, this`hdl, this`hw, this`nextHdl, this`installed
      ensures HwSync() && Core(bk) && Matches(bk, installed) && AllPeers(old(bk), a, done)
      ensures FiltersAdded(old(bk), bk, old(installed), installed, a, ip, done) && bk == old(bk).(flt := bk.flt)
    {
      ghost var bk0, inst0 := bk, installed;
      FirstFltReady(bk, installed, a, ip);
      done := AddAllInterFltRules(a, ip);
      FirstFiltersCore(bk0, bk, a, ip, inst0, installed, done);
      FirstFiltersMatch(bk0, bk, a, ip, inst0, installed, done);
    }

    // -------------------------------------------------------------- an interface goes down

    /** Deletes the filtering rules on `x` for all clients of its peer `y`. */
    method ClearAllFltRules(x: Lan, y: Lan)
      requires HwSync() && HasFilters(bk, installed, x, y)
      modifies this`bk, this`hw, this`installed
      ensures HwSync() && bk == old(bk).(flt := old(bk).flt[(x, y) := []])
      ensures forall k :: k in installed <==> k in old(installed) && !OfFilters(old(bk), x, y, k)
    {
      ghost var inst0 := installed;
      ghost var done: set<nat> := {};
      var list := Flt(bk, x, y);
      for n := 0 to |list|
        invariant HwSync() && bk == old(bk)
        invariant Visited(list, n, done)
        invariant forall k :: k in installed <==>
          k in inst0 && !(k.FltKey? && k.on == x && k.peer == y && k.mac in done && k.ip in IpUp(bk, x))
      {
        VisitNext(list, n, done);
        ClearFltRulesOf(x, y, list[n]);
        done := done + {list[n]};
      }
      bk := bk.(flt := bk.flt[(x, y) := []]);
    }

    method ClearFltRulesOf(x: Lan, y: Lan, m: nat)
      requires HwSync() && forall ip :: ip in IpUp(bk, x) ==> FltKey(x, y, m, ip) in installed
      modifies this`hw, this`installed
      ensures HwSync()
      ensures forall k :: k in installed <==>
        k in old(installed) && !(k.FltKey? && k.on == x && k.peer == y && k.mac == m && k.ip in IpUp(bk, x))
    {
      ghost var inst0 := installed;
      if V4 in IpUp(bk, x) {
        Uninstall(FltKey(x, y, m, V4));
      }
      if V6 in IpUp(bk, x) {
        Uninstall(FltKey(x, y, m, V6));
      }
      forall k ensures k in installed <==> k in inst0 && k !in FltSet(x, y, m, IpUp(bk, x)) {}
      forall k ensures k in FltSet(x, y, m, IpUp(bk, x)) <==>
        k.FltKey? && k.on == x && k.peer == y && k.mac == m && k.ip in IpUp(bk, x)
      {
        InFltSet(x, y, m, IpUp(bk, x), k);
      }
    }

    /** Deletes the routing rules of the clients of `x` for the header type `t`, if no peer of that
        type is left. */
    method ClearAllRtRules(x: Lan, t: L2Type)
      requires HwSync() && NoDup(Clients(bk, x))
      requires forall m, ip :: m in Clients(bk, x) ==> RtKey(x, m, t, ip) in installed
      modifies this`hw, this`installed
      ensures HwSync()
      ensures forall k :: k in installed <==>
        && k in old(installed)
        && !(Ref(bk, x, t) == 0 && k.RtKey? && k.on == x && k.peerL2 == t && k.mac in Clients(bk, x))
    {
      ghost var inst0 := installed;
      if Ref(bk, x, t) == 0 {
        ghost var done: set<nat> := {};
        var list := Clients(bk, x);
        for n := 0 to |list|
          invariant HwSync()
          invariant Visited(list, n, done)
          invariant forall k :: k in installed <==>
            k in inst0 && !(k.RtKey? && k.on == x && k.peerL2 == t && k.mac in done)
        {
          VisitNext(list, n, done);
          DelClientRtRule(x, t, list[n]);
          RtPairIs(x, list[n], t);
          done := done + {list[n]};
        }
      }
    }

    /** Deletes the routing rules and then the processing context of `x` for the header type of
        `y`, if `y` was its last peer of that type. */
    method ClearType(x: Lan, y: Lan)
      requires HwSync() && HasType(bk, installed, x, y)
      modifies this`hw, this`installed
      ensures HwSync()
      ensures forall k :: k in installed <==>
        k in old(installed) && !(Ref(bk, x, y.l2) == 0 && OfType(bk, x, y, k))
    {
      ClearAllRtRules(x, y.l2);
      DelHdrProcCtx(x, y.l2);
    }

    /** Clears everything for the interface `a` on its peer `b`, and removes it from `b`'s list. */
    method ClearOnPeer(b: Lan, a: Lan)
      requires HwSync() && HasFilters(bk, installed, b, a) && HasType(bk, installed, b, a)
      modifies this`bk, this`hw, this`installed
      ensures HwSync()
      ensures bk == old(bk).(flt := old(bk).flt[(b, a) := []], peers := old(bk).peers[b := Erase(Peers(old(bk), b), a)])
      ensures forall k :: k in installed <==>
        && k in old(installed)
        && !OfFilters(old(bk), b, a, k)
        && !(Ref(old(bk), b, a.l2) == 0 && OfType(old(bk), b, a, k))
    {
      ghost var bk0, inst0 := bk, installed;
      ClearAllFltRules(b, a);
      TypeStays(bk0, bk, inst0, installed, b, a);
      ClearTypeOnPeer(b, a);
    }

    /** Deletes what `b` has for the header type of `a`, if that was its last peer of that type, and
        removes `a` from its list. */
    method ClearTypeOnPeer(b: Lan, a: Lan)
      requires HwSync() && HasType(bk, installed, b, a)
      modifies this`bk, this`hw, this`installed
      ensures HwSync() && bk == old(bk).(peers := old(bk).peers[b := Erase(Peers(old(bk), b), a)])
      ensures forall k :: k in installed <==>
        k in old(installed) && !(Ref(old(bk), b, a.l2) == 0 && OfType(old(bk), b, a, k))
    {
      ClearAllRtRules(b, a.l2);
      bk := bk.(peers := bk.peers[b := Erase(Peers(bk, b), a)]);
      DelHdrProcCtx(b, a.l2);
    }

    /** Clears what `a`, which goes down, and its peer `b` have for each other. */
    method ClearSides(a: Lan, b: Lan)
      requires HwSync() && HasFilters(bk, installed, a, b) && HasType(bk, installed, a, b)
      requires HasFilters(bk, installed, b, a) && HasType(bk, installed, b, a) && a != b && a in Peers(bk, b)
      modifies this`bk, this`hw, this`installed
      ensures HwSync()
      ensures bk == old(bk).(flt := old(bk).flt[(a, b) := []][(b, a) := []],
                             peers := old(bk).peers[b := Erase(Peers(old(bk), b), a)])
      ensures forall k :: k in installed <==>
        k in old(installed) && !OfCleared(old(bk), a, b, k) && !OfCleared(old(bk), b, a, k)
    {
      ghost var bk1, inst1 := bk, installed;
      ClearAllFltRules(a, b);
      ghost var bk2, inst2 := bk, installed;
      OwnFiltersCleared(bk1, bk2, inst1, inst2, a, b);
      if a in Peers(bk, b) {
        ClearOnPeer(b, a);
      }
      ghost var inst3 := installed;
      PeerCleared(bk2, bk, inst2, inst3, a, b);
      ClearType(a, b);
      assert Flt(bk2, b, a) == Flt(bk1, b, a);
      forall k ensures k in installed <==> k in inst1 && !OfCleared(bk1, a, b, k) && !OfCleared(bk1, b, a, k) {
        ClearedSame(bk1, bk2, b, a, k);
        ClearedSame(bk1, bk, a, b, k);
      }
    }

    method DecrementRefCnt(x: Lan, t: L2Type)
      modifies this`bk
      ensures bk == OneFewer(old(bk), x, t)
    {
      bk := bk.(refCnt := bk.refCnt[(x, t) := Ref(bk, x, t) - 1]);
    }

    /** One round of the loop over the peers of the interface `a` that goes down. */
    method ClearPeer(a: Lan, b: Lan)
      requires HwSync() && HasLink(bk, installed, a, b) && HasLink(bk, installed, b, a)
      requires a != b && a in Peers(bk, b)
      modifies this`bk, this`hw, this`installed
      ensures HwSync() && bk == AfterRound(old(bk), a, b)
      ensures forall k :: k in installed <==>
        k in old(installed) && !OfSide(old(bk), a, b, k) && !OfSide(old(bk), b, a, k)
    {
      ghost var bk0, inst0 := bk, installed;
      DecrementRefCnt(a, b.l2);
      DecrementRefCnt(b, a.l2);
      ghost var bk1 := bk;
      CountedDown(bk0, bk1, inst0, a, b);
      ClearSides(a, b);
      forall k ensures k in installed <==> k in inst0 && !OfSide(bk0, a, b, k) && !OfSide(bk0, b, a, k) {
        SideCleared(bk0, bk1, a, b, k);
        SideCleared(bk0, bk1, b, a, k);
      }
    }

    method DownRound(a: Lan, b: Lan, ghost rest: seq<Lan>, ghost bk0: Book, ghost gone: set<Lan>)
      requires HwSync() && rest != [] && rest[0] == b && a in bk.order && DownFrom(bk0, bk, a, gone)
      requires Core(Pending(bk, a, rest)) && Matches(Pending(bk, a, rest), installed)
      modifies this`bk, this`hw, this`installed
      ensures HwSync() && Core(Pending(bk, a, rest[1..])) && Matches(Pending(bk, a, rest[1..]), installed)
      ensures DownFrom(bk0, bk, a, gone + {b})
    {
      ghost var bk1, inst1 := bk, installed;
      RoundReady(bk, installed, a, b, rest);
      ClearPeer(a, b);
      RoundDone(bk1, inst1, installed, a, b, rest);
      DownFromStep(bk0, bk1, a, b, gone);
    }

    /** Unlinks the interface `a`, which goes down, from all its peers. */
    method UnlinkAll(a: Lan) returns (ghost gone: set<Lan>)
      requires HwSync() && Core(bk) && Matches(bk, installed) && a in bk.order
      modifies this`bk, this`hw, this`installed
      ensures HwSync() && Core(bk) && Matches(bk, installed) && Peers(bk, a) == []
      ensures DownFrom(old(bk), bk, a, gone) && AllPeers(old(bk), a, gone)
    {
      ghost var bk0 := bk;
      gone := {};
      var list := Peers(bk, a);
      ghost var rest := list;
      PendingSame(bk, a, installed);
      for n := 0 to |list|
        invariant HwSync() && DownFrom(bk0, bk, a, gone) && rest == list[n..]
        invariant Core(Pending(bk, a, rest)) && Matches(Pending(bk, a, rest), installed)
        invariant forall i :: 0 <= i < n ==> list[i] in gone
        invariant forall b :: b in gone ==> b in list
      {
        DownRound(a, list[n], rest, bk0, gone);
        gone, rest := gone + {list[n]}, rest[1..];
      }
      assert Pending(bk, a, rest) == bk.(peers := bk.peers[a := []]);
      bk := bk.(peers := bk.peers[a := []]);
    }

    /** Clears the rules for traffic among the clients of `a` itself; the routing rules go because
        no peer of its own header type is left. */
    method ClearIntra(a: Lan)
      requires HwSync() && Core(bk) && Matches(bk, installed) && a in bk.order && a in bk.intraUp && Peers(bk, a) == []
      modifies this`bk, this`hw, this`installed
      ensures HwSync() && bk == old(bk).(intraFlt := old(bk).intraFlt[a := []])
      ensures forall k :: k in installed <==> k in old(installed) && !OfIntra(old(bk), a, k)
    {
      IntraInstalled(bk, installed, a);
      ClearIntraRules(a);
      Uninstall(IntraCtxKey(a));
    }

    method ClearIntraRules(a: Lan)
      requires HwSync() && IntraCtxKey(a) in installed && NoDup(IntraFlt(bk, a)) && NoDup(Clients(bk, a))
      requires Ref(bk, a, a.l2) == 0
      requires forall m, ip :: m in IntraFlt(bk, a) && ip in IpUp(bk, a) ==> IntraFltKey(a, m, ip) in installed
      requires forall m, ip :: m in Clients(bk, a) ==> IntraRtKey(a, m, ip) in installed
      modifies this`bk, this`hw, this`installed
      ensures HwSync() && bk == old(bk).(intraFlt := old(bk).intraFlt[a := []]) && IntraCtxKey(a) in installed
      ensures forall k :: k in installed - {IntraCtxKey(a)} <==> k in old(installed) && !OfIntra(old(bk), a, k)
    {
      ghost var bk0, inst0 := bk, installed;
      ClearAllIntraFltRules(a);
      ghost var inst1 := installed;
      ClearAllIntraRtRules(a);
      IntraCleared(bk0, a, inst0, inst1, installed);
    }

    method ClearAllIntraFltRules(a: Lan)
      requires HwSync() && NoDup(IntraFlt(bk, a))
      requires forall m, ip :: m in IntraFlt(bk, a) && ip in IpUp(bk, a) ==> IntraFltKey(a, m, ip) in installed
      modifies this`bk, this`hw, this`installed
      ensures HwSync() && bk == old(bk).(intraFlt := old(bk).intraFlt[a := []])
      ensures forall k :: k in installed <==>
        && k in old(installed)
        && !(k.IntraFltKey? && k.on == a && k.mac in IntraFlt(old(bk), a) && k.ip in IpUp(old(bk), a))
    {
      ghost var inst0 := installed;
      ghost var done: set<nat> := {};
      var list := IntraFlt(bk, a);
      for n := 0 to |list|
        invariant HwSync() && bk == old(bk)
        invariant Visited(list, n, done)
        invariant forall k :: k in installed <==>
          k in inst0 && !(k.IntraFltKey? && k.on == a && k.mac in done && k.ip in IpUp(bk, a))
      {
        VisitNext(list, n, done);
        ClearIntraFltRulesOf(a, list[n]);
        done := done + {list[n]};
      }
      bk := bk.(intraFlt := bk.intraFlt[a := []]);
    }

    method ClearIntraFltRulesOf(a: Lan, m: nat)
      requires HwSync() && forall ip :: ip in IpUp(bk, a) ==> IntraFltKey(a, m, ip) in installed
      modifies this`hw, this`installed
      ensures HwSync()
      ensures forall k :: k in installed <==>
        k in old(installed) && !(k.IntraFltKey? && k.on == a && k.mac == m && k.ip in IpUp(bk, a))
    {
      ghost var inst0 := installed;
      if V4 in IpUp(bk, a) {
        Uninstall(IntraFltKey(a, m, V4));
      }
      if V6 in IpUp(bk, a) {
        Uninstall(IntraFltKey(a, m, V6));
      }
      forall k ensures k in installed <==> k in inst0 && k !in IntraFltSet(a, m, IpUp(bk, a)) {}
      forall k ensures k in IntraFltSet(a, m, IpUp(bk, a)) <==>
        k.IntraFltKey? && k.on == a && k.mac == m && k.ip in IpUp(bk, a)
      {
        InFltSet(a, a, m, IpUp(bk, a), k);
      }
    }

    method ClearAllIntraRtRules(a: Lan)
      requires HwSync() && NoDup(Clients(bk, a)) && Ref(bk, a, a.l2) == 0
      requires forall m, ip :: m in Clients(bk, a) ==> IntraRtKey(a, m, ip) in installed
      modifies this`hw, this`installed
      ensures HwSync()
      ensures forall k :: k in installed <==>
        k in old(installed) && !(k.IntraRtKey? && k.on == a && k.mac in Clients(bk, a))
    {
      if Ref(bk, a, a.l2) == 0 {
        ghost var inst0 := installed;
        ghost var done: set<nat> := {};
        var list := Clients(bk, a);
        for n := 0 to |list|
          invariant HwSync()
          invariant Visited(list, n, done)
          invariant forall k :: k in installed <==>
            k in inst0 && !(k.IntraRtKey? && k.on == a && k.mac in done)
        {
          VisitNext(list, n, done);
          DelIntraRtRule(a, list[n]);
          IntraRtPairIs(a, list[n]);
          done := done + {list[n]};
        }
      }
    }

    method ClearOwn(a: Lan)
      requires HwSync() && Core(bk) && Matches(bk, installed) && a in bk.order && Peers(bk, a) == []
      requires a in bk.intraUp <==> a.wlan
      modifies this`bk, this`hw, this`installed
      ensures HwSync()
      ensures bk == old(bk).(intraFlt := if a.wlan then old(bk).intraFlt[a := []] else old(bk).intraFlt)
      ensures forall k :: k in installed <==> k in old(installed) && !(a.wlan && OfIntra(old(bk), a, k))
    {
      if a.wlan {
        ClearIntra(a);
      }
    }

    /** Clears the client list of `a` and erases `a` from the list of interfaces. */
    method EraseIface(a: Lan)
      requires HwSync()
      modifies this`bk
      ensures HwSync()
      ensures bk == old(bk).(clients := old(bk).clients[a := []], order := Erase(old(bk).order, a))
    {
      bk := bk.(clients := bk.clients[a := []]);
      bk := bk.(order := Erase(bk.order, a));
    }

    /** Forgets the interface `a`, which has been unlinked from all its peers. */
    method ForgetIface(a: Lan, ghost bk0: Book, ghost gone: set<Lan>)
      requires HwSync() && Settled(bk0) && a in bk0.order && DownFrom(bk0, bk, a, gone) && AllPeers(bk0, a, gone)
      requires Core(bk) && Matches(bk, installed) && Peers(bk, a) == []
      modifies this`bk, this`hw, this`installed
      ensures Valid() && TopologyOf(bk) == WithoutIfaceIn(TopologyOf(bk0), a)
    {
      ghost var bk1, inst1 := bk, installed;
      IntraUpIff(bk0, a);
      ClearOwn(a);
      EraseIface(a);
      DownDone(bk0, bk1, a, inst1, installed, gone);
    }

    /** An interface that is up goes down. */
    method BringDown(a: Lan)
      requires Valid() && a in bk.order
      modifies this`bk, this`hw, this`installed
      ensures Valid() && TopologyOf(bk) == WithoutIfaceIn(TopologyOf(old(bk)), a)
    {
      ghost var bk0 := bk;
      ghost var gone := UnlinkAll(a);
      ForgetIface(a, bk0, gone);
    }

    // -------------------------------------------------------------- cached announcements

    /** Adds the clients that were announced for `a` before it came up. */
    method HandleCachedClientAdds(a: Lan)
      requires Valid() && a in bk.order && Clients(bk, a) == [] && |cached| <= MAX_NUM_CACHED_CLIENT_ADD_EVENT
      modifies this
      ensures Valid() && cached == Uncached(old(cached), a)
      ensures TopologyOf(bk) == WithClientsIn(TopologyOf(old(bk)), a, CachedFor(old(cached), a))
    {
      ghost var top0 := TopologyOf(bk);
      ghost var added: set<nat> := {};
      NoMoreClients(top0, a);
      ScanStarts(cached, a);
      var i: nat := 0;
      while i < |cached|
        invariant Scanned(old(cached), cached, i, a, added)
        invariant Valid() && a in bk.order && |Clients(bk, a)| + |cached| <= MAX_NUM_CACHED_CLIENT_ADD_EVENT
        invariant TopologyOf(bk) == WithClientsIn(top0, a, added)
        decreases |cached| - i
      {
        i, added := HandleCachedClientAdd(a, i, old(cached), top0, added);
      }
      ScanEnds(old(cached), cached, a, added);
    }

    method HandleCachedClientAdd(a: Lan, i: nat, ghost was: seq<(Lan, nat)>, ghost top0: Topology,
                                 ghost added: set<nat>)
      returns (i': nat, ghost added': set<nat>)
      requires i < |cached| && Scanned(was, cached, i, a, added) && Valid() && a in bk.order
      requires |Clients(bk, a)| + |cached| <= MAX_NUM_CACHED_CLIENT_ADD_EVENT
      requires a in top0.clients && TopologyOf(bk) == WithClientsIn(top0, a, added)
      modifies this
      ensures Scanned(was, cached, i', a, added') && Valid() && a in bk.order
      ensures |Clients(bk, a)| + |cached| <= MAX_NUM_CACHED_CLIENT_ADD_EVENT
      ensures TopologyOf(bk) == WithClientsIn(top0, a, added')
      ensures |cached| - i' < |old(cached)| - i
    {
      i', added' := i, added;
      if cached[i].0 == a {
        ScanTakes(was, cached, i, a, added);
        added' := AddCached(a, cached[i].1, top0, added);
        cached := cached[..i] + cached[i + 1..];
      } else {
        ScanSkips(was, cached, i, a, added);
        i' := i + 1;
      }
    }

    method AddCached(a: Lan, c: nat, ghost top0: Topology, ghost added: set<nat>) returns (ghost added': set<nat>)
      requires Valid() && a in bk.order && |Clients(bk, a)| < MAX_NUM_CLIENT
      requires a in top0.clients && TopologyOf(bk) == WithClientsIn(top0, a, added)
      modifies this`bk, this`hdl, this`hw, this`nextHdl, this`installed
      ensures Valid() && a in bk.order && |Clients(bk, a)| <= |Clients(old(bk), a)| + 1
      ensures added' == added + {c} && TopologyOf(bk) == WithClientsIn(top0, a, added')
    {
      ghost var up := TopologyOf(bk).ifaces;
      HandleClientAdd(a, c);
      assert TopologyOf(bk).ifaces == up;
      OneMoreClient(top0, a, added, c);
      added' := added + {c};
    }

    /** Forgets the clients that were announced for `a`. */
    method ClearCachedClientAdds(a: Lan)
      modifies this`cached
      ensures cached == Uncached(old(cached), a)
    {
      ScanStarts(cached, a);
      ghost var taken: set<nat> := {};
      var i: nat := 0;
      while i < |cached|
        invariant Scanned(old(cached), cached, i, a, taken)
        decreases |cached| - i
      {
        if cached[i].0 == a {
          ScanTakes(old(cached), cached, i, a, taken);
          taken := taken + {cached[i].1};
          cached := cached[..i] + cached[i + 1..];
        } else {
          ScanSkips(old(cached), cached, i, a, taken);
          i := i + 1;
        }
      }
      ScanEnds(old(cached), cached, a, taken);
    }

    // -------------------------------------------------------------- events

    method HandleIfaceUp(a: Lan, ip: Ip)
      requires Sound()
      modifies this
      ensures Sound() && State() == Next(old(State()), IfaceUp(a, ip))
    {
      IfaceCount(bk);
      if a in bk.order {
        HandleKnownIface(a, ip);
      } else if |bk.order| == MAX_NUM_IFACE {
      } else if !a.hasProps {
      } else if a.l2 == L2None || a.l2 == L2Max {
      } else {
        HandleNewIface(a, ip);
      }
    }

    method HandleKnownIface(a: Lan, ip: Ip)
      requires Valid() && a in bk.order
      modifies this`bk, this`hdl, this`hw, this`nextHdl, this`installed
      ensures Valid() && TopologyOf(bk) == WithIfaceIn(TopologyOf(old(bk)), a, ip)
    {
      if ip !in IpUp(bk, a) {
        HandleMoreAddress(a, ip);
      } else {
        AddressAlreadyUp(bk, a, ip);
      }
    }

    method HandleNewIface(a: Lan, ip: Ip)
      requires Sound() && a !in bk.order && Usable(a) && |bk.order| < MAX_NUM_IFACE
      modifies this
      ensures Sound() && cached == Uncached(old(cached), a)
      ensures TopologyOf(bk) == WithClientsIn(WithIfaceIn(TopologyOf(old(bk)), a, ip), a, CachedFor(old(cached), a))
    {
      UncachedKeeps(cached, a);
      BringUp(a, ip);
      assert a in TopologyOf(bk).ifaces;
      HandleCachedClientAdds(a);
    }

    method HandleIfaceDown(a: Lan)
      requires Sound()
      modifies this
      ensures Sound() && State() == Next(old(State()), IfaceDown(a))
    {
      UncachedKeeps(cached, a);
      if a in bk.order {
        BringDown(a);
      } else {
        ClearCachedClientAdds(a);
      }
    }

    method HandleClientAddEvent(a: Lan, c: nat)
      requires Sound()
      modifies this
      ensures Sound() && State() == Next(old(State()), ClientAdd(a, c))
    {
      if a in bk.order {
        ClientCount(bk, a);
        HandleClientAdd(a, c);
      } else if |cached| < MAX_NUM_CACHED_CLIENT_ADD_EVENT {
        cached := [(a, c)] + cached;
      }
    }

    method HandleClientDelEvent(a: Lan, c: nat)
      requires Sound()
      modifies this
      ensures Sound() && State() == Next(old(State()), ClientDel(a, c))
    {
      ghost var n := State();
      if a in bk.order {
        HandleClientDel(a, c);
        assert State() == n.(top := WithoutClientIn(n.top, a, c));
        assert State().top.ifaces == n.top.ifaces;
      }
    }

    method EventCallback(e: Event)
      requires Sound()
      modifies this
      ensures Sound() && State() == Next(old(State()), e)
    {
      match e
      case IfaceUp(a, ip) => HandleIfaceUp(a, ip);
      case IfaceDown(a) => HandleIfaceDown(a);
      case ClientAdd(a, c) => HandleClientAddEvent(a, c);
      case ClientDel(a, c) => HandleClientDelEvent(a, c);
    }

    /** After any run of events the hardware holds exactly what the resulting network wants. */
    method HandleAll(es: seq<Event>)
      requires Sound()
      modifies this
      ensures Sound() && State() == After(old(State()), es)
      ensures forall k :: k in installed <==> Wanted(After(old(State()), es).top, k)
    {
      for n := 0 to |es|
        invariant Sound() && State() == After(old(State()), es[..n])
      {
        assert es[..n + 1][..n] == es[..n];
        EventCallback(es[n]);
      }
      assert es[..|es|] == es;
      InstalledIffWanted(bk, installed);
    }
  }

  /** So after any run of events a new controller has in the hardware exactly what can be read off the
      list of events. */
  method RunNew(es: seq<Event>) returns (o: Controller)
    ensures fresh(o) && o.Sound() && o.State() == After(NOTHING, es)
    ensures forall k :: k in o.installed <==> WantedBy(es, k)
  {
    o := new Controller();
    o.HandleAll(es);
    forall k ensures k in o.installed <==> WantedBy(es, k) {
      WantedByEvents(es, k);
    }
  }

  /** Between events the hardware holds one object for each thing that the network wants, in its
      proper table, and nothing else. */
  lemma HardwareIsExactlyWanted(o: Controller, k: Key)
    requires o.Sound()
    ensures Wanted(o.State().top, k) <==> exists h :: h in o.hw && o.hw[h].key == k
    ensures forall h :: h in o.hw && o.hw[h].key == k ==> o.hw[h].table == TableFor(k)
    ensures forall h, h' :: h in o.hw && h' in o.hw && o.hw[h].key == k && o.hw[h'].key == k ==> h == h'
  {
    InstalledIffWanted(o.bk, o.installed);
    if Wanted(o.State().top, k) {
      assert o.hdl[k] in o.hw && o.hw[o.hdl[k]].key == k;
    }
  }

  /** Every routing rule in the hardware names a processing context that is in the hardware: the one
      of its interface for the header type of its table, or for traffic within the interface. */
  lemma RoutesNameContexts(o: Controller, h: nat)
    requires o.Sound() && h in o.hw && NamesContext(o.hw[h].key)
    ensures o.hw[h].ctx in o.hw && o.hw[o.hw[h].ctx].key == ContextOf(o.hw[h].key)
  {
    var k := o.hw[h].key;
    InstalledIffWanted(o.bk, o.installed);
    RoutesHaveContexts(TopologyOf(o.bk), k);
    assert o.hw[o.hdl[k]].ctx == ContextHdl(o.hdl, k);
  }

  /** Every filtering rule in the hardware points to a table in which the hardware holds the
      routing rule of the same client. */
  lemma FiltersFindRoutes(o: Controller, h: nat) returns (h': nat)
    requires o.Sound() && h in o.hw && o.hw[h].key.FltKey?
    ensures h' in o.hw && o.hw[h'].table == o.hw[h].table
    ensures var k := o.hw[h].key; o.hw[h'].key == RtKey(k.peer, k.mac, k.on.l2, k.ip)
  {
    var k := o.hw[h].key;
    InstalledIffWanted(o.bk, o.installed);
    FiltersPointToRoutes(TopologyOf(o.bk), k.on, k.peer, k.mac, k.ip);
    h' := o.hdl[RtKey(k.peer, k.mac, k.on.l2, k.ip)];
  }

  lemma NoMoreClients(top: Topology, a: Lan)
    requires a in top.clients
    ensures WithClientsIn(top, a, {}) == top
  {
    assert top.clients[a] + {} == top.clients[a];
    assert top.clients[a := top.clients[a] + {}] == top.clients;
  }

  lemma OneMoreClient(top: Topology, a: Lan, added: set<nat>, c: nat)
    requires a in top.clients
    ensures WithClientIn(WithClientsIn(top, a, added), a, c) == WithClientsIn(top, a, added + {c})
  {
    assert top.clients[a] + added + {c} == top.clients[a] + (added + {c});
  }

  lemma AddressAlreadyUp(bk: Book, a: Lan, ip: Ip)
    requires a in bk.order && ip in IpUp(bk, a)
    ensures WithIfaceIn(TopologyOf(bk), a, ip) == TopologyOf(bk)
  {
    assert TopologyOf(bk).ips[a] + {ip} == TopologyOf(bk).ips[a];
  }

  lemma IfaceCount(bk: Book)
    requires NoDup(bk.order)
    ensures |TopologyOf(bk).ifaces| == |bk.order|
  {
    CardOfList(bk.order);
  }

  lemma ClientCount(bk: Book, a: Lan)
    requires a in bk.order && NoDup(Clients(bk, a))
    ensures |TopologyOf(bk).clients[a]| == |Clients(bk, a)|
  {
    CardOfList(Clients(bk, a));
    assert ClientSet(bk, a) == set x | x in Clients(bk, a);
  }

  /** Between events the installed things are exactly the wanted ones. */
  lemma InstalledIffWanted(bk: Book, inst: set<Key>)
    requires Settled(bk) && Matches(bk, inst)
    ensures forall k :: k in inst <==> Wanted(TopologyOf(bk), k)
  {
    forall k ensures k in inst <==> Wanted(TopologyOf(bk), k) {
      BookedIffWanted(bk, k);
    }
  }

  /** Equal networks have equal hardware, however they came about. */
  lemma SameNetworkSameHardware(bk: Book, inst: set<Key>, bk': Book, inst': set<Key>)
    requires Settled(bk) && Matches(bk, inst) && Settled(bk') && Matches(bk', inst')
    requires TopologyOf(bk) == TopologyOf(bk')
    ensures inst == inst'
  {
    InstalledIffWanted(bk, inst);
    InstalledIffWanted(bk', inst');
  }
}
