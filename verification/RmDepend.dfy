/** Resource-manager dependencies: which producer depends on which consumer is told to the kernel
    while both ends are up. */
module RmDepend {

  datatype Rm = Q6Prod | Q6Cons | UsbProd | UsbCons | WlanProd | WlanCons | OduProd | OduCons | OtherRm(id: nat)

  datatype Entry = Entry(
    producer1: Rm, consumer1: Rm, producer2: Rm, consumer2: Rm,
    producer1Up: bool, consumer1Up: bool, rmSet: bool, rxBypass: bool)

  function Down(p1: Rm, c1: Rm, p2: Rm, c2: Rm): Entry {
    Entry(p1, c1, p2, c2, false, false, false, false)
  }

  /** The table that Init sets up. */
  const IPACM_TABLE: seq<Entry> := [
    Down(WlanProd, Q6Cons, Q6Prod, WlanCons),
    Down(UsbProd, Q6Cons, Q6Prod, UsbCons),
    Down(WlanProd, UsbCons, UsbProd, WlanCons),
    Down(OduProd, Q6Cons, Q6Prod, OduCons),
    Down(WlanProd, OduCons, OduProd, WlanCons),
    Down(OduProd, UsbCons, UsbProd, OduCons)]

  function Pair1(e: Entry): (Rm, Rm) { (e.producer1, e.consumer1) }

  function Pair2(e: Entry): (Rm, Rm) { (e.producer2, e.consumer2) }

  /** No dependency is named twice in the table. */
  ghost predicate PairsDistinct(t: seq<Entry>) {
    && (forall i, j :: 0 <= i < j < |t| ==> Pair1(t[i]) != Pair1(t[j]) && Pair2(t[i]) != Pair2(t[j]))
    && (forall i, j :: 0 <= i < |t| && 0 <= j < |t| ==> Pair1(t[i]) != Pair2(t[j]))
  }

  lemma IpacmTableIsDistinct()
    ensures PairsDistinct(IPACM_TABLE)
  {}

  /** The peripherals of the table: the modem, USB, WLAN and ODU. */
  datatype Peripheral = Q6 | Usb | Wlan | Odu

  function ProducerOf(p: Peripheral): Rm {
    match p case Q6 => Q6Prod case Usb => UsbProd case Wlan => WlanProd case Odu => OduProd
  }

  function ConsumerOf(p: Peripheral): Rm {
    match p case Q6 => Q6Cons case Usb => UsbCons case Wlan => WlanCons case Odu => OduCons
  }

  /** The entry is for data from `p` to `q`, and back. */
  predicate Connects(e: Entry, p: Peripheral, q: Peripheral) {
    && e.producer1 == ProducerOf(p) && e.consumer1 == ConsumerOf(q)
    && e.producer2 == ProducerOf(q) && e.consumer2 == ConsumerOf(p)
  }

  /** Each entry of the table connects two peripherals both ways, and each two are connected by one. */
  lemma IpacmTableConnects(p: Peripheral, q: Peripheral)
    ensures forall i :: 0 <= i < |IPACM_TABLE| ==> exists a, b :: a != b && Connects(IPACM_TABLE[i], a, b)
    ensures p != q ==>
      exists i :: 0 <= i < |IPACM_TABLE| && (Connects(IPACM_TABLE[i], p, q) || Connects(IPACM_TABLE[i], q, p))
  {
    assert Connects(IPACM_TABLE[0], Wlan, Q6) && Connects(IPACM_TABLE[1], Usb, Q6);
    assert Connects(IPACM_TABLE[2], Wlan, Usb) && Connects(IPACM_TABLE[3], Odu, Q6);
    assert Connects(IPACM_TABLE[4], Wlan, Odu) && Connects(IPACM_TABLE[5], Odu, Usb);
  }

  // ---------------------------------------------------------------- what should hold

  /** A call of AddRmDepend or DelRmDepend. */
  datatype Call = Add(rm: Rm, bypass: bool) | Del(rm: Rm)

  /** How many more times `rm` was added than deleted. */
  function Users(calls: seq<Call>, rm: Rm): int
    decreases |calls|
  {
    if calls == [] then 0
    else
      var c := calls[|calls| - 1];
      Users(calls[..|calls| - 1], rm) + if c.rm != rm then 0 else if c.Add? then 1 else -1
  }

  /** The last call about `rm` added it. */
  predicate LastAdded(calls: seq<Call>, rm: Rm)
    decreases |calls|
  {
    calls != [] &&
    var c := calls[|calls| - 1];
    if c.rm == rm then c.Add? else LastAdded(calls[..|calls| - 1], rm)
  }

  /** Is a consumer up after the calls?  The modem consumer is shared and stays up while it has a
      user; any other is up if it was added last. */
  predicate Up(calls: seq<Call>, rm: Rm) {
    if rm == Q6Cons then Users(calls, rm) > 0 else LastAdded(calls, rm)
  }

  /** The flags of an entry say which ends are up, and it is set exactly while both are. */
  predicate EntryRight(e: Entry, calls: seq<Call>) {
    && (e.producer1Up <==> LastAdded(calls, e.producer1))
    && (e.consumer1Up <==> Up(calls, e.consumer1))
    && (e.rmSet <==> LastAdded(calls, e.producer1) && Up(calls, e.consumer1))
  }

  ghost predicate TableRight(t: seq<Entry>, calls: seq<Call>) {
    forall i :: 0 <= i < |t| ==> EntryRight(t[i], calls)
  }

  /** The kernel has exactly the dependencies of the set entries; the one from the producer only
      if it does not bypass the hardware. */
  ghost predicate KernelRight(t: seq<Entry>, deps: set<(Rm, Rm)>) {
    && (forall i :: 0 <= i < |t| ==>
          && (Pair1(t[i]) in deps <==> t[i].rmSet && !t[i].rxBypass)
          && (Pair2(t[i]) in deps <==> t[i].rmSet))
    && Listed(t, deps)
  }

  ghost predicate Listed(t: seq<Entry>, deps: set<(Rm, Rm)>) {
    forall d :: d in deps ==> exists i :: 0 <= i < |t| && (d == Pair1(t[i]) || d == Pair2(t[i]))
  }

  // ---------------------------------------------------------------- one entry

  function ProducerAdded(e: Entry, bypass: bool): Entry {
    e.(producer1Up := true, rxBypass := bypass, rmSet := e.rmSet || e.consumer1Up)
  }

  function ConsumerAdded(e: Entry): Entry {
    e.(consumer1Up := true, rmSet := e.rmSet || e.producer1Up)
  }

  /** An entry after AddRmDepend(rm, bypass). */
  function Added(e: Entry, rm: Rm, bypass: bool): Entry {
    var e1 := if rm == e.producer1 then ProducerAdded(e, bypass) else e;
    if rm == e.consumer1 then ConsumerAdded(e1) else e1
  }

  /** An entry after DelRmDepend(rm), with `left` users of the Q6 consumer left. */
  function Deleted(e: Entry, rm: Rm, left: int): Entry {
    var e1 := if rm == e.producer1 then e.(rmSet := false, producer1Up := false, rxBypass := false) else e;
    if rm == e.consumer1 && !(rm == Q6Cons && left == 1) then e1.(rmSet := false, consumer1Up := false) else e1
  }

  /** Dependencies when the entries `t` have become `t'`, as far as `n`. */
  ghost predicate DepsAdded(t: seq<Entry>, t': seq<Entry>, deps: set<(Rm, Rm)>, deps': set<(Rm, Rm)>, n: nat)
    requires |t'| == |t|
  {
    && (forall i :: 0 <= i < |t| ==>
          && (Pair1(t[i]) in deps' <==> Pair1(t[i]) in deps || (i < n && !t[i].rmSet && t'[i].rmSet && !t'[i].rxBypass))
          && (Pair2(t[i]) in deps' <==> Pair2(t[i]) in deps || (i < n && !t[i].rmSet && t'[i].rmSet)))
    && Listed(t, deps')
  }

  ghost predicate DepsDeleted(t: seq<Entry>, t': seq<Entry>, deps: set<(Rm, Rm)>, deps': set<(Rm, Rm)>, n: nat)
    requires |t'| == |t|
  {
    && (forall i :: 0 <= i < |t| ==>
          && (Pair1(t[i]) in deps' <==> Pair1(t[i]) in deps && !(i < n && t[i].rmSet && !t'[i].rmSet && !t[i].rxBypass))
          && (Pair2(t[i]) in deps' <==> Pair2(t[i]) in deps && !(i < n && t[i].rmSet && !t'[i].rmSet)))
    && Listed(t, deps')
  }

  /** The producer's bypass flag is the one it came up with, where a dependency is set. */
  ghost predicate Steady(t: seq<Entry>, rm: Rm, bypass: bool) {
    forall i :: 0 <= i < |t| && t[i].producer1 == rm && t[i].rmSet ==> t[i].rxBypass == bypass
  }

  function AddedAll(t: seq<Entry>, rm: Rm, bypass: bool): (t': seq<Entry>)
    ensures |t'| == |t| && forall i :: 0 <= i < |t| ==> t'[i] == Added(t[i], rm, bypass)
  {
    seq(|t|, i requires 0 <= i < |t| => Added(t[i], rm, bypass))
  }

  function DeletedAll(t: seq<Entry>, rm: Rm, left: int): (t': seq<Entry>)
    ensures |t'| == |t| && forall i :: 0 <= i < |t| ==> t'[i] == Deleted(t[i], rm, left)
  {
    seq(|t|, i requires 0 <= i < |t| => Deleted(t[i], rm, left))
  }

  lemma DepsAddedStep(t: seq<Entry>, t': seq<Entry>, deps: set<(Rm, Rm)>, deps1: set<(Rm, Rm)>,
                      deps2: set<(Rm, Rm)>, n: nat)
    requires |t'| == |t| && PairsDistinct(t) && n < |t| && DepsAdded(t, t', deps, deps1, n)
    requires deps2 == deps1 + (if !t[n].rmSet && t'[n].rmSet && !t'[n].rxBypass then {Pair1(t[n])} else {})
                            + (if !t[n].rmSet && t'[n].rmSet then {Pair2(t[n])} else {})
    ensures DepsAdded(t, t', deps, deps2, n + 1)
  {}

  lemma DepsDeletedStep(t: seq<Entry>, t': seq<Entry>, deps: set<(Rm, Rm)>, deps1: set<(Rm, Rm)>,
                        deps2: set<(Rm, Rm)>, n: nat)
    requires |t'| == |t| && PairsDistinct(t) && n < |t| && DepsDeleted(t, t', deps, deps1, n)
    requires deps2 == deps1 - (if t[n].rmSet && !t'[n].rmSet && !t[n].rxBypass then {Pair1(t[n])} else {})
                            - (if t[n].rmSet && !t'[n].rmSet then {Pair2(t[n])} else {})
    ensures DepsDeleted(t, t', deps, deps2, n + 1)
  {}

  /** Adding to one entry keeps its dependencies right exactly if its bypass flag is the same. */
  lemma AddedEntryRightIff(e: Entry, rm: Rm, bypass: bool, in1: bool, in2: bool, in1': bool, in2': bool)
    requires (in1 <==> e.rmSet && !e.rxBypass) && (in2 <==> e.rmSet)
    requires var e' := Added(e, rm, bypass);
             && (in1' <==> in1 || (!e.rmSet && e'.rmSet && !e'.rxBypass))
             && (in2' <==> in2 || (!e.rmSet && e'.rmSet))
    ensures var e' := Added(e, rm, bypass);
            && (in2' <==> e'.rmSet)
            && ((in1' <==> e'.rmSet && !e'.rxBypass) <==> (e.producer1 == rm && e.rmSet ==> e.rxBypass == bypass))
  {}

  lemma DeletedEntryRight(e: Entry, rm: Rm, left: int, in1: bool, in2: bool, in1': bool, in2': bool)
    requires (in1 <==> e.rmSet && !e.rxBypass) && (in2 <==> e.rmSet)
    requires var e' := Deleted(e, rm, left);
             && (in1' <==> in1 && !(e.rmSet && !e'.rmSet && !e.rxBypass))
             && (in2' <==> in2 && !(e.rmSet && !e'.rmSet))
    ensures var e' := Deleted(e, rm, left); (in2' <==> e'.rmSet) && (in1' <==> e'.rmSet && !e'.rxBypass)
  {}

  /** The kernel's dependencies stay right exactly if the bypass flag does not change under a
      dependency that is set. */
  lemma AddKernelRightIff(t: seq<Entry>, deps: set<(Rm, Rm)>, deps': set<(Rm, Rm)>, rm: Rm, bypass: bool)
    requires KernelRight(t, deps) && DepsAdded(t, AddedAll(t, rm, bypass), deps, deps', |t|)
    ensures KernelRight(AddedAll(t, rm, bypass), deps') <==> Steady(t, rm, bypass)
  {
    if Steady(t, rm, bypass) {
      SteadyAddRight(t, deps, deps', rm, bypass);
    } else {
      var i :| 0 <= i < |t| && t[i].producer1 == rm && t[i].rmSet && t[i].rxBypass != bypass;
      AddedAtIff(t, deps, deps', rm, bypass, i);
    }
  }

  lemma SteadyAddRight(t: seq<Entry>, deps: set<(Rm, Rm)>, deps': set<(Rm, Rm)>, rm: Rm, bypass: bool)
    requires KernelRight(t, deps) && DepsAdded(t, AddedAll(t, rm, bypass), deps, deps', |t|)
    requires Steady(t, rm, bypass)
    ensures KernelRight(AddedAll(t, rm, bypass), deps')
  {
    var t' := AddedAll(t, rm, bypass);
    SamePairs(t, t', deps');
    forall i | 0 <= i < |t|
      ensures (Pair1(t'[i]) in deps' <==> t'[i].rmSet && !t'[i].rxBypass) && (Pair2(t'[i]) in deps' <==> t'[i].rmSet)
    {
      AddedAtIff(t, deps, deps', rm, bypass, i);
    }
  }

  lemma AddedAtIff(t: seq<Entry>, deps: set<(Rm, Rm)>, deps': set<(Rm, Rm)>, rm: Rm, bypass: bool, i: nat)
    requires KernelRight(t, deps) && DepsAdded(t, AddedAll(t, rm, bypass), deps, deps', |t|) && i < |t|
    ensures var e' := AddedAll(t, rm, bypass)[i];
            && (Pair2(e') in deps' <==> e'.rmSet)
            && ((Pair1(e') in deps' <==> e'.rmSet && !e'.rxBypass) <==>
                 (t[i].producer1 == rm && t[i].rmSet ==> t[i].rxBypass == bypass))
  {
    AddedEntryRightIff(t[i], rm, bypass, Pair1(t[i]) in deps, Pair2(t[i]) in deps, Pair1(t[i]) in deps',
                       Pair2(t[i]) in deps');
  }

  lemma SamePairs(t: seq<Entry>, t': seq<Entry>, deps: set<(Rm, Rm)>)
    requires |t'| == |t| && Listed(t, deps)
    requires forall i :: 0 <= i < |t| ==> Pair1(t'[i]) == Pair1(t[i]) && Pair2(t'[i]) == Pair2(t[i])
    ensures Listed(t', deps)
  {
    forall d | d in deps ensures exists i :: 0 <= i < |t'| && (d == Pair1(t'[i]) || d == Pair2(t'[i])) {
      var i :| 0 <= i < |t| && (d == Pair1(t[i]) || d == Pair2(t[i]));
      assert d == Pair1(t'[i]) || d == Pair2(t'[i]);
    }
  }

  lemma DeleteKernelRight(t: seq<Entry>, deps: set<(Rm, Rm)>, deps': set<(Rm, Rm)>, rm: Rm, left: int)
    requires KernelRight(t, deps) && DepsDeleted(t, DeletedAll(t, rm, left), deps, deps', |t|)
    ensures KernelRight(DeletedAll(t, rm, left), deps')
  {
    var t' := DeletedAll(t, rm, left);
    SamePairs(t, t', deps');
    forall i | 0 <= i < |t|
      ensures Pair1(t'[i]) in deps' <==> t'[i].rmSet && !t'[i].rxBypass
      ensures Pair2(t'[i]) in deps' <==> t'[i].rmSet
    {
      DeletedEntryRight(t[i], rm, left, Pair1(t[i]) in deps, Pair2(t[i]) in deps, Pair1(t[i]) in deps',
                        Pair2(t[i]) in deps');
    }
  }

  lemma PairsStayDistinct(t: seq<Entry>, t': seq<Entry>)
    requires PairsDistinct(t) && |t'| == |t|
    requires forall i :: 0 <= i < |t| ==> Pair1(t'[i]) == Pair1(t[i]) && Pair2(t'[i]) == Pair2(t[i])
    ensures PairsDistinct(t')
  {}

  // ---------------------------------------------------------------- the table after a run of calls

  ghost predicate AllDown(t: seq<Entry>) {
    forall i :: 0 <= i < |t| ==>
      t[i] == Down(t[i].producer1, t[i].consumer1, t[i].producer2, t[i].consumer2)
  }

  /** The table after the calls; a deletion looks at how many users of the modem consumer it leaves. */
  function TableAfter(t: seq<Entry>, calls: seq<Call>): (t': seq<Entry>)
    ensures |t'| == |t|
    decreases |calls|
  {
    if calls == [] then t
    else
      var t1 := TableAfter(t, calls[..|calls| - 1]);
      match calls[|calls| - 1]
      case Add(rm, bypass) => AddedAll(t1, rm, bypass)
      case Del(rm) => DeletedAll(t1, rm, Users(calls, Q6Cons))
  }

  lemma {:induction false} SamePairsAfter(t: seq<Entry>, calls: seq<Call>)
    ensures forall i :: 0 <= i < |t| ==>
              Pair1(TableAfter(t, calls)[i]) == Pair1(t[i]) && Pair2(TableAfter(t, calls)[i]) == Pair2(t[i])
    decreases |calls|
  {
    if calls != [] { SamePairsAfter(t, calls[..|calls| - 1]); }
  }

  predicate SetWhileBoth(e: Entry) {
    e.rmSet <==> e.producer1Up && e.consumer1Up
  }

  /** In every run an entry is set exactly while its flags say that both its ends are up. */
  lemma {:induction false} SetWhileBothUp(t: seq<Entry>, calls: seq<Call>)
    requires AllDown(t)
    ensures forall i :: 0 <= i < |t| ==> SetWhileBoth(TableAfter(t, calls)[i])
    decreases |calls|
  {
    if calls != [] {
      var t1 := TableAfter(t, calls[..|calls| - 1]);
      SetWhileBothUp(t, calls[..|calls| - 1]);
      forall i | 0 <= i < |t| ensures SetWhileBoth(TableAfter(t, calls)[i]) {
        assert SetWhileBoth(t1[i]);
      }
    }
  }

  /** The modem consumer is not deleted with more than two users, and not added when it was deleted
      more often than added. */
  predicate CallFits(users: int, c: Call) {
    && (c == Del(Q6Cons) ==> users <= 2)
    && (c.Add? && c.rm == Q6Cons ==> users >= 0)
  }

  ghost predicate CallsFit(calls: seq<Call>) {
    forall n :: 0 <= n < |calls| ==> CallFits(Users(calls[..n], Q6Cons), calls[n])
  }

  lemma {:induction false} FitBefore(calls: seq<Call>, n: nat)
    requires n <= |calls| && CallsFit(calls)
    ensures CallsFit(calls[..n])
  {
    assert forall m :: 0 <= m < n ==> calls[..n][m] == calls[m] && calls[..n][..m] == calls[..m];
  }

  /** A call keeps an entry right exactly if the call fits, or the entry is not one for the modem
      consumer. */
  lemma {:induction false} AddedEntryRight(e: Entry, calls: seq<Call>, rm: Rm, bypass: bool)
    requires EntryRight(e, calls)
    ensures EntryRight(Added(e, rm, bypass), calls + [Add(rm, bypass)]) <==>
            (e.consumer1 == Q6Cons ==> CallFits(Users(calls, Q6Cons), Add(rm, bypass)))
  {
    assert (calls + [Add(rm, bypass)])[..|calls|] == calls;
  }

  lemma {:induction false} DeletedEntryRightIff(e: Entry, calls: seq<Call>, rm: Rm)
    requires EntryRight(e, calls)
    ensures EntryRight(Deleted(e, rm, Users(calls + [Del(rm)], Q6Cons)), calls + [Del(rm)]) <==>
            (e.consumer1 == Q6Cons ==> CallFits(Users(calls, Q6Cons), Del(rm)))
  {
    assert (calls + [Del(rm)])[..|calls|] == calls;
  }

  lemma {:induction false} CallEntryRightIff(t: seq<Entry>, calls: seq<Call>, c: Call, i: nat)
    requires i < |t| && EntryRight(TableAfter(t, calls)[i], calls)
    ensures EntryRight(TableAfter(t, calls + [c])[i], calls + [c]) <==>
            (t[i].consumer1 == Q6Cons ==> CallFits(Users(calls, Q6Cons), c))
  {
    var e := TableAfter(t, calls)[i];
    assert (calls + [c])[..|calls|] == calls;
    SamePairsAfter(t, calls);
    assert Pair1(e) == Pair1(t[i]);
    match c
    case Add(rm, bypass) => AddedEntryRight(e, calls, rm, bypass);
    case Del(rm) => DeletedEntryRightIff(e, calls, rm);
  }

  /** One call keeps the table right exactly if it fits. */
  lemma {:induction false} CallRightIff(t: seq<Entry>, calls: seq<Call>, c: Call)
    requires TableRight(TableAfter(t, calls), calls)
    requires exists i :: 0 <= i < |t| && t[i].consumer1 == Q6Cons
    ensures TableRight(TableAfter(t, calls + [c]), calls + [c]) <==> CallFits(Users(calls, Q6Cons), c)
  {
    forall i | 0 <= i < |t|
      ensures EntryRight(TableAfter(t, calls + [c])[i], calls + [c]) <==>
              (t[i].consumer1 == Q6Cons ==> CallFits(Users(calls, Q6Cons), c))
    {
      CallEntryRightIff(t, calls, c, i);
    }
  }

  lemma {:induction false} TableStaysRight(t: seq<Entry>, calls: seq<Call>)
    requires AllDown(t) && CallsFit(calls)
    ensures TableRight(TableAfter(t, calls), calls)
    decreases |calls|
  {
    if calls != [] {
      var before, c := calls[..|calls| - 1], calls[|calls| - 1];
      assert calls == before + [c];
      FitBefore(calls, |before|);
      TableStaysRight(t, before);
      forall i | 0 <= i < |t| ensures EntryRight(TableAfter(t, calls)[i], calls) {
        CallEntryRightIff(t, before, c, i);
      }
    }
  }

  /** In every run the table is right after every call if and only if the modem consumer is never
      deleted with more than two users, and never added when it was deleted more often than added. */
  lemma {:induction false} RunTableRightIff(t: seq<Entry>, calls: seq<Call>)
    requires AllDown(t) && exists i :: 0 <= i < |t| && t[i].consumer1 == Q6Cons
    ensures CallsFit(calls) <==>
            forall n :: 0 <= n <= |calls| ==> TableRight(TableAfter(t, calls[..n]), calls[..n])
  {
    if CallsFit(calls) {
      forall n | 0 <= n <= |calls| ensures TableRight(TableAfter(t, calls[..n]), calls[..n]) {
        FitBefore(calls, n);
        TableStaysRight(t, calls[..n]);
      }
    } else {
      var n :| 0 <= n < |calls| && !CallFits(Users(calls[..n], Q6Cons), calls[n]);
      assert calls[..n + 1] == calls[..n] + [calls[n]];
      if TableRight(TableAfter(t, calls[..n]), calls[..n]) {
        CallRightIff(t, calls[..n], calls[n]);
        assert !TableRight(TableAfter(t, calls[..n + 1]), calls[..n + 1]);
      }
    }
  }

  /** Three users, one of which leaves: the modem consumer is taken down although two are left. */
  lemma {:induction false} ThreeUsersBreak()
    ensures var calls := [Add(Q6Cons, false), Add(Q6Cons, false), Add(Q6Cons, false), Del(Q6Cons)];
            && Users(calls, Q6Cons) == 2 && !TableAfter(IPACM_TABLE, calls)[0].consumer1Up
            && !TableRight(TableAfter(IPACM_TABLE, calls), calls)
  {
    var c := Add(Q6Cons, false);
    var calls := [c, c, c, Del(Q6Cons)];
    assert [c][..0] == [] && [c, c][..1] == [c] && [c, c, c][..2] == [c, c] && calls[..3] == [c, c, c];
    assert Users([c], Q6Cons) == 1;
    assert Users([c, c], Q6Cons) == 2;
    assert Users([c, c, c], Q6Cons) == 3;
    SamePairsAfter(IPACM_TABLE, calls[..3]);
    SamePairsAfter(IPACM_TABLE, calls);
    assert Pair1(TableAfter(IPACM_TABLE, calls[..3])[0]) == Pair1(IPACM_TABLE[0]);
    assert !EntryRight(TableAfter(IPACM_TABLE, calls)[0], calls);
  }

  /** A deletion before the first addition: the modem consumer is up although nobody uses it. */
  lemma {:induction false} EarlyDeletionBreaks()
    ensures var calls := [Del(Q6Cons), Add(Q6Cons, false)];
            && Users(calls, Q6Cons) == 0 && TableAfter(IPACM_TABLE, calls)[0].consumer1Up
            && !TableRight(TableAfter(IPACM_TABLE, calls), calls)
  {
    var c := Del(Q6Cons);
    var calls := [c, Add(Q6Cons, false)];
    assert calls[..1] == [c] && [c][..0] == [];
    assert Users([c], Q6Cons) == -1;
    SamePairsAfter(IPACM_TABLE, [c]);
    assert Pair1(TableAfter(IPACM_TABLE, [c])[0]) == Pair1(IPACM_TABLE[0]);
    assert !EntryRight(TableAfter(IPACM_TABLE, calls)[0], calls);
  }

  // ---------------------------------------------------------------- the kernel after a run of calls

  /** The dependencies that come up, and go down, when the entries `t` become `t'`. */
  function Opened(t: seq<Entry>, t': seq<Entry>): set<(Rm, Rm)>
    requires |t'| == |t|
  {
    (set i | 0 <= i < |t| && !t[i].rmSet && t'[i].rmSet && !t'[i].rxBypass :: Pair1(t[i]))
    + (set i | 0 <= i < |t| && !t[i].rmSet && t'[i].rmSet :: Pair2(t[i]))
  }

  function Closed(t: seq<Entry>, t': seq<Entry>): set<(Rm, Rm)>
    requires |t'| == |t|
  {
    (set i | 0 <= i < |t| && t[i].rmSet && !t'[i].rmSet && !t[i].rxBypass :: Pair1(t[i]))
    + (set i | 0 <= i < |t| && t[i].rmSet && !t'[i].rmSet :: Pair2(t[i]))
  }

  /** The kernel's dependencies after the calls. */
  function DepsAfter(t: seq<Entry>, calls: seq<Call>): set<(Rm, Rm)>
    decreases |calls|
  {
    if calls == [] then {}
    else
      var before := calls[..|calls| - 1];
      if calls[|calls| - 1].Add?
      then DepsAfter(t, before) + Opened(TableAfter(t, before), TableAfter(t, calls))
      else DepsAfter(t, before) - Closed(TableAfter(t, before), TableAfter(t, calls))
  }

  lemma {:induction false} OpenedIs(t: seq<Entry>, t': seq<Entry>, deps: set<(Rm, Rm)>)
    requires |t'| == |t| && PairsDistinct(t) && Listed(t, deps)
    ensures DepsAdded(t, t', deps, deps + Opened(t, t'), |t|)
  {}

  lemma {:induction false} ClosedIs(t: seq<Entry>, t': seq<Entry>, deps: set<(Rm, Rm)>)
    requires |t'| == |t| && PairsDistinct(t) && Listed(t, deps)
    ensures DepsDeleted(t, t', deps, deps - Closed(t, t'), |t|)
  {}

  lemma DepsAddedOnce(t: seq<Entry>, t': seq<Entry>, deps: set<(Rm, Rm)>, deps1: set<(Rm, Rm)>,
                      deps2: set<(Rm, Rm)>)
    requires |t'| == |t| && DepsAdded(t, t', deps, deps1, |t|) && DepsAdded(t, t', deps, deps2, |t|)
    ensures deps1 == deps2
  {}

  lemma DepsDeletedOnce(t: seq<Entry>, t': seq<Entry>, deps: set<(Rm, Rm)>, deps1: set<(Rm, Rm)>,
                        deps2: set<(Rm, Rm)>)
    requires |t'| == |t| && DepsDeleted(t, t', deps, deps1, |t|) && DepsDeleted(t, t', deps, deps2, |t|)
    ensures deps1 == deps2
  {}

  lemma {:induction false} PairsDistinctAfter(t: seq<Entry>, calls: seq<Call>)
    requires PairsDistinct(t)
    ensures PairsDistinct(TableAfter(t, calls))
  {
    SamePairsAfter(t, calls);
    PairsStayDistinct(t, TableAfter(t, calls));
  }

  lemma {:induction false} DepsListed(t: seq<Entry>, calls: seq<Call>)
    requires PairsDistinct(t)
    ensures Listed(TableAfter(t, calls), DepsAfter(t, calls))
    decreases |calls|
  {
    if calls != [] {
      var before := calls[..|calls| - 1];
      var t1, t2 := TableAfter(t, before), TableAfter(t, calls);
      DepsListed(t, before);
      PairsDistinctAfter(t, before);
      OpenedIs(t1, t2, DepsAfter(t, before));
      ClosedIs(t1, t2, DepsAfter(t, before));
      SamePairsAfter(t, before);
      SamePairsAfter(t, calls);
      SamePairs(t1, t2, DepsAfter(t, calls));
    }
  }

  /** The table, the kernel and the count are as the calls have left them. */
  ghost predicate AsCalled(t: seq<Entry>, calls: seq<Call>, tbl: seq<Entry>, deps: set<(Rm, Rm)>, users: int) {
    && PairsDistinct(t)
    && tbl == TableAfter(t, calls)
    && deps == DepsAfter(t, calls)
    && users == Users(calls, Q6Cons)
  }

  lemma {:induction false} AsCalledIsListed(t: seq<Entry>, calls: seq<Call>, tbl: seq<Entry>, deps: set<(Rm, Rm)>,
                                            users: int)
    requires AsCalled(t, calls, tbl, deps, users)
    ensures PairsDistinct(tbl) && Listed(tbl, deps)
  {
    PairsDistinctAfter(t, calls);
    DepsListed(t, calls);
  }

  lemma {:induction false} OneMoreAdd(t: seq<Entry>, calls: seq<Call>, tbl: seq<Entry>, deps: set<(Rm, Rm)>,
                                      users: int, rm: Rm, bypass: bool, deps': set<(Rm, Rm)>)
    requires AsCalled(t, calls, tbl, deps, users)
    requires DepsAdded(tbl, AddedAll(tbl, rm, bypass), deps, deps', |tbl|)
    ensures AsCalled(t, calls + [Add(rm, bypass)], AddedAll(tbl, rm, bypass), deps',
                     users + if rm == Q6Cons then 1 else 0)
  {
    var run := calls + [Add(rm, bypass)];
    assert run[..|calls|] == calls;
    AsCalledIsListed(t, calls, tbl, deps, users);
    OpenedIs(tbl, TableAfter(t, run), deps);
    DepsAddedOnce(tbl, TableAfter(t, run), deps, deps', DepsAfter(t, run));
  }

  lemma {:induction false} OneMoreDel(t: seq<Entry>, calls: seq<Call>, tbl: seq<Entry>, deps: set<(Rm, Rm)>,
                                      users: int, rm: Rm, deps': set<(Rm, Rm)>)
    requires AsCalled(t, calls, tbl, deps, users)
    requires var left := users - if rm == Q6Cons then 1 else 0;
             DepsDeleted(tbl, DeletedAll(tbl, rm, left), deps, deps', |tbl|)
    ensures var left := users - if rm == Q6Cons then 1 else 0;
            AsCalled(t, calls + [Del(rm)], DeletedAll(tbl, rm, left), deps', left)
  {
    var run := calls + [Del(rm)];
    assert run[..|calls|] == calls;
    AsCalledIsListed(t, calls, tbl, deps, users);
    ClosedIs(tbl, TableAfter(t, run), deps);
    DepsDeletedOnce(tbl, TableAfter(t, run), deps, deps', DepsAfter(t, run));
  }

  /** No call of the run changes the bypass flag of a dependency that is set. */
  ghost predicate AlwaysSteady(t: seq<Entry>, calls: seq<Call>) {
    forall n :: 0 <= n < |calls| && calls[n].Add? ==> Steady(TableAfter(t, calls[..n]), calls[n].rm, calls[n].bypass)
  }

  /** One call keeps the kernel right exactly if it does not change the flag of a set dependency. */
  lemma {:induction false} CallKernelRightIff(t: seq<Entry>, calls: seq<Call>, c: Call)
    requires PairsDistinct(t) && KernelRight(TableAfter(t, calls), DepsAfter(t, calls))
    ensures KernelRight(TableAfter(t, calls + [c]), DepsAfter(t, calls + [c])) <==>
            (c.Add? ==> Steady(TableAfter(t, calls), c.rm, c.bypass))
  {
    var run, t1, deps := calls + [c], TableAfter(t, calls), DepsAfter(t, calls);
    assert run[..|calls|] == calls && run[|calls|] == c;
    PairsDistinctAfter(t, calls);
    DepsListed(t, calls);
    match c
    case Add(rm, bypass) =>
      OpenedIs(t1, AddedAll(t1, rm, bypass), deps);
      AddKernelRightIff(t1, deps, DepsAfter(t, run), rm, bypass);
    case Del(rm) =>
      ClosedIs(t1, DeletedAll(t1, rm, Users(run, Q6Cons)), deps);
      DeleteKernelRight(t1, deps, DepsAfter(t, run), rm, Users(run, Q6Cons));
  }

  lemma {:induction false} KernelStaysRight(t: seq<Entry>, calls: seq<Call>)
    requires PairsDistinct(t) && AllDown(t) && AlwaysSteady(t, calls)
    ensures KernelRight(TableAfter(t, calls), DepsAfter(t, calls))
    decreases |calls|
  {
    if calls != [] {
      var before := calls[..|calls| - 1];
      assert calls == before + [calls[|before|]];
      SteadyBefore(t, calls, |before|);
      KernelStaysRight(t, before);
      CallKernelRightIff(t, before, calls[|before|]);
    }
  }

  lemma {:induction false} SteadyBefore(t: seq<Entry>, calls: seq<Call>, n: nat)
    requires n <= |calls| && AlwaysSteady(t, calls)
    ensures AlwaysSteady(t, calls[..n])
  {
    assert forall m :: 0 <= m < n ==> calls[..n][m] == calls[m] && calls[..n][..m] == calls[..m];
  }

  /** In every run the kernel is right after every call if and only if no call changes the bypass flag
      of a dependency that is set. */
  lemma {:induction false} RunKernelRightIff(t: seq<Entry>, calls: seq<Call>)
    requires PairsDistinct(t) && AllDown(t)
    ensures AlwaysSteady(t, calls) <==>
            forall n :: 0 <= n <= |calls| ==> KernelRight(TableAfter(t, calls[..n]), DepsAfter(t, calls[..n]))
  {
    if AlwaysSteady(t, calls) {
      forall n | 0 <= n <= |calls| ensures KernelRight(TableAfter(t, calls[..n]), DepsAfter(t, calls[..n])) {
        SteadyBefore(t, calls, n);
        KernelStaysRight(t, calls[..n]);
      }
    } else {
      var n :| 0 <= n < |calls| && calls[n].Add? && !Steady(TableAfter(t, calls[..n]), calls[n].rm, calls[n].bypass);
      assert calls[..n + 1] == calls[..n] + [calls[n]];
      if KernelRight(TableAfter(t, calls[..n]), DepsAfter(t, calls[..n])) {
        CallKernelRightIff(t, calls[..n], calls[n]);
        assert !KernelRight(TableAfter(t, calls[..n + 1]), DepsAfter(t, calls[..n + 1]));
      }
    }
  }

  /** A producer always comes up with the same bypass flag. */
  ghost predicate OneFlag(calls: seq<Call>) {
    forall i, j :: 0 <= i < j < |calls| && calls[i].Add? && calls[j].Add? && calls[i].rm == calls[j].rm ==>
      calls[i].bypass == calls[j].bypass
  }

  /** The flag of an entry whose producer is up is one that the producer came up with. */
  lemma {:induction false} FlagWasGiven(t: seq<Entry>, calls: seq<Call>, k: nat)
    requires AllDown(t) && k < |t| && TableAfter(t, calls)[k].producer1Up
    ensures Add(t[k].producer1, TableAfter(t, calls)[k].rxBypass) in calls
    decreases |calls|
  {
    var before, c := calls[..|calls| - 1], calls[|calls| - 1];
    SamePairsAfter(t, before);
    assert Pair1(TableAfter(t, before)[k]) == Pair1(t[k]);
    if c.rm == t[k].producer1 {
      assert c == Add(t[k].producer1, TableAfter(t, calls)[k].rxBypass);
    } else {
      FlagWasGiven(t, before, k);
    }
  }

  lemma {:induction false} OneFlagIsSteady(t: seq<Entry>, calls: seq<Call>)
    requires AllDown(t) && OneFlag(calls)
    ensures AlwaysSteady(t, calls)
  {
    forall n | 0 <= n < |calls| && calls[n].Add?
      ensures Steady(TableAfter(t, calls[..n]), calls[n].rm, calls[n].bypass)
    {
      var t' := TableAfter(t, calls[..n]);
      SetWhileBothUp(t, calls[..n]);
      SamePairsAfter(t, calls[..n]);
      forall k | 0 <= k < |t| && t'[k].producer1 == calls[n].rm && t'[k].rmSet
        ensures t'[k].rxBypass == calls[n].bypass
      {
        assert Pair1(t'[k]) == Pair1(t[k]) && SetWhileBoth(t'[k]);
        FlagWasGiven(t, calls[..n], k);
        var m :| 0 <= m < n && calls[..n][m] == Add(t[k].producer1, t'[k].rxBypass);
      }
    }
  }

  /** After any run in which every producer keeps its bypass flag and the calls for the modem consumer
      fit, the kernel has exactly the dependencies whose two ends the calls have
      brought up, the one from the producer unless it bypasses the hardware. */
  lemma {:induction false} RunRight(t: seq<Entry>, calls: seq<Call>, k: nat)
    requires PairsDistinct(t) && AllDown(t) && OneFlag(calls) && CallsFit(calls) && k < |t|
    ensures var up := LastAdded(calls, t[k].producer1) && Up(calls, t[k].consumer1);
            && ((t[k].producer2, t[k].consumer2) in DepsAfter(t, calls) <==> up)
            && ((t[k].producer1, t[k].consumer1) in DepsAfter(t, calls) <==> up && Add(t[k].producer1, false) in calls)
    ensures Listed(t, DepsAfter(t, calls))
  {
    OneFlagIsSteady(t, calls);
    KernelStaysRight(t, calls);
    TableStaysRight(t, calls);
    SamePairsAfter(t, calls);
    var t' := TableAfter(t, calls);
    SamePairs(t', t, DepsAfter(t, calls));
    assert Pair1(t'[k]) == Pair1(t[k]) && Pair2(t'[k]) == Pair2(t[k]) && EntryRight(t'[k], calls);
    if t'[k].producer1Up {
      FlagWasGiven(t, calls, k);
      if Add(t[k].producer1, false) in calls { FlagsAgree(calls, t[k].producer1, t'[k].rxBypass); }
    }
  }

  lemma {:induction false} FlagsAgree(calls: seq<Call>, rm: Rm, bypass: bool)
    requires OneFlag(calls) && Add(rm, bypass) in calls && Add(rm, false) in calls
    ensures !bypass
  {
    var i :| 0 <= i < |calls| && calls[i] == Add(rm, bypass);
    var j :| 0 <= j < |calls| && calls[j] == Add(rm, false);
  }

  class RmConfig {
    const tbl: array<Entry>
    var a2Check: int
    // the kernel
    var deps: set<(Rm, Rm)>
    // the table at first, and the calls so far
    ghost const initial: seq<Entry>
    ghost var calls: seq<Call>

    /** Everything is as the calls have left it. */
    ghost predicate Valid()
      reads this, tbl
    {
      AsCalled(initial, calls, tbl[..], deps, a2Check)
    }

    constructor (table: seq<Entry>)
      requires PairsDistinct(table) && AllDown(table)
      ensures fresh(tbl) && Valid() && initial == table && calls == []
    {
      tbl := new Entry[|table|](i requires 0 <= i < |table| => table[i]);
      a2Check := 0;
      deps := {};
      initial := table;
      calls := [];
      new;
      assert tbl[..] == table;
    }

    method AddDependency(d: (Rm, Rm))
      modifies this`deps
      ensures deps == old(deps) + {d}
    {
      deps := deps + {d};
    }

    method DelDependency(d: (Rm, Rm))
      modifies this`deps
      ensures deps == old(deps) - {d}
    {
      deps := deps - {d};
    }

    /** Sets up the dependencies of entry `i` in both directions. */
    method SetUp(i: nat)
      requires i < tbl.Length
      modifies this`deps, tbl
      ensures tbl[..] == old(tbl[..])[i := old(tbl[i]).(rmSet := true)]
      ensures deps == old(deps) + (if old(tbl[i]).rxBypass then {} else {Pair1(old(tbl[i]))}) + {Pair2(old(tbl[i]))}
    {
      if tbl[i].rxBypass {
      } else {
        AddDependency(Pair1(tbl[i]));
      }
      AddDependency(Pair2(tbl[i]));
      tbl[i] := tbl[i].(rmSet := true);
    }

    /** Deletes the dependencies of entry `i` in both directions. */
    method TearDown(i: nat)
      requires i < tbl.Length
      modifies this`deps, tbl
      ensures tbl[..] == old(tbl[..])[i := old(tbl[i]).(rmSet := false)]
      ensures deps == old(deps) - (if old(tbl[i]).rxBypass then {} else {Pair1(old(tbl[i]))}) - {Pair2(old(tbl[i]))}
    {
      tbl[i] := tbl[i].(rmSet := false);
      if tbl[i].rxBypass {
      } else {
        DelDependency(Pair1(tbl[i]));
      }
      DelDependency(Pair2(tbl[i]));
    }

    /** The body of the loop in AddRmDepend. */
    method AddToEntry(i: nat, rm: Rm, bypass: bool)
      requires i < tbl.Length
      modifies this`deps, tbl
      ensures tbl[..] == old(tbl[..])[i := Added(old(tbl[i]), rm, bypass)]
      ensures var e, e' := old(tbl[i]), tbl[i];
              deps == old(deps) + (if !e.rmSet && e'.rmSet && !e'.rxBypass then {Pair1(e)} else {})
                                + (if !e.rmSet && e'.rmSet then {Pair2(e)} else {})
    {
      if rm == tbl[i].producer1 {
        tbl[i] := tbl[i].(producer1Up := true);
        tbl[i] := tbl[i].(rxBypass := bypass);
        if tbl[i].consumer1Up && !tbl[i].rmSet {
          SetUp(i);
        }
      }
      if rm == tbl[i].consumer1 {
        tbl[i] := tbl[i].(consumer1Up := true);
        if tbl[i].producer1Up && !tbl[i].rmSet {
          SetUp(i);
        }
      }
    }

    /** The body of the loop in DelRmDepend. */
    method DelFromEntry(i: nat, rm: Rm)
      requires i < tbl.Length
      modifies this`deps, tbl
      ensures tbl[..] == old(tbl[..])[i := Deleted(old(tbl[i]), rm, a2Check)]
      ensures var e, e' := old(tbl[i]), tbl[i];
              deps == old(deps) - (if e.rmSet && !e'.rmSet && !e.rxBypass then {Pair1(e)} else {})
                                - (if e.rmSet && !e'.rmSet then {Pair2(e)} else {})
    {
      if rm == tbl[i].producer1 {
        DelProducer(i);
      }
      if rm == tbl[i].consumer1 {
        DelConsumer(i);
      }
    }

    method DelProducer(i: nat)
      requires i < tbl.Length
      modifies this`deps, tbl
      ensures var e := old(tbl[i]);
              && tbl[..] == old(tbl[..])[i := e.(rmSet := false, producer1Up := false, rxBypass := false)]
              && deps == old(deps) - (if e.rmSet && !e.rxBypass then {Pair1(e)} else {})
                                   - (if e.rmSet then {Pair2(e)} else {})
    {
      if tbl[i].rmSet {
        TearDown(i);
      }
      tbl[i] := tbl[i].(producer1Up := false);
      tbl[i] := tbl[i].(rxBypass := false);
    }

    method DelConsumer(i: nat)
      requires i < tbl.Length
      modifies this`deps, tbl
      ensures var e := old(tbl[i]);
              if e.consumer1 == Q6Cons && a2Check == 1
              then tbl[..] == old(tbl[..]) && deps == old(deps)
              else
                && tbl[..] == old(tbl[..])[i := e.(rmSet := false, consumer1Up := false)]
                && deps == old(deps) - (if e.rmSet && !e.rxBypass then {Pair1(e)} else {})
                                     - (if e.rmSet then {Pair2(e)} else {})
    {
      if tbl[i].consumer1 == Q6Cons && a2Check == 1 {
        return;
      }
      if tbl[i].rmSet {
        TearDown(i);
      }
      tbl[i] := tbl[i].(consumer1Up := false);
    }

    /** A resource comes up. */
    method AddRmDepend(rm: Rm, bypass: bool)
      requires Valid()
      modifies this`deps, this`a2Check, this`calls, tbl
      ensures Valid() && calls == old(calls) + [Add(rm, bypass)]
      ensures tbl[..] == AddedAll(old(tbl[..]), rm, bypass)
      ensures old(KernelRight(tbl[..], deps)) ==>
        (KernelRight(tbl[..], deps) <==> old(Steady(tbl[..], rm, bypass)))
    {
      ghost var t0, deps0, users := tbl[..], deps, a2Check;
      AsCalledIsListed(initial, calls, t0, deps0, users);
      if rm == Q6Cons {
        a2Check := a2Check + 1;
      }
      AddToAll(rm, bypass);
      OneMoreAdd(initial, calls, t0, deps0, users, rm, bypass, deps);
      calls := calls + [Add(rm, bypass)];
      if KernelRight(t0, deps0) {
        AddKernelRightIff(t0, deps0, deps, rm, bypass);
      }
    }

    method AddToAll(rm: Rm, bypass: bool)
      requires PairsDistinct(tbl[..])
      modifies this`deps, tbl
      ensures tbl[..] == AddedAll(old(tbl[..]), rm, bypass)
      ensures Listed(old(tbl[..]), old(deps)) ==>
        DepsAdded(old(tbl[..]), tbl[..], old(deps), deps, tbl.Length)
    {
      ghost var t0, deps0 := tbl[..], deps;
      ghost var t1 := AddedAll(t0, rm, bypass);
      for i := 0 to tbl.Length
        invariant forall k :: 0 <= k < i ==> tbl[k] == t1[k]
        invariant forall k :: i <= k < tbl.Length ==> tbl[k] == t0[k]
        invariant Listed(t0, deps0) ==> DepsAdded(t0, t1, deps0, deps, i)
      {
        ghost var deps1 := deps;
        AddToEntry(i, rm, bypass);
        if Listed(t0, deps0) { DepsAddedStep(t0, t1, deps0, deps1, deps, i); }
      }
      assert tbl[..] == t1;
    }

    /** A resource goes down. */
    method DelRmDepend(rm: Rm)
      requires Valid()
      modifies this`deps, this`a2Check, this`calls, tbl
      ensures Valid() && calls == old(calls) + [Del(rm)]
      ensures tbl[..] == DeletedAll(old(tbl[..]), rm, a2Check)
      ensures old(KernelRight(tbl[..], deps)) ==> KernelRight(tbl[..], deps)
    {
      ghost var t0, deps0, users := tbl[..], deps, a2Check;
      AsCalledIsListed(initial, calls, t0, deps0, users);
      if rm == Q6Cons {
        a2Check := a2Check - 1;
      }
      DelFromAll(rm);
      OneMoreDel(initial, calls, t0, deps0, users, rm, deps);
      calls := calls + [Del(rm)];
    }

    /** Any run of calls. */
    method PerformAll(run: seq<Call>)
      requires Valid()
      modifies this`deps, this`a2Check, this`calls, tbl
      ensures Valid() && calls == old(calls) + run
    {
      for i := 0 to |run|
        invariant Valid() && calls == old(calls) + run[..i]
      {
        assert run[..i + 1] == run[..i] + [run[i]];
        match run[i]
        case Add(rm, bypass) => AddRmDepend(rm, bypass);
        case Del(rm) => DelRmDepend(rm);
      }
      assert run[..|run|] == run;
    }

    method DelFromAll(rm: Rm)
      requires PairsDistinct(tbl[..])
      modifies this`deps, tbl
      ensures tbl[..] == DeletedAll(old(tbl[..]), rm, a2Check)
      ensures Listed(old(tbl[..]), old(deps)) ==>
        DepsDeleted(old(tbl[..]), tbl[..], old(deps), deps, tbl.Length)
      ensures old(KernelRight(tbl[..], deps)) ==> KernelRight(tbl[..], deps)
    {
      ghost var t0, deps0 := tbl[..], deps;
      ghost var t1 := DeletedAll(t0, rm, a2Check);
      for i := 0 to tbl.Length
        invariant forall k :: 0 <= k < i ==> tbl[k] == t1[k]
        invariant forall k :: i <= k < tbl.Length ==> tbl[k] == t0[k]
        invariant Listed(t0, deps0) ==> DepsDeleted(t0, t1, deps0, deps, i)
      {
        ghost var deps1 := deps;
        DelFromEntry(i, rm);
        if Listed(t0, deps0) { DepsDeletedStep(t0, t1, deps0, deps1, deps, i); }
      }
      assert tbl[..] == t1;
      if KernelRight(t0, deps0) { DeleteKernelRight(t0, deps0, deps, rm, a2Check); }
    }
  }

  /** So after any run of calls on a new table the kernel is as `RunRight` says. */
  method RunNew(table: seq<Entry>, run: seq<Call>) returns (c: RmConfig)
    requires PairsDistinct(table) && AllDown(table)
    ensures fresh(c) && fresh(c.tbl) && c.Valid() && c.calls == run && c.initial == table
    ensures CallsFit(run) ==> TableRight(c.tbl[..], run)
    ensures OneFlag(run) ==> KernelRight(c.tbl[..], c.deps)
  {
    c := new RmConfig(table);
    c.PerformAll(run);
    if CallsFit(run) { TableStaysRight(table, run); }
    if OneFlag(run) {
      OneFlagIsSteady(table, run);
      KernelStaysRight(table, run);
    }
  }

  lemma {:induction false} WlanBecomesSet()
    ensures OneFlag([Add(WlanProd, false), Add(Q6Cons, false)])
    ensures !Steady(TableAfter(IPACM_TABLE, [Add(WlanProd, false), Add(Q6Cons, false)]), WlanProd, true)
  {
    var a, b := Add(WlanProd, false), Add(Q6Cons, false);
    assert [a, b][..1] == [a] && [a][..0] == [];
    var e := IPACM_TABLE[0];
    assert TableAfter(IPACM_TABLE, [a])[0] == Added(e, WlanProd, false);
    assert TableAfter(IPACM_TABLE, [a, b])[0] == Added(Added(e, WlanProd, false), Q6Cons, false);
  }

  /** A call that changes the flag of a set dependency, after a run that changed none. */
  method FlagFlips(table: seq<Entry>, run: seq<Call>, rm: Rm, bypass: bool) returns (c: RmConfig)
    requires PairsDistinct(table) && AllDown(table) && OneFlag(run)
    requires !Steady(TableAfter(table, run), rm, bypass)
    ensures fresh(c) && c.Valid() && c.initial == table && c.calls == run + [Add(rm, bypass)]
    ensures !KernelRight(c.tbl[..], c.deps)
  {
    c := RunNew(table, run);
    c.AddRmDepend(rm, bypass);
  }

  /** A producer that comes up a second time, now bypassing the hardware, leaves a dependency in the
      kernel that should not be there. */
  method BypassFlips() returns (c: RmConfig)
    ensures fresh(c) && c.Valid() && c.initial == IPACM_TABLE && !KernelRight(c.tbl[..], c.deps)
    ensures c.calls == [Add(WlanProd, false), Add(Q6Cons, false)] + [Add(WlanProd, true)]
  {
    IpacmTableIsDistinct();
    WlanBecomesSet();
    c := FlagFlips(IPACM_TABLE, [Add(WlanProd, false), Add(Q6Cons, false)], WlanProd, true);
  }
}
