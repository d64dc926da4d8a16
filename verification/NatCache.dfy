/** The NAT connection cache and the hardware NAT table it drives.  The cache is a fixed array
    of 5-tuples; the hardware is a table of rules under handles that it chooses, and it may
    refuse to add a rule. */
module NatCache {

  datatype NatEntry = NatEntry(
    privateIp: nat, privatePort: nat, targetIp: nat, targetPort: nat,
    publicIp: nat, publicPort: nat, protocol: nat, timestamp: nat,
    dstNat: bool, enabled: bool, ruleHdl: nat)

  datatype Rule = Rule(
    privateIp: nat, privatePort: nat, targetIp: nat, targetPort: nat, publicPort: nat, protocol: nat)

  datatype AlgPort = AlgPort(protocol: nat, port: nat)

  /** The hardware was asked to add a rule, and accepted or refused. */
  datatype Ask = Ask(rule: Rule, accepted: bool)

  const ZERO_ENTRY: NatEntry := NatEntry(0, 0, 0, 0, 0, 0, 0, 0, false, false, 0)
  const MAX_TEMP_ENTRIES: nat := 25

  function RuleOf(e: NatEntry): Rule {
    Rule(e.privateIp, e.privatePort, e.targetIp, e.targetPort, e.publicPort, e.protocol)
  }

  predicate SameTuple(a: NatEntry, b: NatEntry) {
    && a.privateIp == b.privateIp && a.targetIp == b.targetIp
    && a.privatePort == b.privatePort && a.targetPort == b.targetPort && a.protocol == b.protocol
  }

  function FiveTuple(e: NatEntry): (nat, nat, nat, nat, nat) {
    (e.privateIp, e.privatePort, e.targetIp, e.targetPort, e.protocol)
  }

  /** The 5-tuple is wholly zero: the slot is unused. */
  predicate Free(e: NatEntry) {
    SameTuple(e, ZERO_ENTRY)
  }

  /** The 5-tuple has no zero: what may be cached. */
  predicate Complete(e: NatEntry) {
    e.privateIp != 0 && e.targetIp != 0 && e.privatePort != 0 && e.targetPort != 0 && e.protocol != 0
  }

  function Count(c: seq<NatEntry>): nat {
    if c == [] then 0 else Count(c[..|c| - 1]) + if Free(c[|c| - 1]) then 0 else 1
  }

  lemma {:induction false} CountUpdate(c: seq<NatEntry>, i: nat, e: NatEntry)
    requires i < |c|
    ensures Count(c[i := e]) == Count(c) - (if Free(c[i]) then 0 else 1) + (if Free(e) then 0 else 1)
  {
    var m := |c| - 1;
    if i < m {
      CountUpdate(c[..m], i, e);
      assert c[i := e][..m] == c[..m][i := e];
    } else {
      assert c[i := e][..m] == c[..m];
    }
  }

  lemma {:induction false} CountFree(c: seq<NatEntry>)
    requires forall i :: 0 <= i < |c| ==> Free(c[i])
    ensures Count(c) == 0
  {
    if c != [] { CountFree(c[..|c| - 1]); }
  }

  // ---------------------------------------------------------------- invariant, on values

  /** Slots are wholly used or wholly unused, and no two used ones share a 5-tuple. */
  ghost predicate Shaped(c: seq<NatEntry>) {
    && (forall i :: 0 <= i < |c| ==> Free(c[i]) || Complete(c[i]))
    && (forall i, j :: 0 <= i < j < |c| && SameTuple(c[i], c[j]) ==> Free(c[i]))
    && (forall i :: 0 <= i < |c| && c[i].enabled ==> !Free(c[i]))
  }

  /** The hardware holds exactly the rules of the enabled slots, each under the slot's handle;
      `owner` names the slot of each handle. */
  ghost predicate InSync(c: seq<NatEntry>, rules: map<nat, Rule>, owner: map<nat, nat>) {
    && (forall i :: 0 <= i < |c| && c[i].enabled ==>
          && c[i].ruleHdl in owner && owner[c[i].ruleHdl] == i
          && c[i].ruleHdl in rules && rules[c[i].ruleHdl] == RuleOf(c[i]))
    && (forall h :: h in rules ==>
          h in owner && 0 <= owner[h] < |c| && c[owner[h]].enabled && c[owner[h]].ruleHdl == h)
  }

  lemma EnableKeepsSync(c: seq<NatEntry>, rules: map<nat, Rule>, owner: map<nat, nat>, i: nat, e: NatEntry)
    requires InSync(c, rules, owner) && i < |c| && !c[i].enabled && e.enabled && e.ruleHdl !in rules
    ensures InSync(c[i := e], rules[e.ruleHdl := RuleOf(e)], owner[e.ruleHdl := i])
  {}

  lemma DisableKeepsSync(c: seq<NatEntry>, rules: map<nat, Rule>, owner: map<nat, nat>, i: nat, e: NatEntry)
    requires InSync(c, rules, owner) && i < |c| && c[i].enabled && !e.enabled
    ensures InSync(c[i := e], rules - {c[i].ruleHdl}, owner)
  {}

  lemma OverwriteKeepsSync(c: seq<NatEntry>, rules: map<nat, Rule>, owner: map<nat, nat>, i: nat, e: NatEntry)
    requires InSync(c, rules, owner) && i < |c| && !c[i].enabled && !e.enabled
    ensures InSync(c[i := e], rules, owner)
  {}

  /** A slot that gives up its rule while the rule stays in the hardware. */
  lemma StrandedRule(c: seq<NatEntry>, rules: map<nat, Rule>, owner: map<nat, nat>, i: nat, e: NatEntry)
    requires InSync(c, rules, owner) && i < |c| && c[i].enabled && !e.enabled
    ensures !InSync(c[i := e], rules, owner)
  {
    assert c[i].ruleHdl in rules && owner[c[i].ruleHdl] == i;
  }

  lemma NoneEnabled(c: seq<NatEntry>, owner: map<nat, nat>)
    requires InSync(c, map[], owner)
    ensures forall i :: 0 <= i < |c| ==> !c[i].enabled
  {}

  /** Read off the invariant: a rule is in the hardware if and only if an enabled slot has it
      under that handle, and no two slots share a handle. */
  lemma HardwareIsExactlyEnabled(c: seq<NatEntry>, rules: map<nat, Rule>, owner: map<nat, nat>, h: nat, r: Rule)
    requires InSync(c, rules, owner)
    ensures h in rules && rules[h] == r <==>
            exists i :: 0 <= i < |c| && c[i].enabled && c[i].ruleHdl == h && RuleOf(c[i]) == r
    ensures forall i, j :: 0 <= i < j < |c| && c[i].enabled && c[j].enabled ==> c[i].ruleHdl != c[j].ruleHdl
    ensures forall i :: 0 <= i < |c| && c[i].enabled && c[i].ruleHdl == h && h in rules ==>
              && rules[h].privateIp == c[i].privateIp && rules[h].privatePort == c[i].privatePort
              && rules[h].targetIp == c[i].targetIp && rules[h].targetPort == c[i].targetPort
              && rules[h].publicPort == c[i].publicPort && rules[h].protocol == c[i].protocol
  {
    if h in rules && rules[h] == r {
      var i := owner[h];
      assert c[i].enabled && c[i].ruleHdl == h && RuleOf(c[i]) == r;
    }
    forall i, j | 0 <= i < j < |c| && c[i].enabled && c[j].enabled ensures c[i].ruleHdl != c[j].ruleHdl {
      assert owner[c[i].ruleHdl] == i && owner[c[j].ruleHdl] == j;
    }
  }

  // ---------------------------------------------------------------- what operations do to slots

  /** What becomes of the slot `e` when the `k`-th thing that the hardware was asked is its rule: only a
      refusal drops it. */
  predicate Answered(e: NatEntry, e': NatEntry, asked: seq<Ask>, k: nat) {
    && k < |asked| && asked[k].rule == RuleOf(e)
    && e' == if asked[k].accepted then e.(enabled := true, ruleHdl := e'.ruleHdl) else ZERO_ENTRY
  }

  /** Slots whose rules are put back: all used ones when the table comes up (`ip` is 0), otherwise those
      of the client that are not in the hardware. */
  predicate ToRestore(e: NatEntry, ip: nat) {
    if ip == 0 then e.privateIp != 0 else e.privateIp == ip && !e.enabled
  }

  /** How many of the first `i` slots are put back. */
  function Place(c: seq<NatEntry>, ip: nat, i: nat): nat
    requires i <= |c|
  {
    if i == 0 then 0 else Place(c, ip, i - 1) + if ToRestore(c[i - 1], ip) then 1 else 0
  }

  /** The first `n` of the slots `c` have become those of `c'`: the rules to put back were asked for one
      after the other, and each slot went by the answer to its own. */
  ghost predicate PutBack(c: seq<NatEntry>, c': seq<NatEntry>, ip: nat, from: seq<Ask>, to: seq<Ask>, n: nat) {
    && n <= |c| == |c'|
    && from <= to && |to| == |from| + Place(c, ip, n)
    && (forall i :: 0 <= i < n ==>
          if ToRestore(c[i], ip) then Answered(c[i], c'[i], to, |from| + Place(c, ip, i)) else c'[i] == c[i])
    && (forall i :: n <= i < |c| ==> c'[i] == c[i])
  }

  lemma {:induction false} PlaceGrows(c: seq<NatEntry>, ip: nat, i: nat, j: nat)
    requires i <= j <= |c|
    ensures Place(c, ip, i) <= Place(c, ip, j)
    ensures i < j && ToRestore(c[i], ip) ==> Place(c, ip, i) < Place(c, ip, j)
  {
    if i < j { PlaceGrows(c, ip, i, j - 1); }
  }

  /** A slot is dropped exactly if its own rule was asked for in this call and refused. */
  lemma DroppedIffRefused(c: seq<NatEntry>, c': seq<NatEntry>, ip: nat, from: seq<Ask>, to: seq<Ask>, i: nat)
    requires PutBack(c, c', ip, from, to, |c|) && i < |c| && !Free(c[i])
    ensures c'[i] == ZERO_ENTRY <==>
            && ToRestore(c[i], ip)
            && Ask(RuleOf(c[i]), false) == to[|from| + Place(c, ip, i)]
    ensures ToRestore(c[i], ip) ==> |from| + Place(c, ip, i) < |to|
  {
    PlaceGrows(c, ip, i, |c|);
    assert !SameTuple(c[i], ZERO_ENTRY);
  }

  /** Hardware that refuses nothing has all of them back. */
  lemma AcceptingRestoresAll(c: seq<NatEntry>, c': seq<NatEntry>, ip: nat, from: seq<Ask>, to: seq<Ask>, i: nat)
    requires PutBack(c, c', ip, from, to, |c|) && i < |c|
    requires forall k :: |from| <= k < |to| ==> to[k].accepted
    ensures c'[i] == if ToRestore(c[i], ip) then c[i].(enabled := true, ruleHdl := c'[i].ruleHdl) else c[i]
  {
    PlaceGrows(c, ip, i, |c|);
  }

  lemma PutBackStarts(c: seq<NatEntry>, ip: nat, from: seq<Ask>)
    ensures PutBack(c, c, ip, from, from, 0)
  {}

  /** The next slot is put back by the next answer, or stays. */
  lemma PutBackNext(c: seq<NatEntry>, c1: seq<NatEntry>, c2: seq<NatEntry>, ip: nat, from: seq<Ask>, to: seq<Ask>,
                    to': seq<Ask>, n: nat)
    requires PutBack(c, c1, ip, from, to, n) && n < |c| == |c2|
    requires forall i :: 0 <= i < |c| && i != n ==> c2[i] == c1[i]
    requires if ToRestore(c[n], ip) then |to'| == |to| + 1 && to <= to' && Answered(c[n], c2[n], to', |to|)
             else to' == to && c2[n] == c[n]
    ensures PutBack(c, c2, ip, from, to', n + 1)
  {
    forall i | 0 <= i < n ensures
      if ToRestore(c[i], ip) then Answered(c[i], c2[i], to', |from| + Place(c, ip, i)) else c2[i] == c[i]
    {
      PlaceGrows(c, ip, i, n);
    }
  }

  function Withdrawn(e: NatEntry, ip: nat, clearHdl: bool): NatEntry {
    if e.privateIp != ip || !e.enabled then e
    else e.(enabled := false, ruleHdl := if clearHdl then 0 else e.ruleHdl)
  }

  predicate HasTuple(c: seq<NatEntry>, e: NatEntry) {
    exists i :: 0 <= i < |c| && SameTuple(c[i], e)
  }

  /** The first unused slot; the length if there is none. */
  function FirstFree(c: seq<NatEntry>): nat {
    if c == [] || Free(c[0]) then 0 else 1 + FirstFree(c[1..])
  }

  lemma {:induction false} FirstFreeIsFirst(c: seq<NatEntry>, k: nat)
    requires k <= |c| && (k < |c| ==> Free(c[k])) && forall i :: 0 <= i < k ==> !Free(c[i])
    ensures FirstFree(c) == k
  {
    if c != [] && k > 0 { FirstFreeIsFirst(c[1..], k - 1); }
  }

  lemma {:induction false} FirstFreeBounds(c: seq<NatEntry>)
    ensures FirstFree(c) <= |c|
    ensures FirstFree(c) < |c| ==> Free(c[FirstFree(c)])
    ensures forall i :: 0 <= i < FirstFree(c) ==> !Free(c[i])
  {
    if c != [] && !Free(c[0]) { FirstFreeBounds(c[1..]); }
  }

  lemma SameTupleIsFiveTuple()
    ensures forall a, b :: SameTuple(a, b) <==> FiveTuple(a) == FiveTuple(b)
  {}

  /** A place for a waiting connection is unused if it has no addresses. */
  predicate Vacant(e: NatEntry) {
    e.privateIp == 0 && e.targetIp == 0
  }

  /** The first unused place; the length if there is none. */
  function FirstVacant(t: seq<NatEntry>): nat {
    if t == [] || Vacant(t[0]) then 0 else 1 + FirstVacant(t[1..])
  }

  lemma {:induction false} FirstVacantIsFirst(t: seq<NatEntry>, k: nat)
    requires k <= |t| && (k < |t| ==> Vacant(t[k])) && forall i :: 0 <= i < k ==> !Vacant(t[i])
    ensures FirstVacant(t) == k
  {
    if t != [] && k > 0 { FirstVacantIsFirst(t[1..], k - 1); }
  }

  /** The cached form of a new connection in slot contents `was`. */
  function Cached(rule: NatEntry, was: NatEntry, enabled: bool, hdl: nat): NatEntry {
    rule.(timestamp := 0, publicIp := was.publicIp, enabled := enabled, ruleHdl := hdl)
  }

  lemma AddKeepsShape(c: seq<NatEntry>, k: nat, e: NatEntry)
    requires Shaped(c) && k < |c| && Free(c[k]) && Complete(e) && !HasTuple(c, e)
    ensures Shaped(c[k := e])
  {}

  lemma ClearKeepsShape(c: seq<NatEntry>, k: nat)
    requires Shaped(c) && k < |c|
    ensures Shaped(c[k := ZERO_ENTRY])
  {}

  lemma RestateKeepsShape(c: seq<NatEntry>, k: nat, e: NatEntry)
    requires Shaped(c) && k < |c| && SameTuple(e, c[k]) && (e.enabled ==> !Free(e))
    ensures Shaped(c[k := e])
  {}

  /** The slots as AddTable may leave them when it puts the cached rules back, by the hardware's answers. */
  ghost predicate MayRestore(c: seq<NatEntry>, c': seq<NatEntry>) {
    exists to :: PutBack(c, c', 0, [], to, |c|)
  }

  /** The first `n` slots all accepted. */
  function Accepted(c: seq<NatEntry>, n: nat): seq<NatEntry>
    requires n <= |c|
  {
    seq(|c|, i requires 0 <= i < |c| => if i < n && ToRestore(c[i], 0) then c[i].(enabled := true) else c[i])
  }

  lemma {:induction false} AllMayBeAccepted(c: seq<NatEntry>, n: nat) returns (to: seq<Ask>)
    requires n <= |c|
    ensures PutBack(c, Accepted(c, n), 0, [], to, n)
  {
    to := [];
    if n > 0 {
      to := AllMayBeAccepted(c, n - 1);
      to := OneMoreAccepted(c, n - 1, to);
    }
  }

  lemma OneMoreAccepted(c: seq<NatEntry>, n: nat, to: seq<Ask>) returns (to': seq<Ask>)
    requires n < |c| && PutBack(c, Accepted(c, n), 0, [], to, n)
    ensures PutBack(c, Accepted(c, n + 1), 0, [], to', n + 1)
  {
    var c1, c2 := Accepted(c, n), Accepted(c, n + 1);
    to' := if ToRestore(c[n], 0) then to + [Ask(RuleOf(c[n]), true)] else to;
    assert forall i :: 0 <= i < |c| && i != n ==> c2[i] == c1[i];
    PutBackNext(c, c1, c2, 0, [], to, to', n);
  }

  /** No enabled rule is of a client in power save. */
  ghost predicate RespectsSaving(c: seq<NatEntry>, saving: seq<nat>) {
    forall i :: 0 <= i < |c| && c[i].enabled ==> c[i].privateIp == 0 || c[i].privateIp !in saving
  }

  /** Slots that become disabled, or whose client is not saving, break no promise. */
  lemma WithdrawingRespectsSaving(c: seq<NatEntry>, c': seq<NatEntry>, saving: seq<nat>, saving': seq<nat>, ip: nat)
    requires RespectsSaving(c, saving) && |c'| == |c|
    requires forall x :: x != 0 && x != ip && x in saving' ==> x in saving
    requires forall i :: 0 <= i < |c| ==> c'[i] == c[i] || !c'[i].enabled
    requires forall i :: 0 <= i < |c| && c'[i].enabled ==> c'[i].privateIp != ip
    ensures RespectsSaving(c', saving')
  {}

  /** Bringing the table back up ignores power save.  However the hardware answers, no saving client
      has a rule in it afterwards if and only if no connection of one is cached beforehand. */
  lemma RestoringIgnoresSaving(c: seq<NatEntry>, saving: seq<nat>)
    requires Shaped(c) && forall i :: 0 <= i < |c| ==> !c[i].enabled
    ensures (forall c' :: MayRestore(c, c') ==> RespectsSaving(c', saving)) <==>
            (forall i :: 0 <= i < |c| && !Free(c[i]) ==> c[i].privateIp !in saving)
  {
    forall i | 0 <= i < |c| && !Free(c[i]) ensures Complete(c[i]) {}
    var all := Accepted(c, |c|);
    var to := AllMayBeAccepted(c, |c|);
    assert MayRestore(c, all);
    if RespectsSaving(all, saving) {
      forall i | 0 <= i < |c| && !Free(c[i]) ensures c[i].privateIp !in saving {
        assert all[i].enabled;
      }
    }
  }

  /** A connection of client 5 is cached while the client saves power; AddTable installs it. */
  lemma TableBreaksSaving()
    ensures var e := NatEntry(5, 80, 9, 90, 7, 70, 6, 0, false, false, 0);
            && Shaped([e]) && RespectsSaving([e], [5])
            && MayRestore([e], [e.(enabled := true)]) && !RespectsSaving([e.(enabled := true)], [5])
  {
    var e := NatEntry(5, 80, 9, 90, 7, 70, 6, 0, false, false, 0);
    var e' := e.(enabled := true);
    assert [e'][0].enabled && [e'][0].privateIp in [5];
    var to := AllMayBeAccepted([e], 1);
    assert Accepted([e], 1) == [e'];
  }

  /** The hardware has no rule from the address `ip`. */
  ghost predicate NoneInstalled(rules: map<nat, Rule>, ip: nat) {
    forall h :: h in rules ==> rules[h].privateIp != ip
  }

  /** No slot and no rule leads to the address `ip`. */
  ghost predicate NothingToward(c: seq<NatEntry>, rules: map<nat, Rule>, ip: nat) {
    && (forall i :: 0 <= i < |c| ==> c[i].targetIp != ip)
    && (forall h :: h in rules ==> rules[h].targetIp != ip)
  }

  lemma NothingLeftToward(c: seq<NatEntry>, rules: map<nat, Rule>, owner: map<nat, nat>, ip: nat)
    requires InSync(c, rules, owner) && forall i :: 0 <= i < |c| ==> c[i].targetIp != ip
    ensures NothingToward(c, rules, ip)
  {
    forall h | h in rules ensures rules[h].targetIp != ip {
      assert c[owner[h]].enabled && rules[h] == RuleOf(c[owner[h]]);
    }
  }

  lemma NoneLeft(c: seq<NatEntry>, rules: map<nat, Rule>, owner: map<nat, nat>, ip: nat)
    requires InSync(c, rules, owner) && forall i :: 0 <= i < |c| && c[i].enabled ==> c[i].privateIp != ip
    ensures NoneInstalled(rules, ip)
  {
    forall h | h in rules ensures rules[h].privateIp != ip {
      assert c[owner[h]].enabled && rules[h] == RuleOf(c[owner[h]]);
    }
  }

  /** Each connection of `c0` is in the hardware again, or its own rule was refused. */
  ghost predicate BackOrRefused(c0: seq<NatEntry>, c': seq<NatEntry>, from: seq<Ask>, to: seq<Ask>) {
    |c'| == |c0| && from <= to && forall i :: 0 <= i < |c0| && !Free(c0[i]) ==>
      if c'[i] == ZERO_ENTRY then Ask(RuleOf(c0[i]), false) in to[|from|..]
      else c'[i] == c0[i].(enabled := true, ruleHdl := c'[i].ruleHdl)
  }

  /** Each connection of `c0` is cached and in the hardware. */
  ghost predicate AllBack(c0: seq<NatEntry>, c': seq<NatEntry>, rules: map<nat, Rule>) {
    |c'| == |c0| && forall i :: 0 <= i < |c0| && !Free(c0[i]) ==>
      && c'[i] == c0[i].(enabled := true, ruleHdl := c'[i].ruleHdl)
      && c'[i].ruleHdl in rules && rules[c'[i].ruleHdl] == RuleOf(c0[i])
  }

  /** Every cached connection of the client is enabled, and the others are as they were. */
  ghost predicate ClientBack(c: seq<NatEntry>, c': seq<NatEntry>, ip: nat) {
    |c'| == |c| && forall i :: 0 <= i < |c| ==>
      c'[i] == if c[i].privateIp == ip then c[i].(enabled := true, ruleHdl := c'[i].ruleHdl) else c[i]
  }

  lemma AcceptingHasClientBack(c: seq<NatEntry>, c': seq<NatEntry>, ip: nat, from: seq<Ask>, to: seq<Ask>)
    requires PutBack(c, c', ip, from, to, |c|) && ip != 0 && RefusedNothing(from, to)
    ensures ClientBack(c, c', ip)
  {
    forall i | 0 <= i < |c|
      ensures c'[i] == if c[i].privateIp == ip then c[i].(enabled := true, ruleHdl := c'[i].ruleHdl) else c[i]
    {
      AcceptingRestoresAll(c, c', ip, from, to, i);
    }
  }

  /** The hardware has refused nothing since it was asked `from`. */
  ghost predicate RefusedNothing(from: seq<Ask>, to: seq<Ask>) {
    forall k :: |from| <= k < |to| ==> to[k].accepted
  }

  /** `c` is `c0` with every rule out of the hardware. */
  ghost predicate AllOut(c0: seq<NatEntry>, c: seq<NatEntry>) {
    |c| == |c0| && forall i :: 0 <= i < |c0| ==> c[i] == c0[i].(enabled := false)
  }

  lemma ReinstalledOrRefused(c0: seq<NatEntry>, c: seq<NatEntry>, c': seq<NatEntry>, from: seq<Ask>, to: seq<Ask>)
    requires AllOut(c0, c) && Shaped(c) && PutBack(c, c', 0, from, to, |c|)
    ensures BackOrRefused(c0, c', from, to)
  {
    forall i | 0 <= i < |c0| && !Free(c0[i])
      ensures if c'[i] == ZERO_ENTRY then Ask(RuleOf(c0[i]), false) in to[|from|..]
              else c'[i] == c0[i].(enabled := true, ruleHdl := c'[i].ruleHdl)
    {
      assert !Free(c[i]) && Complete(c[i]);
      DroppedIffRefused(c, c', 0, from, to, i);
      assert to[|from|..][Place(c, 0, i)] == to[|from| + Place(c, 0, i)];
    }
  }

  lemma AcceptingHasAllBack(c0: seq<NatEntry>, c: seq<NatEntry>, c': seq<NatEntry>, from: seq<Ask>, to: seq<Ask>,
                            rules: map<nat, Rule>, owner: map<nat, nat>)
    requires AllOut(c0, c) && Shaped(c) && PutBack(c, c', 0, from, to, |c|)
    requires InSync(c', rules, owner) && RefusedNothing(from, to)
    ensures AllBack(c0, c', rules)
  {
    forall i | 0 <= i < |c0| && !Free(c0[i])
      ensures c'[i] == c0[i].(enabled := true, ruleHdl := c'[i].ruleHdl)
    {
      assert !Free(c[i]) && Complete(c[i]);
      AcceptingRestoresAll(c, c', 0, from, to, i);
    }
  }

  // ---------------------------------------------------------------- the cache and its hardware

  class NatApp {
    const maxEntries: nat
    const algPorts: seq<AlgPort>
    var cache: array<NatEntry>
    var temp: array<NatEntry>
    var pwrSaveIfs: array<nat>
    var pubIpAddr: nat
    var pubIpAddrPre: nat
    var natTableHdl: nat
    var curCnt: int
    // the hardware: the handle of its one table (0 when there is none) and the table's rules
    var hwTable: nat
    var hwRules: map<nat, Rule>
    ghost var owner: map<nat, nat>
    // what the hardware has been asked to add so far, with its answers
    ghost var asked: seq<Ask>

    /** The cache agrees with the hardware, and its handle is the one of the hardware's table. */
    ghost predicate Valid()
      reads this`cache, this`temp, this`pwrSaveIfs, cache, temp, pwrSaveIfs
      reads this`natTableHdl, this`curCnt, this`hwTable, this`hwRules, this`owner
    {
      Kept() && natTableHdl == hwTable
    }

    /** The cache agrees with the hardware, but the handle of the table may be lost. */
    ghost predicate Kept()
      reads this`cache, this`temp, this`pwrSaveIfs, cache, temp, pwrSaveIfs
      reads this`natTableHdl, this`curCnt, this`hwTable, this`hwRules, this`owner
    {
      && cache.Length == maxEntries && temp.Length == MAX_TEMP_ENTRIES && cache != temp
      && Shaped(cache[..])
      && InSync(cache[..], hwRules, owner)
      && curCnt == Count(cache[..])
      && (natTableHdl == hwTable || natTableHdl == 0)
      && (hwTable == 0 ==> hwRules == map[]) && (hwTable != 0 ==> maxEntries != 0)
      && (forall i, j :: 0 <= i < j < pwrSaveIfs.Length && pwrSaveIfs[i] == pwrSaveIfs[j] ==> pwrSaveIfs[i] == 0)
    }

    constructor (maxEntries: nat, algPorts: seq<AlgPort>, wifiClients: nat)
      ensures Valid() && fresh(cache) && fresh(temp) && fresh(pwrSaveIfs)
      ensures this.maxEntries == maxEntries && this.algPorts == algPorts
      ensures forall i :: 0 <= i < maxEntries ==> cache[i] == ZERO_ENTRY
      ensures forall i :: 0 <= i < MAX_TEMP_ENTRIES ==> temp[i] == ZERO_ENTRY
      ensures pwrSaveIfs[..] == seq(wifiClients, _ => 0)
      ensures pubIpAddr == pubIpAddrPre == natTableHdl == 0
    {
      this.maxEntries := maxEntries;
      this.algPorts := algPorts;
      cache := new NatEntry[maxEntries](_ => ZERO_ENTRY);
      temp := new NatEntry[MAX_TEMP_ENTRIES](_ => ZERO_ENTRY);
      pwrSaveIfs := new nat[wifiClients](_ => 0);
      pubIpAddr, pubIpAddrPre, natTableHdl, curCnt := 0, 0, 0, 0;
      hwTable, hwRules, owner, asked := 0, map[], map[], [];
      new;
      CountFree(cache[..]);
    }

    // -------------------------------------------------------------- hardware calls

    /** Creates the hardware's table; it has room for one, and not for none of the entries.  The
        handle is cleared before anything else is tried. */
    method HwAddTable() returns (ret: int, hdl: nat)
      modifies this`hwTable
      ensures ret == 0 ==> old(hwTable) == 0 && maxEntries != 0 && hwTable == hdl != 0
      ensures ret != 0 ==> hwTable == old(hwTable) && hdl == if maxEntries == 0 then natTableHdl else 0
    {
      ret, hdl := -1, natTableHdl;
      if maxEntries == 0 {
        return;
      }
      hdl := 0;
      var fails: bool := *;
      var h: nat := *;
      if hwTable == 0 && h != 0 && !fails {
        ret, hdl, hwTable := 0, h, h;
      }
    }

    /** Adds a rule under a handle not in use; refused without a table, or as the hardware likes. */
    method HwAddRule(rule: Rule) returns (ret: int, hdl: nat)
      modifies this`hwRules, this`asked
      ensures asked == old(asked) + [Ask(rule, ret >= 0)]
      ensures ret >= 0 ==> natTableHdl != 0 && hdl !in old(hwRules) && hwRules == old(hwRules)[hdl := rule]
      ensures ret < 0 ==> hwRules == old(hwRules)
    {
      ret := -1;
      var fails: bool := *;
      hdl := *;
      if natTableHdl != 0 && hdl !in hwRules && !fails {
        ret, hwRules := 0, hwRules[hdl := rule];
      }
      asked := asked + [Ask(rule, ret >= 0)];
    }

    /** Deletes an installed rule; refused without a table handle. */
    method HwDelRule(hdl: nat) returns (ret: int)
      modifies this`hwRules
      ensures ret >= 0 <==> natTableHdl != 0 && hdl in old(hwRules)
      ensures hwRules == if natTableHdl == 0 then old(hwRules) else old(hwRules) - {hdl}
    {
      ret := -1;
      if natTableHdl != 0 && hdl in hwRules {
        ret, hwRules := 0, hwRules - {hdl};
      }
    }

    // -------------------------------------------------------------- one slot

    /** Clears a used slot that is not in the hardware. */
    method Drop(i: nat)
      requires Kept() && i < maxEntries && !cache[i].enabled && !Free(cache[i])
      modifies cache, this`curCnt
      ensures Kept() && (old(Valid()) ==> Valid()) && cache[i] == ZERO_ENTRY
      ensures forall k :: 0 <= k < maxEntries && k != i ==> cache[k] == old(cache[k])
    {
      CountUpdate(cache[..], i, ZERO_ENTRY);
      OverwriteKeepsSync(cache[..], hwRules, owner, i, ZERO_ENTRY);
      ClearKeepsShape(cache[..], i);
      cache[i] := ZERO_ENTRY;
      assert cache[..] == old(cache[..])[i := ZERO_ENTRY];
      curCnt := curCnt - 1;
    }

    /** Installs the rule of a cached slot, or drops the slot when the hardware refuses it. */
    method Restore(i: nat)
      requires Kept() && i < maxEntries && !cache[i].enabled && !Free(cache[i])
      modifies cache, this`curCnt, this`hwRules, this`owner, this`asked
      ensures Kept() && |asked| == |old(asked)| + 1 && old(asked) <= asked
      ensures Answered(old(cache[i]), cache[i], asked, |old(asked)|)
      ensures forall k :: 0 <= k < maxEntries && k != i ==> cache[k] == old(cache[k])
      ensures natTableHdl == 0 ==> cache[i] == ZERO_ENTRY
    {
      var ret, hdl := HwAddRule(RuleOf(cache[i]));
      if ret < 0 {
        Drop(i);
      } else {
        ghost var e := cache[i].(enabled := true, ruleHdl := hdl);
        CountUpdate(cache[..], i, e);
        EnableKeepsSync(cache[..], old(hwRules), owner, i, e);
        RestateKeepsShape(cache[..], i, e);
        owner := owner[hdl := i];
        cache[i] := cache[i].(enabled := true, ruleHdl := hdl);
      }
    }

    /** Deletes the hardware rule of an enabled slot and leaves `e`, not enabled, in the slot.  Without
        a table handle the rule stays; then the slot stays too, or, with `force`, no slot has the rule. */
    method Withdraw(i: nat, e: NatEntry, force: bool)
      requires Kept() && i < maxEntries && cache[i].enabled && !e.enabled
      requires e == ZERO_ENTRY || SameTuple(e, cache[i])
      modifies cache, this`curCnt, this`hwRules
      ensures cache[i] == if natTableHdl == 0 && !force then old(cache[i]) else e
      ensures curCnt - Count(cache[..]) == old(curCnt - Count(cache[..]))
      ensures forall k :: 0 <= k < maxEntries && k != i ==> cache[k] == old(cache[k])
      ensures Kept() <==> natTableHdl != 0 || !force
      ensures natTableHdl == 0 ==> hwRules == old(hwRules)
    {
      ghost var c, was := cache[..], hwRules;
      var ret := HwDelRule(cache[i].ruleHdl);
      assert cache[..] == c;
      if ret < 0 && !force {
        return;
      }
      Vacate(i, e, was);
    }

    /** Leaves `e` in a slot whose rule has been deleted, or could not be. */
    method Vacate(i: nat, e: NatEntry, ghost was: map<nat, Rule>)
      requires cache.Length == maxEntries && i < maxEntries && cache[i].enabled && !e.enabled
      requires InSync(cache[..], was, owner)
      requires hwRules == if natTableHdl == 0 then was else was - {cache[i].ruleHdl}
      requires Shaped(cache[..]) && (e == ZERO_ENTRY || SameTuple(e, cache[i]))
      modifies cache, this`curCnt
      ensures cache[..] == old(cache[..])[i := e] && Shaped(cache[..])
      ensures cache[i] == e && forall k :: 0 <= k < maxEntries && k != i ==> cache[k] == old(cache[k])
      ensures curCnt - Count(cache[..]) == old(curCnt - Count(cache[..]))
      ensures InSync(cache[..], hwRules, owner) <==> natTableHdl != 0
    {
      if natTableHdl == 0 {
        StrandedRule(cache[..], was, owner, i, e);
      } else {
        DisableKeepsSync(cache[..], was, owner, i, e);
      }
      CountUpdate(cache[..], i, e);
      if e == ZERO_ENTRY { ClearKeepsShape(cache[..], i); } else { RestateKeepsShape(cache[..], i, e); }
      cache[i] := e;
      assert cache[..] == old(cache[..])[i := e];
      if e == ZERO_ENTRY {
        curCnt := curCnt - 1;
      }
    }

    /** Clears a slot, and the hardware's rule for it if there is one. */
    method Forget(i: nat, force: bool)
      requires Kept() && i < maxEntries
      modifies cache, this`curCnt, this`hwRules
      ensures Free(old(cache[i])) ==>
        !Kept() && curCnt == old(curCnt) - 1 && Count(cache[..]) == old(Count(cache[..]))
      ensures natTableHdl == 0 ==> hwRules == old(hwRules)
      ensures !Free(old(cache[i])) ==> (Kept() <==> natTableHdl != 0 || !force || !old(cache[i]).enabled)
      ensures cache[i] == if natTableHdl == 0 && !force && old(cache[i]).enabled then old(cache[i]) else ZERO_ENTRY
      ensures forall k :: 0 <= k < maxEntries && k != i ==> cache[k] == old(cache[k])
    {
      if cache[i].enabled {
        Withdraw(i, ZERO_ENTRY, force);
      } else if !Free(cache[i]) {
        Drop(i);
      } else {
        CountUpdate(cache[..], i, ZERO_ENTRY);
        cache[i] := ZERO_ENTRY;
        assert cache[..] == old(cache[..])[i := ZERO_ENTRY];
        curCnt := curCnt - 1;
      }
    }

    // -------------------------------------------------------------- the table

    method CreateTable() returns (ret: int)
      requires Kept()
      modifies this`hwTable, this`natTableHdl
      ensures Kept() && (Valid() <==> ret == 0 || old(hwTable) == 0)
      ensures ret == 0 ==> old(hwTable) == 0 && natTableHdl == hwTable != 0 && hwRules == map[]
      ensures ret == 0 ==> forall i :: 0 <= i < maxEntries ==> !cache[i].enabled
      ensures ret != 0 ==> natTableHdl == 0 && hwTable == old(hwTable)
    {
      var hdl;
      ret, hdl := HwAddTable();
      natTableHdl := hdl;
      if ret == 0 { NoneEnabled(cache[..], owner); }
    }

    /** Brings the hardware table up; with the previous address the cached rules go back in.  It
        fails while a table is up, and then loses the handle of that table: a failure keeps the
        invariant exactly if no table was up. */
    method AddTable(pubIp: nat) returns (ret: int)
      requires Kept()
      modifies this`natTableHdl, this`hwTable, this`hwRules, this`owner, this`curCnt, this`pubIpAddr, this`asked, cache
      ensures Kept() && (ret == 0 ==> Valid())
      ensures ret == 0 <==> old(hwTable) == 0 && natTableHdl != 0
      ensures ret != 0 ==> (Valid() <==> old(hwTable) == 0)
      ensures ret != 0 ==> natTableHdl == 0 && cache[..] == old(cache[..])
      ensures ret != 0 ==>
        unchanged(this`hwTable, this`hwRules, this`owner, this`curCnt, this`pubIpAddr, this`asked)
      ensures ret == 0 ==> pubIpAddr == pubIp
      ensures ret == 0 && pubIp != pubIpAddrPre ==>
        cache[..] == old(cache[..]) && hwRules == map[] && asked == old(asked)
      ensures ret == 0 && pubIp == pubIpAddrPre ==>
        PutBack(old(cache[..]), cache[..], 0, old(asked), asked, maxEntries)
    {
      ret := CreateTable();
      assert cache[..] == old(cache[..]);
      if ret != 0 {
        return;
      }
      Refill(pubIp);
    }

    /** The table is up and empty. */
    method Refill(pubIp: nat)
      requires Valid() && hwRules == map[] && forall i :: 0 <= i < maxEntries ==> !cache[i].enabled
      modifies this`hwRules, this`owner, this`curCnt, this`pubIpAddr, this`asked, cache
      ensures Valid() && pubIpAddr == pubIp
      ensures pubIp != pubIpAddrPre ==> cache[..] == old(cache[..]) && hwRules == map[] && asked == old(asked)
      ensures pubIp == pubIpAddrPre ==> PutBack(old(cache[..]), cache[..], 0, old(asked), asked, maxEntries)
    {
      if pubIp == pubIpAddrPre {
        RestoreAll();
      }
      pubIpAddr := pubIp;
    }

    /** The WAN interface goes down and comes back with the same address: a connection is lost only if
        the hardware refuses its own rule now. */
    method WanDownUp(pubIp: nat) returns (ret: int)
      requires Valid() && natTableHdl != 0 && pubIpAddr == pubIp
      modifies this, cache
      ensures Valid() && pubIpAddrPre == pubIp && unchanged(this`cache, this`temp, this`pwrSaveIfs)
      ensures ret == 0 ==> natTableHdl != 0 && pubIpAddr == pubIp
      ensures ret == 0 ==> BackOrRefused(old(cache[..]), cache[..], old(asked), asked)
      ensures ret == 0 && RefusedNothing(old(asked), asked) ==> AllBack(old(cache[..]), cache[..], hwRules)
      ensures ret != 0 ==> natTableHdl == 0 && hwRules == map[] && AllOut(old(cache[..]), cache[..])
    {
      ghost var c0, from := cache[..], asked;
      var down := DeleteTable(pubIp);
      ghost var c := cache[..];
      ret := AddTable(pubIp);
      if ret == 0 {
        ReinstalledOrRefused(c0, c, cache[..], from, asked);
        if RefusedNothing(from, asked) { AcceptingHasAllBack(c0, c, cache[..], from, asked, hwRules, owner); }
      }
    }

    /** The loop of AddTable that puts the cached rules back. */
    method RestoreAll()
      requires Valid() && forall i :: 0 <= i < maxEntries ==> !cache[i].enabled
      modifies this`curCnt, this`hwRules, this`owner, this`asked, cache
      ensures Valid() && PutBack(old(cache[..]), cache[..], 0, old(asked), asked, maxEntries)
    {
      ghost var c, from := cache[..], asked;
      PutBackStarts(c, 0, from);
      for cnt := 0 to maxEntries
        invariant Kept() && PutBack(c, cache[..], 0, from, asked, cnt)
      {
        RestoreRound(cnt, 0, c, from);
      }
    }

    /** One round of the loops that put rules back, over the slots `c` with which it started. */
    method RestoreRound(k: nat, ip: nat, ghost c: seq<NatEntry>, ghost from: seq<Ask>)
      requires Kept() && k < maxEntries && PutBack(c, cache[..], ip, from, asked, k)
      requires ip == 0 ==> !c[k].enabled
      modifies cache, this`curCnt, this`hwRules, this`owner, this`asked
      ensures Kept() && PutBack(c, cache[..], ip, from, asked, k + 1)
    {
      ghost var c1, to := cache[..], asked;
      assert cache[k] == c1[k] == c[k];
      if ToRestore(cache[k], ip) {
        Restore(k);
      }
      PutBackNext(c, c1, cache[..], ip, from, to, asked, k);
    }

    /** Takes the hardware table down; the connections stay cached. */
    method DeleteTable(pubIp: nat) returns (ret: int)
      requires Kept()
      modifies this, cache
      ensures Kept() && (ret == 0 || old(Valid()) ==> Valid())
      ensures unchanged(this`cache, this`temp, this`pwrSaveIfs, this`curCnt, this`asked)
      ensures ret == 0 <==> old(natTableHdl) != 0 && old(pubIpAddr) == pubIp
      ensures ret != 0 ==> unchanged(this) && cache[..] == old(cache[..])
      ensures ret == 0 ==> natTableHdl == 0 && pubIpAddr == 0 && pubIpAddrPre == pubIp && hwRules == map[]
      ensures ret == 0 ==> forall i :: 0 <= i < maxEntries ==> cache[i] == old(cache[i]).(enabled := false)
    {
      if natTableHdl == 0 || pubIpAddr != pubIp {
        return -1;
      }
      hwTable, hwRules := 0, map[];
      pubIpAddrPre := pubIpAddr;
      Reset();
      ret := 0;
    }

    /** Forgets the table, whose rules are already gone from the hardware. */
    method Reset()
      requires cache.Length == maxEntries && hwTable == 0 && hwRules == map[]
      requires Shaped(cache[..]) && curCnt == Count(cache[..]) && cache != temp
      modifies this`natTableHdl, this`pubIpAddr, cache
      ensures natTableHdl == 0 && pubIpAddr == 0
      ensures forall i :: 0 <= i < maxEntries ==> cache[i] == old(cache[i]).(enabled := false)
      ensures Shaped(cache[..]) && curCnt == Count(cache[..]) && InSync(cache[..], map[], owner)
    {
      natTableHdl := 0;
      pubIpAddr := 0;
      for cnt := 0 to maxEntries
        modifies cache
        invariant Shaped(cache[..]) && curCnt == Count(cache[..])
        invariant forall i :: 0 <= i < cnt ==> cache[i] == old(cache[i]).(enabled := false)
        invariant forall i :: cnt <= i < maxEntries ==> cache[i] == old(cache[i])
      {
        CountUpdate(cache[..], cnt, cache[cnt].(enabled := false));
        RestateKeepsShape(cache[..], cnt, cache[cnt].(enabled := false));
        cache[cnt] := cache[cnt].(enabled := false);
      }
    }

    // -------------------------------------------------------------- single connections

    predicate IsAlgPort(protocol: nat, port: nat) {
      AlgPort(protocol, port) in algPorts
    }

    predicate UsesAlgPort(rule: NatEntry) {
      IsAlgPort(rule.protocol, rule.privatePort) || IsAlgPort(rule.protocol, rule.targetPort)
    }

    /** Is the address that of a client in power save? */
    predicate IsPwrSaveIf(ip: nat)
      reads this`pwrSaveIfs, pwrSaveIfs
    {
      ip != 0 && ip in pwrSaveIfs[..]
    }

    method ChkForDup(rule: NatEntry) returns (dup: bool)
      requires cache.Length == maxEntries
      ensures dup <==> HasTuple(cache[..], rule)
      ensures dup <==> exists i :: 0 <= i < maxEntries && FiveTuple(cache[i]) == FiveTuple(rule)
    {
      for cnt := 0 to maxEntries
        invariant forall i :: 0 <= i < cnt ==> !SameTuple(cache[i], rule)
      {
        if SameTuple(cache[cnt], rule) {
          assert SameTuple(cache[..][cnt], rule) && FiveTuple(cache[cnt]) == FiveTuple(rule);
          return true;
        }
      }
      return false;
    }

    method FindFree() returns (cnt: nat)
      requires cache.Length == maxEntries
      ensures cnt == FirstFree(cache[..]) && cnt <= maxEntries
      ensures cnt < maxEntries ==> Free(cache[cnt])
      ensures forall i :: 0 <= i < cnt ==> !Free(cache[i])
    {
      cnt := 0;
      while cnt < maxEntries && !Free(cache[cnt])
        invariant cnt <= maxEntries && forall i :: 0 <= i < cnt ==> !Free(cache[i])
      {
        cnt := cnt + 1;
      }
      FirstFreeIsFirst(cache[..], cnt);
    }

    /** A connection that may be cached: complete, new, and with room for it. */
    predicate Cacheable(rule: NatEntry)
      reads this, cache
    {
      Complete(rule) && !HasTuple(cache[..], rule) && FirstFree(cache[..]) < cache.Length
    }

    /** Puts a complete new connection into the free slot `k`, in the hardware or only cached. */
    method Fill(k: nat, e: NatEntry)
      requires Kept() && k < maxEntries && Free(cache[k]) && Complete(e) && !HasTuple(cache[..], e)
      requires !e.enabled
      modifies cache, this`curCnt
      ensures Kept() && cache[..] == old(cache[..])[k := e]
    {
      AddKeepsShape(cache[..], k, e);
      CountUpdate(cache[..], k, e);
      OverwriteKeepsSync(cache[..], hwRules, owner, k, e);
      cache[k] := e;
      assert cache[..] == old(cache[..])[k := e];
      curCnt := curCnt + 1;
    }

    method FillEnabled(k: nat, e: NatEntry, ghost was: map<nat, Rule>)
      requires cache.Length == maxEntries && k < maxEntries && Free(cache[k]) && !cache[k].enabled
      requires Complete(e) && e.enabled && !HasTuple(cache[..], e)
      requires Shaped(cache[..]) && curCnt == Count(cache[..]) && InSync(cache[..], was, owner)
      requires e.ruleHdl !in was && hwRules == was[e.ruleHdl := RuleOf(e)]
      modifies cache, this`curCnt, this`owner
      ensures Shaped(cache[..]) && curCnt == Count(cache[..]) && InSync(cache[..], hwRules, owner)
      ensures cache[..] == old(cache[..])[k := e]
    {
      AddKeepsShape(cache[..], k, e);
      CountUpdate(cache[..], k, e);
      EnableKeepsSync(cache[..], was, owner, k, e);
      owner := owner[e.ruleHdl := k];
      cache[k] := e;
      assert cache[..] == old(cache[..])[k := e];
      curCnt := curCnt + 1;
    }

    predicate SavesPower(rule: NatEntry)
      reads this`pwrSaveIfs, pwrSaveIfs
    {
      IsPwrSaveIf(rule.privateIp) || IsPwrSaveIf(rule.targetIp)
    }

    /** What a connection does to the slots when it is added (`ok`) or refused, and what the hardware is
        asked for it: a complete new one fills the first unused slot, installed unless a side saves
        power, and only the hardware may still refuse to install it; an incomplete one is accepted and
        dropped. */
    ghost predicate Adds(rule: NatEntry, c: seq<NatEntry>, c': seq<NatEntry>, ok: bool, from: seq<Ask>, to: seq<Ask>)
      reads this`natTableHdl, this`pwrSaveIfs, pwrSaveIfs
    {
      var k := FirstFree(c);
      if natTableHdl == 0 || UsesAlgPort(rule) then !ok && c' == c && to == from
      else if !Complete(rule) then ok && c' == c && to == from
      else if HasTuple(c, rule) || k >= |c| then !ok && c' == c && to == from
      else if SavesPower(rule) then ok && c' == c[k := Cached(rule, c[k], false, 0)] && to == from
      else
        && to == from + [Ask(RuleOf(rule), ok)]
        && if ok then |c'| == |c| && c' == c[k := Cached(rule, c[k], true, c'[k].ruleHdl)] else c' == c
    }

    /** An accepted connection is in the slot that was free, with all that the hardware is told about it,
        and the other slots are as they were. */
    lemma AddedIsCached(rule: NatEntry, c: seq<NatEntry>, c': seq<NatEntry>, from: seq<Ask>, to: seq<Ask>)
      requires Adds(rule, c, c', true, from, to) && Complete(rule)
      ensures var k := FirstFree(c);
              && k < |c| == |c'| && c' == c[k := c'[k]]
              && FiveTuple(c'[k]) == FiveTuple(rule) && RuleOf(c'[k]) == RuleOf(rule) && c'[k].dstNat == rule.dstNat
              && (c'[k].enabled <==> !IsPwrSaveIf(rule.privateIp) && !IsPwrSaveIf(rule.targetIp))
      ensures to == if SavesPower(rule) then from else from + [Ask(RuleOf(rule), true)]
    {}

    /** Something happens exactly if there is a table handle, no port belongs to a gateway, nothing of the
        5-tuple is zero, no slot has it, and a slot is free. */
    lemma AddsSomethingIff(rule: NatEntry, c: seq<NatEntry>, c': seq<NatEntry>, ok: bool, from: seq<Ask>, to: seq<Ask>)
      requires Adds(rule, c, c', ok, from, to)
      ensures c' != c || to != from <==>
        && natTableHdl != 0
        && AlgPort(rule.protocol, rule.privatePort) !in algPorts && AlgPort(rule.protocol, rule.targetPort) !in algPorts
        && rule.privateIp != 0 && rule.privatePort != 0 && rule.targetIp != 0 && rule.targetPort != 0
        && rule.protocol != 0
        && (forall i :: 0 <= i < |c| ==> FiveTuple(c[i]) != FiveTuple(rule))
        && (exists i :: 0 <= i < |c| && FiveTuple(c[i]) == (0, 0, 0, 0, 0))
    {
      SameTupleIsFiveTuple();
      var k := FirstFree(c);
      FirstFreeBounds(c);
      if c' != c && k < |c| { assert FiveTuple(c[k]) == (0, 0, 0, 0, 0); }
      if natTableHdl != 0 && !UsesAlgPort(rule) && Complete(rule) && !HasTuple(c, rule) && k < |c| {
        assert FiveTuple(c[k]) == (0, 0, 0, 0, 0) && Cached(rule, c[k], false, 0) != c[k];
        assert SavesPower(rule) ==> c'[k] != c[k];
      }
    }

    /** Adds a connection to the cache and, unless a side is in power save, to the hardware. */
    method AddEntry(rule: NatEntry) returns (ret: int)
      requires Kept()
      modifies cache, this`curCnt, this`hwRules, this`owner, this`asked
      ensures Kept() && (old(Valid()) ==> Valid())
      ensures Adds(rule, old(cache[..]), cache[..], ret == 0, old(asked), asked)
      ensures cache[..] == old(cache[..]) || SavesPower(rule) ==> hwRules == old(hwRules)
      ensures AlgPort(rule.protocol, rule.privatePort) in algPorts
        || AlgPort(rule.protocol, rule.targetPort) in algPorts
        ==> ret != 0 && cache[..] == old(cache[..])
      ensures old(SavingRespected()) ==> SavingRespected()
    {
      if natTableHdl == 0 || UsesAlgPort(rule) {
        return -1;
      }
      if !Complete(rule) {
        return 0;
      }
      var dup := ChkForDup(rule);
      if dup {
        return -1;
      }
      var cnt := FindFree();
      if cnt == maxEntries {
        return -1;
      }
      ret := AddAt(rule, cnt);
    }

    /** Fills the free slot `k` with a new connection, if the hardware takes it. */
    method AddAt(rule: NatEntry, k: nat) returns (ret: int)
      requires Valid() && k < maxEntries && Free(cache[k]) && Complete(rule) && !HasTuple(cache[..], rule)
      modifies cache, this`curCnt, this`hwRules, this`owner, this`asked
      ensures Valid()
      ensures ret == 0 ==>
        cache[..] == old(cache[..])[k := Cached(rule, old(cache[..])[k], !SavesPower(rule), cache[k].ruleHdl)]
      ensures SavesPower(rule) ==> ret == 0 && cache[k].ruleHdl == 0
      ensures ret != 0 ==> cache[..] == old(cache[..])
      ensures ret != 0 || SavesPower(rule) ==> hwRules == old(hwRules)
      ensures asked == if SavesPower(rule) then old(asked) else old(asked) + [Ask(RuleOf(rule), ret == 0)]
    {
      if IsPwrSaveIf(rule.privateIp) || IsPwrSaveIf(rule.targetIp) {
        Fill(k, Cached(rule, cache[k], false, 0));
        ret := 0;
      } else {
        ret := Install(rule, k);
      }
    }

    /** Fills the free slot `k` and installs its rule, unless the hardware refuses. */
    method Install(rule: NatEntry, k: nat) returns (ret: int)
      requires Valid() && k < maxEntries && Free(cache[k]) && Complete(rule) && !HasTuple(cache[..], rule)
      modifies cache, this`curCnt, this`hwRules, this`owner, this`asked
      ensures Valid()
      ensures ret == 0 ==> cache[..] == old(cache[..])[k := Cached(rule, old(cache[..])[k], true, cache[k].ruleHdl)]
      ensures ret != 0 ==> cache[..] == old(cache[..]) && hwRules == old(hwRules)
      ensures asked == old(asked) + [Ask(RuleOf(rule), ret == 0)]
    {
      ghost var was := hwRules;
      var hdl;
      ret, hdl := HwAddRule(RuleOf(rule));
      if ret < 0 {
        return -1;
      }
      FillEnabled(k, Cached(rule, cache[k], true, hdl), was);
      ret := 0;
    }

    /** Caches a connection without installing it. */
    method CacheEntry(rule: NatEntry)
      requires Kept()
      modifies cache, this`curCnt
      ensures Kept()
      ensures cache[..] == if !old(Cacheable(rule)) then old(cache[..])
        else old(cache[..])[FirstFree(old(cache[..])) := rule.(timestamp := 0, enabled := false, ruleHdl := 0)]
    {
      if !Complete(rule) {
        return;
      }
      var dup := ChkForDup(rule);
      if dup {
        return;
      }
      var cnt := FindFree();
      if cnt == maxEntries {
        return;
      }
      Fill(cnt, rule.(timestamp := 0, enabled := false, ruleHdl := 0));
    }

    /** Removes a closed connection from the cache and the hardware.  A rule that is all zero
        matches an unused slot, and is the only one that makes the count drift. */
    method DeleteEntry(rule: NatEntry) returns (ret: int)
      requires Kept()
      modifies cache, this`curCnt, this`hwRules
      ensures ret == 0
      ensures old(Valid()) ==> (Valid() <==> !(Free(rule) && HasTuple(old(cache[..]), rule)))
      ensures natTableHdl == 0 ==> hwRules == old(hwRules)
      ensures natTableHdl == 0 && !Free(rule) ==>
        (Kept() <==> forall i :: 0 <= i < maxEntries && SameTuple(old(cache[i]), rule) ==> !old(cache[i]).enabled)
      ensures Free(rule) ==> Count(cache[..]) == old(Count(cache[..]))
      ensures Free(rule) && HasTuple(old(cache[..]), rule) ==> curCnt == old(curCnt) - 1
      ensures !Free(rule) ==> forall i :: 0 <= i < maxEntries ==>
        cache[i] == if SameTuple(old(cache[i]), rule) then ZERO_ENTRY else old(cache[i])
    {
      ret := 0;
      var cnt := 0;
      while cnt < maxEntries && !SameTuple(cache[cnt], rule)
        invariant cnt <= maxEntries && forall i :: 0 <= i < cnt ==> !SameTuple(cache[i], rule)
      {
        cnt := cnt + 1;
      }
      if cnt == maxEntries {
        return;
      }
      assert SameTuple(cache[..][cnt], rule);
      Forget(cnt, true);
    }

    // -------------------------------------------------------------- power save

    /** No rule of a client in power save is in the hardware. */
    ghost predicate SavingRespected()
      reads this, cache, pwrSaveIfs
    {
      RespectsSaving(cache[..], pwrSaveIfs[..])
    }

    /** Records `ip` in the first unused place, if there is one. */
    method RecordPwrSaveIf(ip: nat)
      requires ip != 0 && ip !in pwrSaveIfs[..]
      requires forall i, j :: 0 <= i < j < pwrSaveIfs.Length && pwrSaveIfs[i] == pwrSaveIfs[j] ==> pwrSaveIfs[i] == 0
      modifies pwrSaveIfs
      ensures forall i, j :: 0 <= i < j < pwrSaveIfs.Length && pwrSaveIfs[i] == pwrSaveIfs[j] ==> pwrSaveIfs[i] == 0
      ensures forall x :: x != 0 && x != ip ==> (x in pwrSaveIfs[..] <==> x in old(pwrSaveIfs[..]))
      ensures ip in pwrSaveIfs[..] <==> 0 in old(pwrSaveIfs[..])
    {
      var cnt := 0;
      while cnt < pwrSaveIfs.Length && pwrSaveIfs[cnt] != 0
        invariant cnt <= pwrSaveIfs.Length && forall i :: 0 <= i < cnt ==> pwrSaveIfs[i] != 0
      {
        cnt := cnt + 1;
      }
      if cnt < pwrSaveIfs.Length {
        ghost var was := pwrSaveIfs[..];
        assert was[cnt] == 0;
        pwrSaveIfs[cnt] := ip;
        assert pwrSaveIfs[..] == was[cnt := ip];
        SetAddsOne(was, cnt, ip);
      }
    }

    /** Forgets `ip`. */
    method ForgetPwrSaveIf(ip: nat)
      requires ip != 0
      requires forall i, j :: 0 <= i < j < pwrSaveIfs.Length && pwrSaveIfs[i] == pwrSaveIfs[j] ==> pwrSaveIfs[i] == 0
      modifies pwrSaveIfs
      ensures forall i, j :: 0 <= i < j < pwrSaveIfs.Length && pwrSaveIfs[i] == pwrSaveIfs[j] ==> pwrSaveIfs[i] == 0
      ensures forall x :: x != 0 ==> (x in pwrSaveIfs[..] <==> x in old(pwrSaveIfs[..]) && x != ip)
    {
      var cnt := 0;
      while cnt < pwrSaveIfs.Length && pwrSaveIfs[cnt] != ip
        invariant cnt <= pwrSaveIfs.Length && forall i :: 0 <= i < cnt ==> pwrSaveIfs[i] != ip
      {
        cnt := cnt + 1;
      }
      if cnt < pwrSaveIfs.Length {
        ghost var was := pwrSaveIfs[..];
        pwrSaveIfs[cnt] := 0;
        assert pwrSaveIfs[..] == was[cnt := 0];
        SetRemovesOne(was, cnt);
      }
    }

    /** Without a table handle the hardware refuses, and an enabled slot stays as it is. */
    function WithdrawnNow(e: NatEntry, ip: nat, clearHdl: bool): NatEntry
      reads this`natTableHdl
    {
      if natTableHdl == 0 then e else Withdrawn(e, ip, clearHdl)
    }

    method WithdrawOne(i: nat, ip: nat, clearHdl: bool)
      requires Kept() && i < maxEntries
      modifies cache, this`curCnt, this`hwRules
      ensures Kept() && cache[i] == WithdrawnNow(old(cache[i]), ip, clearHdl)
      ensures forall k :: 0 <= k < maxEntries && k != i ==> cache[k] == old(cache[k])
    {
      if cache[i].privateIp == ip && cache[i].enabled {
        Withdraw(i, Withdrawn(cache[i], ip, clearHdl), false);
      }
    }

    /** Takes the enabled rules of a client out of the hardware; `clearHdl` also clears the handles. */
    method WithdrawClient(ip: nat, clearHdl: bool)
      requires Kept()
      modifies cache, this`curCnt, this`hwRules
      ensures Kept()
      ensures forall i :: 0 <= i < maxEntries ==> cache[i] == WithdrawnNow(old(cache[i]), ip, clearHdl)
      ensures natTableHdl != 0 ==> NoneInstalled(hwRules, ip)
    {
      for cnt := 0 to maxEntries
        invariant Kept()
        invariant forall i :: 0 <= i < cnt ==> cache[i] == WithdrawnNow(old(cache[i]), ip, clearHdl)
        invariant forall i :: cnt <= i < maxEntries ==> cache[i] == old(cache[i])
      {
        WithdrawOne(cnt, ip, clearHdl);
      }
      if natTableHdl != 0 { NoneLeft(cache[..], hwRules, owner, ip); }
    }

    /** Puts the cached rules of a client back into the hardware, or drops them. */
    method RestoreClient(ip: nat)
      requires Kept() && ip != 0
      modifies cache, this`curCnt, this`hwRules, this`owner, this`asked
      ensures Kept() && PutBack(old(cache[..]), cache[..], ip, old(asked), asked, maxEntries)
    {
      ghost var c, from := cache[..], asked;
      PutBackStarts(c, ip, from);
      for cnt := 0 to maxEntries
        invariant Kept() && PutBack(c, cache[..], ip, from, asked, cnt)
      {
        RestoreRound(cnt, ip, c, from);
      }
    }

    /** A rule of client `ip` is in the hardware. */
    ghost predicate Installed(ip: nat)
      reads this, cache
    {
      exists i :: 0 <= i < cache.Length && cache[i].enabled && cache[i].privateIp == ip
    }

    /** A client goes into power save: its rules leave the hardware but stay cached, unless the handle
        of the table is lost. */
    method UpdatePwrSaveIf(ip: nat) returns (ret: int)
      requires Kept()
      modifies cache, this`curCnt, this`hwRules, pwrSaveIfs
      ensures Kept()
      ensures ret == if ip == 0 then -1 else 0
      ensures old(SavingRespected()) ==>
        (SavingRespected() <==> natTableHdl != 0 || !IsPwrSaveIf(ip) || !old(Installed(ip)))
      ensures ip == 0 || old(IsPwrSaveIf(ip)) ==> cache[..] == old(cache[..]) && pwrSaveIfs[..] == old(pwrSaveIfs[..])
      ensures ip != 0 && !old(IsPwrSaveIf(ip)) ==>
        && (forall x :: x != ip ==> (IsPwrSaveIf(x) <==> old(IsPwrSaveIf(x))))
        && (IsPwrSaveIf(ip) <==> 0 in old(pwrSaveIfs[..]))
        && forall i :: 0 <= i < maxEntries ==> cache[i] == WithdrawnNow(old(cache[i]), ip, true)
      ensures ip != 0 && !old(IsPwrSaveIf(ip)) && natTableHdl != 0 ==> NoneInstalled(hwRules, ip)
    {
      if ip == 0 {
        return -1;
      }
      ret := 0;
      if ip in pwrSaveIfs[..] {
        return;
      }
      RecordPwrSaveIf(ip);
      ghost var saved := pwrSaveIfs[..];
      WithdrawClient(ip, true);
      assert pwrSaveIfs[..] == saved;
      if old(SavingRespected()) && natTableHdl != 0 {
        WithdrawingRespectsSaving(old(cache[..]), cache[..], old(pwrSaveIfs[..]), saved, ip);
      }
    }

    /** A client leaves power save: its cached rules go back in, or are dropped. */
    method ResetPwrSaveIf(ip: nat) returns (ret: int)
      requires Kept()
      modifies cache, this`curCnt, this`hwRules, this`owner, this`asked, pwrSaveIfs
      ensures Kept() && ret == -1
      ensures old(SavingRespected()) ==> SavingRespected()
      ensures forall x :: IsPwrSaveIf(x) <==> old(IsPwrSaveIf(x)) && x != ip
      ensures if ip == 0 then cache[..] == old(cache[..]) && asked == old(asked)
              else PutBack(old(cache[..]), cache[..], ip, old(asked), asked, maxEntries)
      ensures ip != 0 && RefusedNothing(old(asked), asked) ==> ClientBack(old(cache[..]), cache[..], ip)
    {
      ret := -1;
      if ip == 0 {
        return;
      }
      ForgetPwrSaveIf(ip);
      ghost var saved := pwrSaveIfs[..];
      ghost var c, from := cache[..], asked;
      RestoreClient(ip);
      assert pwrSaveIfs[..] == saved;
      if RefusedNothing(from, asked) { AcceptingHasClientBack(c, cache[..], ip, from, asked); }
    }

    // -------------------------------------------------------------- clients that disconnect

    /** A LAN client disconnects: its rules leave the hardware but stay cached. */
    method DelEntriesOnClntDiscon(ip: nat) returns (ret: int)
      requires Kept()
      modifies cache, this`curCnt, this`hwRules, pwrSaveIfs
      ensures Kept() && ret == if ip == 0 then -1 else 0
      ensures old(SavingRespected()) ==> SavingRespected()
      ensures forall x :: IsPwrSaveIf(x) <==> old(IsPwrSaveIf(x)) && x != ip
      ensures forall i :: 0 <= i < maxEntries ==>
        cache[i] == if ip == 0 then old(cache[i]) else WithdrawnNow(old(cache[i]), ip, false)
      ensures ip != 0 && natTableHdl != 0 ==> NoneInstalled(hwRules, ip)
    {
      if ip == 0 {
        return -1;
      }
      ForgetPwrSaveIf(ip);
      ghost var saved := pwrSaveIfs[..];
      WithdrawClient(ip, false);
      assert pwrSaveIfs[..] == saved;
      if old(SavingRespected()) && natTableHdl != 0 {
        WithdrawingRespectsSaving(old(cache[..]), cache[..], old(pwrSaveIfs[..]), saved, ip);
      }
      ret := 0;
    }

    /** The hardware gives up the slot's rule, if it has one. */
    predicate Forgettable(e: NatEntry)
      reads this`natTableHdl
    {
      natTableHdl != 0 || !e.enabled
    }

    method ForgetSTA(i: nat, ip: nat)
      requires Kept() && i < maxEntries && ip != 0
      modifies cache, this`curCnt, this`hwRules
      ensures Kept()
      ensures cache[i] ==
        if old(cache[i]).targetIp == ip && Forgettable(old(cache[i])) then ZERO_ENTRY else old(cache[i])
      ensures forall k :: 0 <= k < maxEntries && k != i ==> cache[k] == old(cache[k])
    {
      if cache[i].targetIp == ip {
        Forget(i, false);
      }
    }

    /** A station-mode client disconnects: the connections to it are forgotten altogether. */
    method DelEntriesOnSTAClntDiscon(ip: nat) returns (ret: int)
      requires Kept()
      modifies cache, this`curCnt, this`hwRules
      ensures Kept() && ret == if ip == 0 then -1 else 0
      ensures old(SavingRespected()) ==> SavingRespected()
      ensures forall i :: 0 <= i < maxEntries ==>
        cache[i] == if ip != 0 && old(cache[i]).targetIp == ip && Forgettable(old(cache[i])) then ZERO_ENTRY
                    else old(cache[i])
      ensures ip != 0 && natTableHdl != 0 ==> NothingToward(cache[..], hwRules, ip)
    {
      if ip == 0 {
        return -1;
      }
      for cnt := 0 to maxEntries
        modifies cache, this`curCnt, this`hwRules
        invariant Kept()
        invariant forall i :: 0 <= i < cnt ==>
          cache[i] == if old(cache[i]).targetIp == ip && Forgettable(old(cache[i])) then ZERO_ENTRY else old(cache[i])
        invariant forall i :: cnt <= i < maxEntries ==> cache[i] == old(cache[i])
      {
        ForgetSTA(cnt, ip);
      }
      if natTableHdl != 0 { NothingLeftToward(cache[..], hwRules, owner, ip); }
      ret := 0;
    }

    // -------------------------------------------------------------- connections waiting for a client

    /** A connection of a client that is not up waits in the first unused place, unless it is known. */
    method AddTempEntry(e: NatEntry)
      requires Kept()
      modifies temp
      ensures Kept()
      ensures temp[..] ==
        if UsesAlgPort(e) || HasTuple(cache[..], e) || HasTuple(old(temp[..]), e)
          || FirstVacant(old(temp[..])) >= temp.Length
        then old(temp[..])
        else old(temp[..])[FirstVacant(old(temp[..])) := e]
      ensures !UsesAlgPort(e) && !HasTuple(cache[..], e)
        && (exists i :: 0 <= i < temp.Length && old(temp[i]).privateIp == 0 && old(temp[i]).targetIp == 0)
        ==> HasTuple(temp[..], e)
    {
      if UsesAlgPort(e) {
        return;
      }
      var dup := ChkForDup(e);
      if dup {
        return;
      }
      for cnt := 0 to MAX_TEMP_ENTRIES
        invariant forall i :: 0 <= i < cnt ==> !SameTuple(temp[i], e)
      {
        if SameTuple(temp[cnt], e) {
          assert SameTuple(temp[..][cnt], e);
          return;
        }
      }
      for cnt := 0 to MAX_TEMP_ENTRIES
        invariant temp[..] == old(temp[..])
        invariant forall i :: 0 <= i < cnt ==> !Vacant(temp[..][i])
      {
        if temp[cnt].privateIp == 0 && temp[cnt].targetIp == 0 {
          FirstVacantIsFirst(temp[..], cnt);
          temp[cnt] := e;
          return;
        }
      }
      FirstVacantIsFirst(temp[..], MAX_TEMP_ENTRIES);
    }

    /** What is added for a waiting connection: with `isDummy`, one from the public address. */
    function ToAdd(e: NatEntry, isDummy: bool): NatEntry {
      if isDummy then e.(privateIp := e.publicIp, privatePort := e.publicPort) else e
    }

    /** A dummy connection is from the public address and port to where it was, any other stays. */
    lemma ToAddGoesSame(e: NatEntry)
      ensures FiveTuple(ToAdd(e, true)) == (e.publicIp, e.publicPort, e.targetIp, e.targetPort, e.protocol)
      ensures ToAdd(e, false) == e
    {}

    /** Flushing a place takes its contents from `e` to `e'` and the slots from `c` to `c'`: a
        connection through the current address is added and leaves its place, or waits on. */
    ghost predicate PlaceFlushed(isAdd: bool, isDummy: bool, e: NatEntry, e': NatEntry,
                                 c: seq<NatEntry>, c': seq<NatEntry>, from: seq<Ask>, to: seq<Ask>)
      reads this`natTableHdl, this`pubIpAddr, this`pwrSaveIfs, pwrSaveIfs
    {
      if isAdd && e.publicIp == pubIpAddr then
        || (Adds(ToAdd(e, isDummy), c, c', true, from, to) && e' == ZERO_ENTRY)
        || (Adds(ToAdd(e, isDummy), c, c', false, from, to) && e' == ToAdd(e, isDummy))
      else e' == ZERO_ENTRY && c' == c && to == from
    }

    /** The places `t` become `t'` one after the other, those of client `ip` by being flushed. */
    ghost predicate AllFlushed(ip: nat, isAdd: bool, isDummy: bool, t: seq<NatEntry>, t': seq<NatEntry>,
                               c: seq<NatEntry>, c': seq<NatEntry>, from: seq<Ask>, to: seq<Ask>)
      reads this`natTableHdl, this`pubIpAddr, this`pwrSaveIfs, pwrSaveIfs
    {
      |t'| == |t| &&
      if t == [] then c' == c && to == from
      else
        var n := |t| - 1;
        if t[n].privateIp != ip && t[n].targetIp != ip then
          t'[n] == t[n] && AllFlushed(ip, isAdd, isDummy, t[..n], t'[..n], c, c', from, to)
        else
          exists mid, sofar ::
            && AllFlushed(ip, isAdd, isDummy, t[..n], t'[..n], c, mid, from, sofar)
            && PlaceFlushed(isAdd, isDummy, t[n], t'[n], mid, c', sofar, to)
    }

    lemma FlushNext(ip: nat, isAdd: bool, isDummy: bool, t: seq<NatEntry>, t': seq<NatEntry>, n: nat,
                    c: seq<NatEntry>, mid: seq<NatEntry>, c': seq<NatEntry>,
                    from: seq<Ask>, sofar: seq<Ask>, to: seq<Ask>)
      requires n < |t| == |t'| && AllFlushed(ip, isAdd, isDummy, t[..n], t'[..n], c, mid, from, sofar)
      requires if t[n].privateIp != ip && t[n].targetIp != ip then t'[n] == t[n] && c' == mid && to == sofar
               else PlaceFlushed(isAdd, isDummy, t[n], t'[n], mid, c', sofar, to)
      ensures AllFlushed(ip, isAdd, isDummy, t[..n + 1], t'[..n + 1], c, c', from, to)
    {
      assert t[..n + 1][..n] == t[..n] && t'[..n + 1][..n] == t'[..n];
    }

    method SetTemp(i: nat, e: NatEntry)
      requires Kept() && i < MAX_TEMP_ENTRIES
      modifies temp
      ensures Kept() && temp[..] == old(temp[..])[i := e]
    {
      temp[i] := e;
    }

    /** Tries to add the waiting connection in place `i`. */
    method AddWaiting(i: nat, isDummy: bool) returns (ret: int)
      requires Kept() && i < MAX_TEMP_ENTRIES && temp[i].publicIp == pubIpAddr
      modifies temp, cache, this`curCnt, this`hwRules, this`owner, this`asked
      ensures Kept()
      ensures old(SavingRespected()) ==> SavingRespected()
      ensures temp[..] == old(temp[..])[i := ToAdd(old(temp[i]), isDummy)]
      ensures PlaceFlushed(true, isDummy, old(temp[i]), if ret == 0 then ZERO_ENTRY else temp[i],
                           old(cache[..]), cache[..], old(asked), asked)
    {
      if isDummy {
        SetTemp(i, temp[i].(privateIp := temp[i].publicIp, privatePort := temp[i].publicPort));
      }
      assert temp[i] == ToAdd(old(temp[i]), isDummy);
      ret := AddEntry(temp[i]);
      WaitingAdded(isDummy, old(temp[i]), old(cache[..]), cache[..], ret == 0, old(asked), asked);
    }

    /** Adds or drops the waiting connection in place `i`, which is then empty or still waiting. */
    method FlushOne(i: nat, isAdd: bool, isDummy: bool)
      requires Kept() && i < MAX_TEMP_ENTRIES
      modifies temp, cache, this`curCnt, this`hwRules, this`owner, this`asked
      ensures Kept()
      ensures old(SavingRespected()) ==> SavingRespected()
      ensures !isAdd ==> cache[..] == old(cache[..])
      ensures temp[..] == old(temp[..])[i := temp[i]]
      ensures PlaceFlushed(isAdd, isDummy, old(temp[i]), temp[i], old(cache[..]), cache[..], old(asked), asked)
    {
      if isAdd && temp[i].publicIp == pubIpAddr {
        FlushAdded(i, isDummy);
      } else {
        SetTemp(i, ZERO_ENTRY);
      }
    }

    /** The connection in place `i` is through the current address. */
    method FlushAdded(i: nat, isDummy: bool)
      requires Kept() && i < MAX_TEMP_ENTRIES && temp[i].publicIp == pubIpAddr
      modifies temp, cache, this`curCnt, this`hwRules, this`owner, this`asked
      ensures Kept()
      ensures old(SavingRespected()) ==> SavingRespected()
      ensures temp[..] == old(temp[..])[i := temp[i]]
      ensures PlaceFlushed(true, isDummy, old(temp[i]), temp[i], old(cache[..]), cache[..], old(asked), asked)
    {
      var ret := AddWaiting(i, isDummy);
      if ret != 0 {
        return;
      }
      ghost var c := cache[..];
      SetTemp(i, ZERO_ENTRY);
      assert cache[..] == c;
    }

    lemma WaitingAdded(isDummy: bool, e: NatEntry, c: seq<NatEntry>, c': seq<NatEntry>, ok: bool,
                       from: seq<Ask>, to: seq<Ask>)
      requires e.publicIp == pubIpAddr && Adds(ToAdd(e, isDummy), c, c', ok, from, to)
      ensures PlaceFlushed(true, isDummy, e, if ok then ZERO_ENTRY else ToAdd(e, isDummy), c, c', from, to)
    {}

    /** One round of the loop below, of the places `t` and the slots `c` that it started from. */
    method FlushRound(cnt: nat, ip: nat, isAdd: bool, isDummy: bool, ghost t: seq<NatEntry>, ghost c: seq<NatEntry>,
                      ghost from: seq<Ask>)
      requires Kept() && cnt < MAX_TEMP_ENTRIES == |t| && temp[cnt..] == t[cnt..]
      requires AllFlushed(ip, isAdd, isDummy, t[..cnt], temp[..cnt], c, cache[..], from, asked)
      modifies temp, cache, this`curCnt, this`hwRules, this`owner, this`asked
      ensures Kept()
      ensures old(SavingRespected()) ==> SavingRespected()
      ensures !isAdd ==> cache[..] == old(cache[..])
      ensures temp[cnt + 1..] == t[cnt + 1..]
      ensures AllFlushed(ip, isAdd, isDummy, t[..cnt + 1], temp[..cnt + 1], c, cache[..], from, asked)
    {
      ghost var mid, was, sofar := cache[..], temp[..], asked;
      assert temp[cnt] == temp[cnt..][0] == t[cnt];
      if temp[cnt].privateIp == ip || temp[cnt].targetIp == ip {
        FlushOne(cnt, isAdd, isDummy);
      }
      ghost var now := temp[..];
      assert now[..cnt] == was[..cnt] == old(temp[..cnt]);
      FlushNext(ip, isAdd, isDummy, t, now, cnt, c, mid, cache[..], from, sofar, asked);
      assert now[..cnt + 1] == temp[..cnt + 1];
      assert temp[cnt + 1..] == was[cnt..][1..] == t[cnt + 1..];
    }

    /** A client has come up or gone: its waiting connections are added or dropped. */
    method FlushTempEntries(ip: nat, isAdd: bool, isDummy: bool)
      requires Kept()
      modifies temp, cache, this`curCnt, this`hwRules, this`owner, this`asked
      ensures Kept()
      ensures old(SavingRespected()) ==> SavingRespected()
      ensures !isAdd ==> cache[..] == old(cache[..]) && hwRules == old(hwRules)
      ensures AllFlushed(ip, isAdd, isDummy, old(temp[..]), temp[..], old(cache[..]), cache[..], old(asked), asked)
    {
      ghost var t, c, from := temp[..], cache[..], asked;
      for cnt := 0 to MAX_TEMP_ENTRIES
        invariant Kept() && (old(SavingRespected()) ==> SavingRespected())
        invariant !isAdd ==> cache[..] == old(cache[..])
        invariant temp[cnt..] == t[cnt..]
        invariant AllFlushed(ip, isAdd, isDummy, t[..cnt], temp[..cnt], c, cache[..], from, asked)
      {
        FlushRound(cnt, ip, isAdd, isDummy, t, c, from);
      }
      assert t[..MAX_TEMP_ENTRIES] == t && temp[..MAX_TEMP_ENTRIES] == temp[..];
    }
  }

  const CONNECTION: NatEntry := NatEntry(5, 80, 9, 90, 0, 70, 6, 0, false, false, 0)

  /** A client has one connection, and the hardware has accepted it. */
  method Connected() returns (app: NatApp, accepted: bool)
    ensures fresh(app) && fresh(app.cache) && fresh(app.pwrSaveIfs) && app.Valid() && app.maxEntries == 1
    ensures accepted ==> app.natTableHdl != 0 && app.pubIpAddr == 7 && app.pwrSaveIfs[..] == [0]
    ensures accepted ==> app.cache[0] == CONNECTION.(enabled := true, ruleHdl := app.cache[0].ruleHdl)
  {
    app := new NatApp(1, [], 1);
    var ret := app.AddTable(7);
    if ret != 0 {
      return app, false;
    }
    ret := app.AddEntry(CONNECTION);
    accepted := ret == 0;
  }

  /** Then it starts to save power. */
  method SavingStarts() returns (app: NatApp, accepted: bool)
    ensures fresh(app) && fresh(app.cache) && app.Valid() && app.maxEntries == 1
    ensures accepted ==> app.natTableHdl != 0 && app.pubIpAddr == 7 && 5 in app.pwrSaveIfs[..]
    ensures accepted ==> app.cache[0].privateIp == 5
  {
    app, accepted := Connected();
    if accepted {
      assert app.pwrSaveIfs[0] == 0;
      var ret := app.UpdatePwrSaveIf(5);
    }
  }

  /** A run in which power save is forgotten: then the table goes down and comes back.  It happens
      whenever the hardware accepts what it is asked for. */
  method SavingForgotten() returns (app: NatApp, accepted: bool)
    ensures fresh(app) && app.Valid()
    ensures accepted ==> 5 in app.pwrSaveIfs[..] && !app.SavingRespected()
  {
    app, accepted := SavingStarts();
    if !accepted {
      return;
    }
    var ret := app.WanDownUp(7);
    accepted := ret == 0 && app.cache[0].enabled;
    assert app.cache[..][0] == app.cache[0];
  }

  /** A run in which the handle of the table is lost: the WAN comes up, a connection is installed, the
      WAN goes down with another address, which is refused, and comes up again.  From then on no table
      can be added or deleted and no connection added. */
  method HandleLost(other: nat, pubIp: nat, again: nat) returns (app: NatApp, accepted: bool)
    requires other != 7
    ensures fresh(app) && fresh(app.cache) && fresh(app.pwrSaveIfs)
    ensures accepted ==> app.pwrSaveIfs[..] == [0]
    ensures accepted ==> !app.Valid() && app.Kept() && app.natTableHdl == 0 && app.hwTable != 0
    ensures accepted ==> app.maxEntries == 1 && app.cache[0].ruleHdl in app.hwRules
    ensures accepted ==> app.cache[0] == CONNECTION.(enabled := true, ruleHdl := app.cache[0].ruleHdl)
  {
    app, accepted := Connected();
    if !accepted {
      return;
    }
    ghost var c := app.cache[..];
    var down := app.DeleteTable(other);
    var up := app.AddTable(pubIp);
    var down' := app.DeleteTable(again);
    var up' := app.AddTable(again);
    var add := app.AddEntry(CONNECTION.(privatePort := 81));
    assert down != 0 && up != 0 && down' != 0 && up' != 0 && add != 0;
    assert app.cache[..] == c && app.cache[..][0] == c[0];
  }

  /** When the connection is then deleted, its rule stays in the hardware although no slot has it. */
  method RuleLeftBehind() returns (app: NatApp, accepted: bool)
    ensures fresh(app)
    ensures accepted ==> app.hwRules != map[] && forall e :: e in app.cache[..] ==> e == ZERO_ENTRY
  {
    app, accepted := HandleLost(8, 7, 7);
    if accepted {
      var ret := app.DeleteEntry(CONNECTION);
      assert app.cache[0] == ZERO_ENTRY;
    }
  }

  /** And when the client starts to save power, its rule stays. */
  method SavingWithRule() returns (app: NatApp, accepted: bool)
    ensures fresh(app)
    ensures accepted ==> app.Kept() && !app.SavingRespected()
  {
    app, accepted := HandleLost(8, 7, 7);
    if accepted {
      assert app.pwrSaveIfs[0] == 0 && app.cache[0].enabled && app.cache[0].privateIp == 5;
      assert app.SavingRespected();
      var ret := app.UpdatePwrSaveIf(5);
    }
  }

  /** Deleting a connection that is all zero from an empty cache takes the count below zero. */
  method ZeroRuleDrifts() returns (app: NatApp)
    ensures fresh(app) && !app.Valid() && app.curCnt == -1
    ensures Count(app.cache[..]) == 0
  {
    app := new NatApp(1, [], 0);
    assert SameTuple(app.cache[..][0], ZERO_ENTRY);
    CountFree(app.cache[..]);
    var ret := app.DeleteEntry(ZERO_ENTRY);
  }

  lemma SetAddsOne(s: seq<nat>, k: nat, x: nat)
    requires k < |s| && s[k] == 0 && x != 0
    ensures forall y :: y != 0 && y != x ==> (y in s[k := x] <==> y in s)
    ensures x in s[k := x]
  {
    forall y | y != 0 && y != x ensures y in s[k := x] <==> y in s {
      if y in s {
        var i :| 0 <= i < |s| && s[i] == y;
        assert s[k := x][i] == y;
      }
    }
    assert s[k := x][k] == x;
  }

  lemma SetRemovesOne(s: seq<nat>, k: nat)
    requires k < |s| && s[k] != 0
    requires forall i, j :: 0 <= i < j < |s| && s[i] == s[j] ==> s[i] == 0
    ensures forall y :: y != 0 ==> (y in s[k := 0] <==> y in s && y != s[k])
  {
    forall y | y != 0 ensures y in s[k := 0] <==> y in s && y != s[k] {
      if y in s && y != s[k] {
        var i :| 0 <= i < |s| && s[i] == y;
        assert s[k := 0][i] == y;
      }
    }
  }
}
