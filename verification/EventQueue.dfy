/** The configuration manager's events: two queues of messages of which the internal one goes
    first, and the list of listeners that a processed event is delivered to. */
module EventQueue {

  /** An event: its id, and what it carries. */
  datatype Evt = Evt(event: nat, data: nat)

  /** IPA_EXTERNAL_EVENT_MAX is a parameter: ids below it go to the external queue. */
  predicate IsInternal(e: Evt, externalMax: nat) {
    e.event >= externalMax
  }

  // ---------------------------------------------------------------- the listeners

  /** A registration of listener `obj` for an event id. */
  datatype Registration = Registration(event: nat, obj: nat)

  /** The registrations of all listeners but `obj`, in their order. */
  function Without(s: seq<Registration>, obj: nat): seq<Registration> {
    if s == [] then []
    else (if s[0].obj == obj then [] else [s[0]]) + Without(s[1..], obj)
  }

  /** The listeners registered for `event`, in registration order. */
  function ListenersFor(s: seq<Registration>, event: nat): seq<nat> {
    if s == [] then []
    else (if s[0].event == event then [s[0].obj] else []) + ListenersFor(s[1..], event)
  }

  /** The registrations of listener `obj`, in their order. */
  function OfListener(s: seq<Registration>, obj: nat): seq<Registration> {
    if s == [] then []
    else (if s[0].obj == obj then [s[0]] else []) + OfListener(s[1..], obj)
  }

  /** Deregistering a listener removes all its registrations, and every other listener keeps its
      own in their order. */
  lemma {:induction false} WithoutKeepsOthers(s: seq<Registration>, obj: nat, other: nat)
    ensures OfListener(Without(s, obj), other) == if other == obj then [] else OfListener(s, other)
  {
    if s != [] {
      WithoutKeepsOthers(s[1..], obj, other);
      if s[0].obj != obj {
        assert Without(s, obj)[0] == s[0] && Without(s, obj)[1..] == Without(s[1..], obj);
      } else {
        assert Without(s, obj) == Without(s[1..], obj);
      }
    }
  }

  function Except(s: seq<nat>, obj: nat): seq<nat> {
    if s == [] then [] else (if s[0] == obj then [] else [s[0]]) + Except(s[1..], obj)
  }

  /** After deregistering `obj`, an event reaches exactly the other listeners it reached before, in
      the same order. */
  lemma {:induction false} DeregisteredIsNotCalled(s: seq<Registration>, obj: nat, event: nat)
    ensures ListenersFor(Without(s, obj), event) == Except(ListenersFor(s, event), obj)
  {
    if s != [] {
      DeregisteredIsNotCalled(s[1..], obj, event);
      var rest := Without(s[1..], obj);
      if s[0].obj != obj {
        assert Without(s, obj)[0] == s[0] && Without(s, obj)[1..] == rest;
      } else {
        assert Without(s, obj) == rest;
      }
      if s[0].event == event {
        assert ListenersFor(s, event)[0] == s[0].obj && ListenersFor(s, event)[1..] == ListenersFor(s[1..], event);
      } else {
        assert ListenersFor(s, event) == ListenersFor(s[1..], event);
      }
    }
  }

  lemma {:induction false} WithoutAppend(s: seq<Registration>, x: Registration, obj: nat)
    ensures Without(s + [x], obj) == Without(s, obj) + if x.obj == obj then [] else [x]
  {
    if s == [] {
      assert s + [x] == [x];
      assert [x][1..] == [];
    } else {
      WithoutAppend(s[1..], x, obj);
      assert (s + [x])[1..] == s[1..] + [x];
    }
  }

  lemma {:induction false} ListenersAppend(s: seq<Registration>, x: Registration, event: nat)
    ensures ListenersFor(s + [x], event) == ListenersFor(s, event) + if x.event == event then [x.obj] else []
  {
    if s == [] {
      assert s + [x] == [x];
      assert [x][1..] == [];
    } else {
      ListenersAppend(s[1..], x, event);
      assert (s + [x])[1..] == s[1..] + [x];
    }
  }

  /** A call that changes the list of registrations. */
  datatype Change = Register(event: nat, obj: nat) | Deregister(obj: nat)

  function ChangedBy(s: seq<Registration>, c: Change): seq<Registration> {
    match c
    case Register(event, obj) => s + [Registration(event, obj)]
    case Deregister(obj) => Without(s, obj)
  }

  function Changed(s: seq<Registration>, changes: seq<Change>): seq<Registration>
    decreases |changes|
  {
    if changes == [] then s else Changed(ChangedBy(s, changes[0]), changes[1..])
  }

  // ---------------------------------------------------------------- the two queues over a run

  /** A delivery: an event, and the listeners it was delivered to, in the order of the calls. */
  datatype Delivery = Delivery(e: Evt, called: seq<nat>)

  /** The queues, what was posted and processed so far, the registrations, and the deliveries. */
  datatype Queues = Queues(
    internal: seq<Evt>, external: seq<Evt>, posted: seq<Evt>, done: seq<Evt>,
    regs: seq<Registration>, delivered: seq<Delivery>)

  datatype Op = Post(e: Evt) | ProcessNext | Listen(change: Change)

  const NO_EVENTS: Queues := Queues([], [], [], [], [], [])

  /** The next event is taken from its queue. */
  function Take(q: Queues): (q': Queues)
    ensures q.done <= q'.done && |q'.done| <= |q.done| + 1
  {
    if q.internal != [] then q.(internal := q.internal[1..], done := q.done + [q.internal[0]])
    else if q.external != [] then q.(external := q.external[1..], done := q.done + [q.external[0]])
    else q
  }

  /** An event that was taken is delivered to those registered now. */
  function Deliver(q: Queues, taken: Queues): Queues
    requires q.done <= taken.done
  {
    if |taken.done| == |q.done| then taken
    else
      var e := taken.done[|q.done|];
      taken.(delivered := q.delivered + [Delivery(e, ListenersFor(q.regs, e.event))])
  }

  function Do(q: Queues, op: Op, externalMax: nat): Queues {
    match op
    case Post(e) =>
      if IsInternal(e, externalMax) then q.(internal := q.internal + [e], posted := q.posted + [e])
      else q.(external := q.external + [e], posted := q.posted + [e])
    case ProcessNext => Deliver(q, Take(q))
    case Listen(change) => q.(regs := ChangedBy(q.regs, change))
  }

  function After(q: Queues, ops: seq<Op>, externalMax: nat): Queues
    decreases |ops|
  {
    if ops == [] then q else Do(After(q, ops[..|ops| - 1], externalMax), ops[|ops| - 1], externalMax)
  }

  /** The internal, or the external, events of a list, in their order. */
  function Only(s: seq<Evt>, internal: bool, externalMax: nat): seq<Evt> {
    if s == [] then []
    else (if IsInternal(s[0], externalMax) == internal then [s[0]] else []) + Only(s[1..], internal, externalMax)
  }

  lemma {:induction false} OnlyAppend(s: seq<Evt>, x: Evt, internal: bool, externalMax: nat)
    ensures Only(s + [x], internal, externalMax) ==
      Only(s, internal, externalMax) + if IsInternal(x, externalMax) == internal then [x] else []
  {
    if s == [] {
      assert s + [x] == [x];
      assert [x][1..] == [];
    } else {
      OnlyAppend(s[1..], x, internal, externalMax);
      assert (s + [x])[1..] == s[1..] + [x];
    }
  }

  /** Each queue holds what was posted to it and not yet processed, in posting order. */
  ghost predicate InOrder(q: Queues, externalMax: nat) {
    && Only(q.posted, true, externalMax) == Only(q.done, true, externalMax) + q.internal
    && Only(q.posted, false, externalMax) == Only(q.done, false, externalMax) + q.external
    && (forall i :: 0 <= i < |q.internal| ==> IsInternal(q.internal[i], externalMax))
    && (forall i :: 0 <= i < |q.external| ==> !IsInternal(q.external[i], externalMax))
  }

  lemma PostKeepsOrder(q: Queues, e: Evt, externalMax: nat)
    requires InOrder(q, externalMax)
    ensures InOrder(Do(q, Post(e), externalMax), externalMax)
  {
    OnlyAppend(q.posted, e, true, externalMax);
    OnlyAppend(q.posted, e, false, externalMax);
  }

  lemma ProcessKeepsOrder(q: Queues, externalMax: nat)
    requires InOrder(q, externalMax)
    ensures InOrder(Do(q, ProcessNext, externalMax), externalMax)
  {
    if q.internal != [] {
      ProcessInternalKeepsOrder(q, externalMax);
    } else if q.external != [] {
      ProcessExternalKeepsOrder(q, externalMax);
    }
  }

  lemma ProcessInternalKeepsOrder(q: Queues, externalMax: nat)
    requires InOrder(q, externalMax) && q.internal != []
    ensures InOrder(q.(internal := q.internal[1..], done := q.done + [q.internal[0]]), externalMax)
  {
    OnlyAppend(q.done, q.internal[0], true, externalMax);
    OnlyAppend(q.done, q.internal[0], false, externalMax);
    assert q.internal == [q.internal[0]] + q.internal[1..];
  }

  lemma ProcessExternalKeepsOrder(q: Queues, externalMax: nat)
    requires InOrder(q, externalMax) && q.external != []
    ensures InOrder(q.(external := q.external[1..], done := q.done + [q.external[0]]), externalMax)
  {
    OnlyAppend(q.done, q.external[0], true, externalMax);
    OnlyAppend(q.done, q.external[0], false, externalMax);
    assert q.external == [q.external[0]] + q.external[1..];
  }

  lemma {:induction false} RunKeepsOrder(ops: seq<Op>, externalMax: nat)
    ensures InOrder(After(NO_EVENTS, ops, externalMax), externalMax)
    decreases |ops|
  {
    if ops != [] {
      RunKeepsOrder(ops[..|ops| - 1], externalMax);
      var q := After(NO_EVENTS, ops[..|ops| - 1], externalMax);
      match ops[|ops| - 1]
      case Post(e) => PostKeepsOrder(q, e, externalMax);
      case ProcessNext => ProcessKeepsOrder(q, externalMax);
      case Listen(change) =>
    }
  }

  /** The events posted in a run, in their order. */
  function Posts(ops: seq<Op>): seq<Evt>
    decreases |ops|
  {
    if ops == [] then []
    else
      var op := ops[|ops| - 1];
      Posts(ops[..|ops| - 1]) + if op.Post? then [op.e] else []
  }

  lemma {:induction false} PostedAreThePosts(ops: seq<Op>, externalMax: nat)
    ensures After(NO_EVENTS, ops, externalMax).posted == Posts(ops)
    decreases |ops|
  {
    if ops != [] { PostedAreThePosts(ops[..|ops| - 1], externalMax); }
  }

  /** In every run the events of each kind are processed in posting order, each at most once; what is
      not yet processed waits in the queue for its kind. */
  lemma {:induction false} ProcessedInOrder(ops: seq<Op>, internal: bool, externalMax: nat)
    ensures var q := After(NO_EVENTS, ops, externalMax);
            Only(Posts(ops), internal, externalMax) ==
              Only(q.done, internal, externalMax) + if internal then q.internal else q.external
  {
    RunKeepsOrder(ops, externalMax);
    PostedAreThePosts(ops, externalMax);
  }

  /** An external event is processed only when every internal event posted so far has been. */
  lemma InternalGoesFirst(ops: seq<Op>, externalMax: nat)
    ensures var q := After(NO_EVENTS, ops, externalMax);
            var q' := Do(q, ProcessNext, externalMax);
            |q'.done| > |q.done| && !IsInternal(q'.done[|q.done|], externalMax) ==>
              Only(q.done, true, externalMax) == Only(Posts(ops), true, externalMax)
  {
    RunKeepsOrder(ops, externalMax);
    PostedAreThePosts(ops, externalMax);
  }

  /** As long as an event waits, processing makes progress. */
  lemma NoEventIsStuck(ops: seq<Op>, externalMax: nat)
    ensures var q := After(NO_EVENTS, ops, externalMax);
            |q.done| < |Posts(ops)| ==> |Do(q, ProcessNext, externalMax).done| == |q.done| + 1
  {
    RunKeepsOrder(ops, externalMax);
    PostedAreThePosts(ops, externalMax);
    KindsAddUp(Posts(ops), externalMax);
    KindsAddUp(After(NO_EVENTS, ops, externalMax).done, externalMax);
  }

  lemma {:induction false} KindsAddUp(s: seq<Evt>, externalMax: nat)
    ensures |Only(s, true, externalMax)| + |Only(s, false, externalMax)| == |s|
  {
    if s != [] { KindsAddUp(s[1..], externalMax); }
  }

  /** An event is of the internal kind exactly if its number is not below the limit. */
  lemma {:induction false} KindIsByNumber(s: seq<Evt>, e: Evt, externalMax: nat)
    ensures e in Only(s, true, externalMax) <==> e in s && e.event >= externalMax
    ensures e in Only(s, false, externalMax) <==> e in s && e.event < externalMax
  {
    if s != [] {
      KindIsByNumber(s[1..], e, externalMax);
      assert s == [s[0]] + s[1..];
    }
  }

  /** Listener `obj` registered for `event` at `i`, and has not deregistered since. */
  ghost predicate StillRegistered(changes: seq<Change>, i: nat, event: nat, obj: nat) {
    i < |changes| && changes[i] == Register(event, obj) && Deregister(obj) !in changes[i..]
  }

  lemma {:induction false} InListeners(s: seq<Registration>, event: nat, obj: nat)
    ensures obj in ListenersFor(s, event) <==> Registration(event, obj) in s
  {
    if s != [] {
      InListeners(s[1..], event, obj);
      assert s == [s[0]] + s[1..];
    }
  }

  lemma {:induction false} InWithout(s: seq<Registration>, x: Registration, obj: nat)
    ensures x in Without(s, obj) <==> x in s && x.obj != obj
  {
    if s != [] {
      InWithout(s[1..], x, obj);
      assert s == [s[0]] + s[1..];
    }
  }

  lemma {:induction false} InChanged(changes: seq<Change>, event: nat, obj: nat)
    ensures Registration(event, obj) in Changed([], changes) <==> exists i :: StillRegistered(changes, i, event, obj)
    decreases |changes|
  {
    if changes != [] {
      var m := |changes| - 1;
      var before, c := changes[..m], changes[m];
      assert changes == before + [c];
      ChangedAppend([], before, c);
      InChanged(before, event, obj);
      if c.Deregister? { InWithout(Changed([], before), Registration(event, obj), c.obj); }
      StillRegisteredNext(before, c, event, obj);
    }
  }

  lemma {:induction false} StillRegisteredNext(before: seq<Change>, c: Change, event: nat, obj: nat)
    ensures (exists i :: StillRegistered(before + [c], i, event, obj)) <==>
            c == Register(event, obj) || (c != Deregister(obj) && exists i :: StillRegistered(before, i, event, obj))
  {
    var changes := before + [c];
    if i: nat :| StillRegistered(changes, i, event, obj) && i < |before| {
      assert changes[i..] == before[i..] + [c];
      assert StillRegistered(before, i, event, obj) && c in changes[i..];
    }
    if c == Register(event, obj) {
      assert changes[|before|..] == [c];
      assert StillRegistered(changes, |before|, event, obj);
    } else if c != Deregister(obj) && exists i :: StillRegistered(before, i, event, obj) {
      var i: nat :| StillRegistered(before, i, event, obj);
      assert changes[i..] == before[i..] + [c];
      assert StillRegistered(changes, i, event, obj);
    }
  }

  /** After any registrations and deregistrations an event is delivered to a listener exactly if that has
      registered for it and not deregistered since. */
  lemma {:induction false} CalledIffRegistered(changes: seq<Change>, event: nat, obj: nat)
    ensures obj in ListenersFor(Changed([], changes), event) <==> exists i :: StillRegistered(changes, i, event, obj)
  {
    InListeners(Changed([], changes), event, obj);
    InChanged(changes, event, obj);
  }

  /** The registrations and deregistrations of a run. */
  function Changes(ops: seq<Op>): seq<Change>
    decreases |ops|
  {
    if ops == [] then []
    else
      var op := ops[|ops| - 1];
      Changes(ops[..|ops| - 1]) + if op.Listen? then [op.change] else []
  }

  lemma {:induction false} ChangedAppend(s: seq<Registration>, changes: seq<Change>, c: Change)
    ensures Changed(s, changes + [c]) == ChangedBy(Changed(s, changes), c)
    decreases |changes|
  {
    if changes == [] {
      assert changes + [c] == [c] && [c][1..] == [];
    } else {
      assert (changes + [c])[1..] == changes[1..] + [c];
      ChangedAppend(ChangedBy(s, changes[0]), changes[1..], c);
    }
  }

  lemma {:induction false} RegistrationsAfter(ops: seq<Op>, externalMax: nat)
    ensures After(NO_EVENTS, ops, externalMax).regs == Changed([], Changes(ops))
    decreases |ops|
  {
    if ops != [] {
      var before, op := ops[..|ops| - 1], ops[|ops| - 1];
      RegistrationsAfter(before, externalMax);
      if op.Listen? {
        ChangedAppend([], Changes(before), op.change);
      } else {
        assert Changes(ops) == Changes(before);
      }
    }
  }

  /** The `i`-th event processed in the run was processed by its `n`-th operation, and delivered to
      those whom the changes before that had registered for it. */
  ghost predicate ProcessedAt(ops: seq<Op>, externalMax: nat, i: nat, n: nat) {
    var q := After(NO_EVENTS, ops, externalMax);
    && n < |ops| && ops[n] == ProcessNext && |After(NO_EVENTS, ops[..n], externalMax).done| == i
    && i < |q.done| && i < |q.delivered|
    && q.delivered[i] == Delivery(q.done[i], ListenersFor(Changed([], Changes(ops[..n])), q.done[i].event))
  }

  ghost predicate WasProcessed(ops: seq<Op>, externalMax: nat, i: nat) {
    exists n: nat :: ProcessedAt(ops, externalMax, i, n)
  }

  lemma StepKeepsDeliveries(q: Queues, op: Op, externalMax: nat)
    requires |q.delivered| == |q.done|
    ensures var q' := Do(q, op, externalMax);
            q.done <= q'.done && q.delivered <= q'.delivered && |q'.delivered| == |q'.done| <= |q.done| + 1
    ensures var q' := Do(q, op, externalMax);
            |q'.done| > |q.done| ==>
              && op == ProcessNext
              && q'.delivered[|q.done|] ==
                   Delivery(q'.done[|q.done|], ListenersFor(q.regs, q'.done[|q.done|].event))
  {}

  lemma {:induction false} DeliveriesMatch(ops: seq<Op>, externalMax: nat)
    ensures var q := After(NO_EVENTS, ops, externalMax); |q.delivered| == |q.done|
    decreases |ops|
  {
    if ops != [] {
      DeliveriesMatch(ops[..|ops| - 1], externalMax);
      StepKeepsDeliveries(After(NO_EVENTS, ops[..|ops| - 1], externalMax), ops[|ops| - 1], externalMax);
    }
  }

  /** In every run each processed event is delivered once, to exactly the listeners registered at the
      moment it was processed, in registration order. */
  lemma {:induction false} DeliveredWhenProcessed(ops: seq<Op>, externalMax: nat, i: nat)
    requires i < |After(NO_EVENTS, ops, externalMax).done|
    ensures |After(NO_EVENTS, ops, externalMax).delivered| == |After(NO_EVENTS, ops, externalMax).done|
    ensures WasProcessed(ops, externalMax, i)
    decreases |ops|
  {
    var m := |ops| - 1;
    var q := After(NO_EVENTS, ops[..m], externalMax);
    DeliveriesMatch(ops[..m], externalMax);
    StepKeepsDeliveries(q, ops[m], externalMax);
    if i < |q.done| {
      DeliveredWhenProcessed(ops[..m], externalMax, i);
      var n: nat :| ProcessedAt(ops[..m], externalMax, i, n);
      assert ops[..m][..n] == ops[..n];
      assert ProcessedAt(ops, externalMax, i, n);
    } else {
      RegistrationsAfter(ops[..m], externalMax);
      assert ProcessedAt(ops, externalMax, i, m);
    }
  }

  // ---------------------------------------------------------------- the queue with its stale tail

  class Message {
    var next: Message?
    const evt: Evt

    constructor (evt: Evt)
      ensures next == null && this.evt == evt
    {
      next := null;
      this.evt := evt;
    }
  }

  function MessageAt(s: seq<Message>, i: int): Message? {
    if 0 <= i < |s| then s[i] else null
  }

  function EvtsOf(s: seq<Message>): (r: seq<Evt>)
    ensures |r| == |s| && forall i :: 0 <= i < |s| ==> r[i] == s[i].evt
  {
    seq(|s|, i requires 0 <= i < |s| => s[i].evt)
  }

  lemma EvtsOfTail(s: seq<Message>)
    requires s != []
    ensures EvtsOf(s) != [] && EvtsOf(s)[0] == s[0].evt && EvtsOf(s[1..]) == EvtsOf(s)[1..]
  {}

  lemma TailMembers(s: seq<Message>)
    requires s != []
    ensures forall i :: 0 <= i < |s[1..]| ==> s[1..][i] == s[i + 1]
    ensures forall m :: m in s[1..] ==> m in s
  {}

  /** A singly linked queue.  When it has become empty, `tail` still points to the last message
      that was taken out, and which has been deleted. */
  class MessageQueue {
    var head: Message?
    var tail: Message?
    ghost var nodes: seq<Message>

    ghost predicate LinkedAt(i: nat)
      requires i < |nodes|
      reads this`nodes, nodes
    {
      nodes[i].next == MessageAt(nodes, i + 1)
    }

    ghost predicate Valid()
      reads this, nodes
    {
      && head == MessageAt(nodes, 0)
      && (nodes != [] ==> tail == MessageAt(nodes, |nodes| - 1))
      && (forall i, j :: 0 <= i < j < |nodes| ==> nodes[i] != nodes[j])
      && (forall i :: 0 <= i < |nodes| ==> LinkedAt(i))
    }

    ghost function Contents(): seq<Evt>
      reads this`nodes
    {
      EvtsOf(nodes)
    }

    constructor ()
      ensures Valid() && nodes == []
    {
      head, tail, nodes := null, null, [];
    }

    /** Appends a message; writes to messages in the queue only, never through a stale tail. */
    method Enqueue(item: Message)
      requires Valid() && item.next == null && item !in nodes
      modifies this, nodes
      ensures Valid() && nodes == old(nodes) + [item] && Contents() == old(Contents()) + [item.evt]
    {
      if head == null {
        tail := item;
        head := item;
      } else {
        assert LinkedAt(|nodes| - 1);
        if tail == null {
          assert false;
        } else {
          tail.next := item;
        }
        tail := item;
      }
      nodes := nodes + [item];
      forall i | 0 <= i < |nodes| ensures LinkedAt(i) {
        if i < |nodes| - 1 { assert old(LinkedAt(i)); }
      }
    }

    method Dequeue() returns (item: Message?)
      requires Valid()
      modifies this
      ensures Valid() && (item == null <==> old(nodes) == [])
      ensures nodes == if old(nodes) == [] then [] else old(nodes)[1..]
      ensures item != null ==> item == old(nodes)[0] && item !in nodes
      ensures item != null ==> old(Contents()) != [] && item.evt == old(Contents())[0]
      ensures item != null ==> Contents() == old(Contents())[1..]
      ensures forall n :: n in nodes ==> n in old(nodes)
    {
      if head == null {
        return null;
      }
      assert LinkedAt(0);
      EvtsOfTail(nodes);
      TailMembers(nodes);
      item := head;
      head := head.next;
      nodes := nodes[1..];
      forall i | 0 <= i < |nodes| ensures LinkedAt(i) {
        assert old(LinkedAt(i + 1));
      }
    }
  }

  // ---------------------------------------------------------------- the list of listeners

  class CmdEvt {
    var next: CmdEvt?
    const reg: Registration

    constructor (reg: Registration)
      ensures next == null && this.reg == reg
    {
      next := null;
      this.reg := reg;
    }
  }

  function CmdAt(s: seq<CmdEvt>, i: int): CmdEvt? {
    if 0 <= i < |s| then s[i] else null
  }

  function RegsOf(s: seq<CmdEvt>): (r: seq<Registration>)
    ensures |r| == |s| && forall i :: 0 <= i < |s| ==> r[i] == s[i].reg
  {
    seq(|s|, i requires 0 <= i < |s| => s[i].reg)
  }

  class Listeners {
    var head: CmdEvt?
    ghost var nodes: seq<CmdEvt>

    ghost predicate LinkedAt(i: nat)
      requires i < |nodes|
      reads this`nodes, nodes
    {
      nodes[i].next == CmdAt(nodes, i + 1)
    }

    ghost predicate Valid()
      reads this, nodes
    {
      && head == CmdAt(nodes, 0)
      && (forall i, j :: 0 <= i < j < |nodes| ==> nodes[i] != nodes[j])
      && (forall i :: 0 <= i < |nodes| ==> LinkedAt(i))
    }

    constructor ()
      ensures Valid() && nodes == []
    {
      head, nodes := null, [];
    }

    /** Appends a registration at the end of the list. */
    method Registr(event: nat, obj: nat)
      requires Valid()
      modifies this, nodes
      ensures Valid() && RegsOf(nodes) == old(RegsOf(nodes)) + [Registration(event, obj)]
      ensures fresh(set n | n in nodes && n !in old(nodes))
    {
      var nw := new CmdEvt(Registration(event, obj));
      if head == null {
        head := nw;
      } else {
        var tmp := head;
        ghost var k := 0;
        assert LinkedAt(0);
        while tmp.next != null
          invariant 0 <= k < |nodes| && tmp == nodes[k] && Valid() && unchanged(this) && unchanged(nodes) && LinkedAt(k)
          decreases |nodes| - k
        {
          tmp := tmp.next;
          k := k + 1;
          assert LinkedAt(k);
        }
        tmp.next := nw;
      }
      nodes := nodes + [nw];
      forall i | 0 <= i < |nodes| ensures LinkedAt(i) {
        if i < |nodes| - 1 { assert old(LinkedAt(i)); }
      }
    }

    /** Unlinks the element at position `k`; `prev` is the one before it, unless it is the first. */
    method Unlink(tmp: CmdEvt, prev: CmdEvt?, ghost k: nat)
      requires Valid() && k < |nodes| && tmp == nodes[k] && (k > 0 ==> prev == nodes[k - 1])
      modifies this, nodes
      ensures Valid() && nodes == old(nodes)[..k] + old(nodes)[k + 1..] && tmp.next == old(tmp.next)
    {
      assert LinkedAt(k);
      if tmp == head {
        head := head.next;
      } else {
        assert LinkedAt(k - 1);
        if tmp.next == null {
          prev.next := null;
        } else {
          prev.next := tmp.next;
        }
      }
      ghost var was := nodes;
      nodes := was[..k] + was[k + 1..];
      forall i | 0 <= i < |nodes| ensures LinkedAt(i) {
        if i < k { assert old(LinkedAt(i)); } else { assert old(LinkedAt(i + 1)); }
      }
    }

    /** `was` is the list when the loop of Deregistr started, of which `n` elements have been looked
        at; `k` of them were kept. */
    ghost predicate Pruned(was: seq<Registration>, n: nat, k: nat, param: nat)
      reads this`nodes
    {
      && n <= |was| && k <= |nodes|
      && RegsOf(nodes)[..k] == Without(was[..n], param) && RegsOf(nodes)[k..] == was[n..]
    }

    /** One turn of the loop of Deregistr: `tmp` is at position `k`, `prev` before it. */
    method DeregistrOne(tmp: CmdEvt, prev: CmdEvt?, param: nat, ghost was: seq<Registration>, ghost n: nat,
                        ghost k: nat)
      returns (tmp': CmdEvt?, prev': CmdEvt?, ghost k': nat)
      requires Valid() && Pruned(was, n, k, param) && k < |nodes| && tmp == nodes[k] && (k > 0 ==> prev == nodes[k - 1])
      modifies this, nodes
      ensures Valid() && Pruned(was, n + 1, k', param) && k' <= |nodes|
      ensures tmp' == CmdAt(nodes, k') && (k' > 0 ==> prev' == nodes[k' - 1])
      ensures forall i :: 0 <= i < |nodes| ==> nodes[i] in old(nodes)
    {
      ghost var before := RegsOf(nodes);
      assert before[k] == before[k..][0] == was[n..][0] == was[n];
      assert was[..n + 1] == was[..n] + [was[n]];
      WithoutAppend(was[..n], was[n], param);
      assert LinkedAt(k);
      if tmp.reg.obj == param {
        Unlink(tmp, prev, k);
        tmp', prev', k' := tmp.next, prev, k;
        assert RegsOf(nodes)[..k] == before[..k];
        assert RegsOf(nodes)[k..] == before[k + 1..] == before[k..][1..];
      } else {
        tmp', prev', k' := tmp.next, tmp, k + 1;
        assert before[..k + 1] == before[..k] + [before[k]];
        assert before[k + 1..] == before[k..][1..];
      }
    }

    /** Removes all registrations of `param`. */
    method Deregistr(param: nat)
      requires Valid()
      modifies this, nodes
      ensures Valid() && RegsOf(nodes) == Without(old(RegsOf(nodes)), param)
      ensures fresh(set n | n in nodes && n !in old(nodes))
    {
      var tmp, prev := head, head;
      ghost var was := RegsOf(nodes);
      ghost var n: nat, k: nat := 0, 0;
      assert was[..0] == [] && was[0..] == was;
      while tmp != null
        invariant Valid() && Pruned(was, n, k, param) && tmp == CmdAt(nodes, k) && (k > 0 ==> prev == nodes[k - 1])
        invariant forall i :: 0 <= i < |nodes| ==> nodes[i] in old(nodes)
        decreases |was| - n
      {
        tmp, prev, k := DeregistrOne(tmp, prev, param, was, n, k);
        n := n + 1;
      }
      assert was[n..] == [] && was[..n] == was && RegsOf(nodes)[..k] == RegsOf(nodes);
    }

    /** The listeners that the event is delivered to, in the order of the calls. */
    method ProcessEvt(event: nat) returns (called: seq<nat>)
      requires Valid()
      ensures called == ListenersFor(RegsOf(nodes), event)
    {
      var tmp := head;
      called := [];
      ghost var k := 0;
      ghost var regs := RegsOf(nodes);
      assert regs[..0] == [];
      while tmp != null
        invariant 0 <= k <= |nodes| && tmp == CmdAt(nodes, k) && called == ListenersFor(regs[..k], event)
        decreases |nodes| - k
      {
        assert LinkedAt(k) && regs[..k + 1] == regs[..k] + [regs[k]];
        ListenersAppend(regs[..k], regs[k], event);
        if event == tmp.reg.event {
          called := called + [tmp.reg.obj];
        }
        tmp := tmp.next;
        k := k + 1;
      }
      assert regs[..k] == regs;
    }

    method Perform(c: Change)
      requires Valid()
      modifies this, nodes
      ensures Valid() && RegsOf(nodes) == ChangedBy(old(RegsOf(nodes)), c)
      ensures fresh(set n | n in nodes && n !in old(nodes))
    {
      match c
      case Register(event, obj) => Registr(event, obj);
      case Deregister(obj) => Deregistr(obj);
    }

    /** Any sequence of registrations and deregistrations. */
    method PerformAll(changes: seq<Change>)
      requires Valid()
      modifies this, nodes
      ensures Valid() && RegsOf(nodes) == Changed(old(RegsOf(nodes)), changes)
      ensures fresh(set n | n in nodes && n !in old(nodes))
      decreases |changes|
    {
      if changes != [] {
        Perform(changes[0]);
        PerformAll(changes[1..]);
      }
    }
  }

  // ---------------------------------------------------------------- posting and processing

  /** The two queues and the listeners. */
  class Dispatcher {
    const externalMax: nat
    const internal: MessageQueue
    const external: MessageQueue
    const listeners: Listeners
    // the deliveries so far: the event, and the listeners it was delivered to
    var delivered: seq<Delivery>
    ghost var posted: seq<Evt>
    ghost var done: seq<Evt>

    ghost predicate Valid()
      reads this, internal, internal.nodes, external, external.nodes, listeners, listeners.nodes
    {
      && internal != external && internal.Valid() && external.Valid() && listeners.Valid()
      && (forall i :: 0 <= i < |internal.nodes| ==> internal.nodes[i] !in external.nodes)
    }

    ghost function State(): Queues
      reads this, internal, external, listeners
    {
      Queues(internal.Contents(), external.Contents(), posted, done, RegsOf(listeners.nodes), delivered)
    }

    /** The elements of the three lists. */
    ghost function Cells(): set<object>
      reads this, internal, external, listeners
    {
      (set n | n in internal.nodes) + (set n | n in external.nodes) + (set n | n in listeners.nodes)
    }

    constructor (externalMax: nat)
      ensures Valid() && State() == NO_EVENTS && this.externalMax == externalMax && delivered == []
      ensures fresh(internal) && fresh(external) && fresh(listeners)
      ensures internal.nodes == [] && external.nodes == [] && listeners.nodes == []
    {
      this.externalMax := externalMax;
      internal := new MessageQueue();
      external := new MessageQueue();
      listeners := new Listeners();
      delivered, posted, done := [], [], [];
    }

    method PostInternal(item: Message)
      requires Valid() && item.next == null && item !in internal.nodes && item !in external.nodes
      requires IsInternal(item.evt, externalMax)
      modifies this`posted, internal, internal.nodes
      ensures Valid() && State() == Do(old(State()), Post(item.evt), externalMax)
      ensures Cells() == old(Cells()) + {item}
    {
      internal.Enqueue(item);
      posted := posted + [item.evt];
    }

    method PostExternal(item: Message)
      requires Valid() && item.next == null && item !in internal.nodes && item !in external.nodes
      requires !IsInternal(item.evt, externalMax)
      modifies this`posted, external, external.nodes
      ensures Valid() && State() == Do(old(State()), Post(item.evt), externalMax)
      ensures Cells() == old(Cells()) + {item}
    {
      external.Enqueue(item);
      posted := posted + [item.evt];
    }

    method PostEvt(e: Evt)
      requires Valid()
      modifies this`posted, internal, internal.nodes, external, external.nodes
      ensures Valid() && State() == Do(old(State()), Post(e), externalMax)
      ensures State().internal == old(State().internal) + if e.event >= externalMax then [e] else []
      ensures State().external == old(State().external) + if e.event < externalMax then [e] else []
      ensures fresh(Cells() - old(Cells()))
    {
      var item := new Message(e);
      if e.event < externalMax {
        PostExternal(item);
      } else {
        PostInternal(item);
      }
    }

    method TakeInternal() returns (item: Message?)
      requires Valid()
      modifies this`done, internal
      ensures Valid() && (item == null <==> old(State()).internal == [])
      ensures item == null ==> State() == old(State())
      ensures forall n :: n in internal.nodes ==> n in old(internal.nodes)
      ensures item != null ==> State() == Take(old(State())) && done == old(done) + [item.evt]
    {
      item := internal.Dequeue();
      if item != null {
        done := done + [item.evt];
      }
    }

    method TakeExternal() returns (item: Message?)
      requires Valid() && State().internal == []
      modifies this`done, external
      ensures Valid() && State() == Take(old(State()))
      ensures forall n :: n in external.nodes ==> n in old(external.nodes)
      ensures item == null ==> done == old(done)
      ensures item != null ==> done == old(done) + [item.evt]
    {
      item := external.Dequeue();
      if item != null {
        done := done + [item.evt];
      }
    }

    /** Takes the next message: from the internal queue, or from the external one if the internal
        one is empty. */
    method TakeNext() returns (item: Message?)
      requires Valid()
      modifies this`done, internal, external
      ensures Valid() && State() == Take(old(State()))
      ensures forall n :: n in internal.nodes ==> n in old(internal.nodes)
      ensures forall n :: n in external.nodes ==> n in old(external.nodes)
      ensures item == null ==> done == old(done)
      ensures item != null ==> done == old(done) + [item.evt]
    {
      item := TakeInternal();
      if item == null {
        item := TakeExternal();
      }
    }

    /** One turn of the processing loop: the next event, if there is one, is delivered. */
    method Process()
      requires Valid()
      modifies this`done, this`delivered, internal, external
      ensures Valid() && State() == Do(old(State()), ProcessNext, externalMax)
      ensures forall n :: n in internal.nodes ==> n in old(internal.nodes)
      ensures forall n :: n in external.nodes ==> n in old(external.nodes)
    {
      var item := TakeNext();
      if item != null {
        var called := listeners.ProcessEvt(item.evt.event);
        delivered := delivered + [Delivery(item.evt, called)];
      }
    }

    method Listen(change: Change)
      requires Valid()
      modifies listeners, listeners.nodes
      ensures Valid() && State() == Do(old(State()), Op.Listen(change), externalMax)
      ensures fresh(set n | n in listeners.nodes && n !in old(listeners.nodes))
    {
      listeners.Perform(change);
    }

    method Perform(op: Op)
      requires Valid()
      modifies this, internal, external, listeners, Cells()
      ensures Valid() && State() == Do(old(State()), op, externalMax)
      ensures fresh(Cells() - old(Cells()))
    {
      match op
      case Post(e) => PostEvt(e);
      case ProcessNext => Process();
      case Listen(change) => Listen(change);
    }

    /** Any sequence of posts, processing turns, registrations and deregistrations goes through the
        states of the value-level run. */
    method PerformAll(ops: seq<Op>)
      requires Valid()
      modifies this, internal, external, listeners, Cells()
      ensures Valid() && State() == After(old(State()), ops, externalMax)
      ensures fresh(Cells() - old(Cells()))
      decreases |ops|
    {
      if ops != [] {
        PerformAll(ops[..|ops| - 1]);
        Perform(ops[|ops| - 1]);
      }
    }
  }

  /** So a new dispatcher, after any run, has processed each kind of event in posting order and
      delivered every processed one once, to those registered at that moment. */
  method RunNew(externalMax: nat, ops: seq<Op>) returns (d: Dispatcher)
    ensures fresh(d) && d.Valid() && d.State() == After(NO_EVENTS, ops, externalMax)
    ensures InOrder(d.State(), externalMax) && |d.delivered| == |d.done|
    ensures forall i :: 0 <= i < |d.done| ==> WasProcessed(ops, externalMax, i)
  {
    d := new Dispatcher(externalMax);
    d.PerformAll(ops);
    RunKeepsOrder(ops, externalMax);
    DeliveriesMatch(ops, externalMax);
    forall i | 0 <= i < |d.done| ensures WasProcessed(ops, externalMax, i) {
      DeliveredWhenProcessed(ops, externalMax, i);
    }
  }
}
