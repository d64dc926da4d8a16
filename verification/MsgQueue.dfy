/** The message queue of the GPS utilities: a list guarded by a mutex, with receivers that wait for
    messages until the queue is unblocked.  Each critical section is one step. */
module MsgQueue {
  import opened LinkedList

  // ---------------------------------------------------------------- the queue over a run

  /** How a message left the queue. */
  datatype Departure = Received(item: Item) | Flushed(item: Item)

  /** The queue, oldest message first, and its history: the messages accepted, the departures in the
      order in which they happened, and the calls of deallocation functions; `waiting` counts the
      receivers inside the wait loop. */
  datatype Queue = Queue(
    queue: seq<Item>, unblocked: bool, waiting: nat, accepted: seq<Item>, departed: seq<Departure>,
    dealloced: seq<nat>)

  datatype Op = Snd(msg: nat, hasDealloc: bool) | RcvEnter | RcvLeave | Flush | Unblock

  const NEW: Queue := Queue([], false, 0, [], [], [])

  /** A receiver leaves the wait loop when there is a message, or when the queue is unblocked. */
  predicate Enabled(q: Queue, op: Op) {
    op.RcvLeave? ==> q.waiting > 0 && (q.queue != [] || q.unblocked)
  }

  function Reversed(s: seq<Item>): seq<Item> {
    if s == [] then [] else Reversed(s[1..]) + [s[0]]
  }

  function AllFlushed(s: seq<Item>): (r: seq<Departure>)
    ensures |r| == |s| && forall i :: 0 <= i < |s| ==> r[i] == Flushed(s[i])
  {
    seq(|s|, i requires 0 <= i < |s| => Flushed(s[i]))
  }

  /** The list keeps the newest message at its head, and a flush starts there. */
  function Do(q: Queue, op: Op): Queue
    requires Enabled(q, op)
  {
    match op
    case Snd(msg, hasDealloc) =>
      if msg == NULL || q.unblocked then q
      else q.(queue := q.queue + [Item(msg, hasDealloc)], accepted := q.accepted + [Item(msg, hasDealloc)])
    case RcvEnter => if q.unblocked then q else q.(waiting := q.waiting + 1)
    case RcvLeave =>
      if q.queue == [] then q.(waiting := q.waiting - 1)
      else q.(waiting := q.waiting - 1, queue := q.queue[1..], departed := q.departed + [Received(q.queue[0])])
    case Flush =>
      q.(queue := [], departed := q.departed + AllFlushed(Reversed(q.queue)),
         dealloced := q.dealloced + Deallocable(Reversed(q.queue)))
    case Unblock => q.(unblocked := true)
  }

  predicate Reaches(q: Queue, run: seq<Op>, q': Queue)
    decreases run
  {
    if run == [] then q' == q
    else Enabled(q, run[0]) && Reaches(Do(q, run[0]), run[1..], q')
  }

  // ---------------------------------------------------------------- order and conservation

  /** The messages that have left. */
  function Items(s: seq<Departure>): (r: seq<Item>)
    ensures |r| == |s| && forall i :: 0 <= i < |s| ==> r[i] == s[i].item
  {
    seq(|s|, i requires 0 <= i < |s| => s[i].item)
  }

  /** The messages that were flushed, in the order of the flushes. */
  function FlushedItems(s: seq<Departure>): seq<Item> {
    if s == [] then []
    else FlushedItems(s[..|s| - 1]) + if s[|s| - 1].Flushed? then [s[|s| - 1].item] else []
  }

  /** What is queued is what was accepted after the departed messages, in order. */
  predicate Queued(q: Queue) {
    |q.departed| <= |q.accepted| && q.queue == q.accepted[|q.departed|..]
  }

  /** The departed messages are the first ones accepted, each once, and a received one left when
      exactly those accepted before it had left. */
  ghost predicate Departed(accepted: seq<Item>, departed: seq<Departure>) {
    && |departed| <= |accepted|
    && multiset(Items(departed)) == multiset(accepted[..|departed|])
    && forall k :: 0 <= k < |departed| && departed[k].Received? ==> departed[k].item == accepted[k]
  }

  /** Nothing is lost or doubled, and the deallocation functions called are those of the flushed
      messages, in the order in which they left. */
  ghost predicate Conserved(q: Queue) {
    Queued(q) && Departed(q.accepted, q.departed) && q.dealloced == Deallocable(FlushedItems(q.departed))
  }

  lemma {:induction false} ReversedAt(s: seq<Item>, k: nat)
    requires k < |s|
    ensures |Reversed(s)| == |s| && Reversed(s)[k] == s[|s| - 1 - k]
  {
    if |s| > 1 { ReversedAt(s[1..], if k < |s| - 1 then k else 0); }
  }

  lemma {:induction false} ReversedKeeps(s: seq<Item>)
    ensures |Reversed(s)| == |s| && multiset(Reversed(s)) == multiset(s)
  {
    if s != [] {
      ReversedKeeps(s[1..]);
      assert s == [s[0]] + s[1..];
    }
  }

  lemma {:induction false} ReversedLast(s: seq<Item>, x: Item)
    ensures Reversed(s + [x]) == [x] + Reversed(s)
  {
    if s == [] {
      assert s + [x] == [x];
      assert [x][1..] == [];
    } else {
      ReversedLast(s[1..], x);
      assert (s + [x])[1..] == s[1..] + [x];
    }
  }

  lemma {:induction false} ReversedTwice(s: seq<Item>)
    ensures Reversed(Reversed(s)) == s
  {
    if s != [] {
      ReversedTwice(s[1..]);
      ReversedLast(Reversed(s[1..]), s[0]);
    }
  }

  lemma {:induction false} DeallocableConcat(s: seq<Item>, t: seq<Item>)
    ensures Deallocable(s + t) == Deallocable(s) + Deallocable(t)
  {
    if s == [] {
      assert s + t == t;
    } else {
      DeallocableConcat(s[1..], t);
      assert (s + t)[1..] == s[1..] + t && (s + t)[0] == s[0];
      assert Deallocable(s + t) == (if s[0].hasDealloc then [s[0].data] else []) + Deallocable(s[1..] + t);
    }
  }

  lemma {:induction false} FlushedItemsConcat(s: seq<Departure>, t: seq<Item>)
    ensures FlushedItems(s + AllFlushed(t)) == FlushedItems(s) + t
  {
    if t == [] {
      assert s + AllFlushed(t) == s;
    } else {
      var n := |t| - 1;
      FlushedItemsConcat(s, t[..n]);
      var u := s + AllFlushed(t);
      assert u[..|u| - 1] == s + AllFlushed(t[..n]) && u[|u| - 1] == Flushed(t[n]);
      assert t == t[..n] + [t[n]];
    }
  }

  lemma DepartureKeeps(accepted: seq<Item>, departed: seq<Departure>, more: seq<Departure>)
    requires Departed(accepted, departed) && |departed| + |more| <= |accepted|
    requires multiset(Items(more)) == multiset(accepted[|departed|..|departed| + |more|])
    requires forall k :: 0 <= k < |more| && more[k].Received? ==> more[k].item == accepted[|departed| + k]
    ensures Departed(accepted, departed + more)
  {
    var n, m := |departed|, |departed| + |more|;
    assert Items(departed + more) == Items(departed) + Items(more);
    assert accepted[..m] == accepted[..n] + accepted[n..m];
  }

  lemma AcceptKeeps(accepted: seq<Item>, departed: seq<Departure>, x: Item)
    requires Departed(accepted, departed)
    ensures Departed(accepted + [x], departed)
  {
    assert (accepted + [x])[..|departed|] == accepted[..|departed|];
  }

  lemma ReceivedKeeps(accepted: seq<Item>, departed: seq<Departure>)
    requires Departed(accepted, departed) && |departed| < |accepted|
    ensures Departed(accepted, departed + [Received(accepted[|departed|])])
  {
    var n, more := |departed|, [Received(accepted[|departed|])];
    assert accepted[n..n + 1] == [accepted[n]] == Items(more);
    DepartureKeeps(accepted, departed, more);
  }

  lemma ReceivedIsNotFlushed(departed: seq<Departure>, x: Item)
    ensures FlushedItems(departed + [Received(x)]) == FlushedItems(departed)
  {
    assert (departed + [Received(x)])[..|departed|] == departed;
  }

  lemma ReceiveConserves(q: Queue)
    requires Conserved(q) && Enabled(q, RcvLeave)
    ensures Conserved(Do(q, RcvLeave))
  {
    if q.queue != [] {
      ReceivedKeeps(q.accepted, q.departed);
      ReceivedIsNotFlushed(q.departed, q.queue[0]);
    }
  }

  lemma FlushedKeeps(accepted: seq<Item>, departed: seq<Departure>)
    requires Departed(accepted, departed)
    ensures Departed(accepted, departed + AllFlushed(Reversed(accepted[|departed|..])))
  {
    var n, t := |departed|, Reversed(accepted[|departed|..]);
    ReversedKeeps(accepted[n..]);
    assert Items(AllFlushed(t)) == t;
    assert accepted[n..n + |t|] == accepted[n..];
    DepartureKeeps(accepted, departed, AllFlushed(t));
  }

  lemma FlushConserves(q: Queue)
    requires Conserved(q)
    ensures Conserved(Do(q, Flush))
  {
    var t := Reversed(q.queue);
    ReversedKeeps(q.queue);
    FlushedKeeps(q.accepted, q.departed);
    FlushedItemsConcat(q.departed, t);
    DeallocableConcat(FlushedItems(q.departed), t);
  }

  lemma StepConserves(q: Queue, op: Op)
    requires Conserved(q) && Enabled(q, op)
    ensures Conserved(Do(q, op))
  {
    match op
    case Snd(msg, hasDealloc) => AcceptKeeps(q.accepted, q.departed, Item(msg, hasDealloc));
    case RcvLeave => ReceiveConserves(q);
    case Flush => FlushConserves(q);
    case _ =>
  }

  lemma {:induction false} RunConserves(q: Queue, run: seq<Op>, q': Queue)
    requires Conserved(q) && Reaches(q, run, q')
    ensures Conserved(q')
    decreases run
  {
    if run != [] {
      StepConserves(q, run[0]);
      RunConserves(Do(q, run[0]), run[1..], q');
    }
  }

  /** The messages that a run sends before it unblocks the queue, with what the sender asked for. */
  function Sent(run: seq<Op>): seq<Item>
    decreases run
  {
    if run == [] || run[0] == Unblock then []
    else if run[0].Snd? && run[0].msg != NULL then [Item(run[0].msg, run[0].hasDealloc)] + Sent(run[1..])
    else Sent(run[1..])
  }

  /** Exactly those are accepted, in their order. */
  lemma {:induction false} AcceptedAreSent(q: Queue, run: seq<Op>, q': Queue)
    requires Reaches(q, run, q')
    ensures q'.accepted == q.accepted + if q.unblocked then [] else Sent(run)
    ensures q'.unblocked <==> q.unblocked || Unblock in run
    decreases run
  {
    if run != [] {
      assert run == [run[0]] + run[1..];
      AcceptedAreSent(Do(q, run[0]), run[1..], q');
    }
  }

  /** The receivers that a run lets wait: those that come before the queue is unblocked. */
  function Entered(run: seq<Op>): nat
    decreases run
  {
    if run == [] || run[0] == Unblock then 0
    else (if run[0] == RcvEnter then 1 else 0) + Entered(run[1..])
  }

  /** In every run those that wait are the ones that have come and not left. */
  lemma {:induction false} WaitingAreCounted(q: Queue, run: seq<Op>, q': Queue)
    requires Reaches(q, run, q')
    ensures q'.waiting + multiset(run)[RcvLeave] == q.waiting + if q.unblocked then 0 else Entered(run)
    decreases run
  {
    if run != [] {
      assert run == [run[0]] + run[1..];
      WaitingAreCounted(Do(q, run[0]), run[1..], q');
    }
  }

  /** First in, first out, for what is received: a message received after `k` departures is the `k`-th
      that was sent before the queue was unblocked. */
  lemma {:induction false} FirstInFirstOut(run: seq<Op>, q: Queue, k: nat)
    requires Reaches(NEW, run, q) && k < |q.departed| && q.departed[k].Received?
    ensures |q.departed| <= |Sent(run)| && q.departed[k] == Received(Sent(run)[k])
  {
    RunConserves(NEW, run, q);
    AcceptedAreSent(NEW, run, q);
  }

  /** A receiver that leaves takes the oldest message that is left, and goes without one exactly if all
      that were sent have departed. */
  lemma {:induction false} ReceiverTakesOldest(run: seq<Op>, q: Queue)
    requires Reaches(NEW, run, q) && Enabled(q, RcvLeave)
    ensures |q.departed| <= |Sent(run)|
    ensures var q' := Do(q, RcvLeave);
            && q'.waiting == q.waiting - 1
            && q'.departed == if |q.departed| == |Sent(run)| then q.departed
                              else q.departed + [Received(Sent(run)[|q.departed|])]
  {
    RunConserves(NEW, run, q);
    AcceptedAreSent(NEW, run, q);
  }

  /** A flush, on the other hand, lets the newest message go first. */
  lemma FlushIsNewestFirst(run: seq<Op>, q: Queue, i: nat)
    requires Reaches(NEW, run, q) && i < |q.queue|
    ensures var q' := Do(q, Flush);
            && |q'.departed| == |q.departed| + |q.queue| == |q'.accepted|
            && q'.departed[|q.departed| + i] == Flushed(q'.accepted[|q'.accepted| - 1 - i])
  {
    RunConserves(NEW, run, q);
    ReversedAt(q.queue, i);
  }

  /** The messages have left in the order in which they were accepted. */
  predicate Orderly(q: Queue) {
    Items(q.departed) <= q.accepted
  }

  /** The message queue reads the same from both ends, as it does with at most one message. */
  predicate Symmetric(q: Queue) {
    Reversed(q.queue) == q.queue
  }

  /** Every flush of the run meets such a queue. */
  predicate FlushesFit(q: Queue, run: seq<Op>)
    decreases run
  {
    run == [] || (
      && Enabled(q, run[0])
      && (run[0].Flush? ==> Symmetric(q))
      && FlushesFit(Do(q, run[0]), run[1..]))
  }

  lemma ConcatPrefix(a: seq<Item>, b: seq<Item>, all: seq<Item>)
    requires |a| + |b| <= |all|
    ensures a + b <= all <==> a <= all && b == all[|a|..|a| + |b|]
  {
    if a + b <= all {
      assert a == (a + b)[..|a|] && b == (a + b)[|a|..];
    }
  }

  lemma MoreDepartures(accepted: seq<Item>, departed: seq<Departure>, more: seq<Departure>)
    requires |departed| + |more| <= |accepted|
    ensures Items(departed + more) <= accepted <==>
            Items(departed) <= accepted && Items(more) == accepted[|departed|..|departed| + |more|]
  {
    assert Items(departed + more) == Items(departed) + Items(more);
    ConcatPrefix(Items(departed), Items(more), accepted);
  }

  lemma SendIsOrderly(q: Queue, x: Item)
    requires Queued(q)
    ensures Items(q.departed) <= q.accepted + [x] <==> Items(q.departed) <= q.accepted
  {
    assert (q.accepted + [x])[..|q.departed|] == q.accepted[..|q.departed|];
  }

  lemma ReceiveIsOrderly(q: Queue)
    requires Queued(q) && q.queue != []
    ensures Items(q.departed + [Received(q.queue[0])]) <= q.accepted <==> Orderly(q)
  {
    var n, more := |q.departed|, [Received(q.queue[0])];
    assert q.accepted[n..n + 1] == [q.queue[0]] == Items(more);
    MoreDepartures(q.accepted, q.departed, more);
  }

  lemma FlushOrderlyIff(q: Queue)
    requires Queued(q)
    ensures Items(q.departed + AllFlushed(Reversed(q.queue))) <= q.accepted <==> Orderly(q) && Symmetric(q)
  {
    var n, t := |q.departed|, Reversed(q.queue);
    ReversedKeeps(q.queue);
    assert Items(AllFlushed(t)) == t && q.accepted[n..n + |t|] == q.queue;
    MoreDepartures(q.accepted, q.departed, AllFlushed(t));
  }

  /** A step keeps the order of the departures exactly if it is not a flush of a queue that reads
      differently from its other end. */
  lemma StepOrderlyIff(q: Queue, op: Op)
    requires Conserved(q) && Enabled(q, op)
    ensures Orderly(Do(q, op)) <==> Orderly(q) && (op.Flush? ==> Symmetric(q))
  {
    match op
    case Snd(msg, hasDealloc) => SendIsOrderly(q, Item(msg, hasDealloc));
    case RcvLeave => if q.queue != [] { ReceiveIsOrderly(q); }
    case Flush => FlushOrderlyIff(q);
    case _ =>
  }

  /** For messages that are all different, that is a queue of at most one. */
  lemma SymmetricIffShort(q: Queue)
    requires forall i, j :: 0 <= i < j < |q.queue| ==> q.queue[i] != q.queue[j]
    ensures Symmetric(q) <==> |q.queue| <= 1
  {
    if |q.queue| > 0 { ReversedAt(q.queue, 0); }
  }

  /** In every run the messages leave in the order in which they were accepted if and only if every
      flush meets a queue that reads the same from both ends. */
  lemma {:induction false} RunOrderlyIff(q: Queue, run: seq<Op>, q': Queue)
    requires Conserved(q) && Reaches(q, run, q')
    ensures Orderly(q') <==> Orderly(q) && FlushesFit(q, run)
    decreases run
  {
    if run != [] {
      StepConserves(q, run[0]);
      StepOrderlyIff(q, run[0]);
      RunOrderlyIff(Do(q, run[0]), run[1..], q');
    }
  }

  /** Two messages and a flush: the second one goes first. */
  lemma FlushBreaksOrder()
    ensures exists q :: Reaches(NEW, [Snd(1, false), Snd(2, false), Flush], q) && !Orderly(q)
    ensures !FlushesFit(NEW, [Snd(1, false), Snd(2, false), Flush])
  {
    var run := [Snd(1, false), Snd(2, false), Flush];
    var a, b := Item(1, false), Item(2, false);
    var q2 := Do(Do(NEW, run[0]), run[1]);
    assert run[1..][1..] == [Flush] && run[1..][0] == run[1] && [Flush][1..] == [];
    assert q2.queue == [a, b];
    ReversedAt([a, b], 0);
    assert Reaches(NEW, run, Do(q2, Flush));
    RunOrderlyIff(NEW, run, Do(q2, Flush));
  }

  /** Once unblocked, a queue accepts nothing more, and no further receiver starts to wait. */
  lemma {:induction false} UnblockedStaysClosed(q: Queue, run: seq<Op>, q': Queue)
    requires q.unblocked && Reaches(q, run, q')
    ensures q'.unblocked && q'.accepted == q.accepted && q'.waiting <= q.waiting
    decreases run
  {
    if run != [] {
      UnblockedStaysClosed(Do(q, run[0]), run[1..], q');
    }
  }

  /** Once unblocked, all waiting receivers can leave one after the other, with or without a message. */
  lemma {:induction false} UnblockedFreesAll(q: Queue)
    requires q.unblocked
    ensures exists q' :: Reaches(q, seq(q.waiting, _ => RcvLeave), q') && q'.waiting == 0
    decreases q.waiting
  {
    var run := seq(q.waiting, _ => RcvLeave);
    if q.waiting == 0 {
      assert Reaches(q, run, q);
    } else {
      var q1 := Do(q, RcvLeave);
      UnblockedFreesAll(q1);
      var q' :| Reaches(q1, seq(q1.waiting, _ => RcvLeave), q') && q'.waiting == 0;
      assert run[1..] == seq(q1.waiting, _ => RcvLeave);
      assert Reaches(q, run, q');
    }
  }

  // ---------------------------------------------------------------- the implementation

  class MsgQ {
    const list: List
    var unblocked: bool
    ghost var waiting: nat
    ghost var accepted: seq<Item>
    ghost var departed: seq<Departure>

    ghost predicate Valid()
      reads this, list, list.nodes
    {
      list.Valid()
    }

    ghost function State(): Queue
      reads this, list
    {
      Queue(Reversed(list.items), unblocked, waiting, accepted, departed, list.dealloced)
    }

    constructor ()
      ensures Valid() && State() == NEW && fresh(list) && list.nodes == []
    {
      list := new List();
      unblocked := false;
      waiting, accepted, departed := 0, [], [];
    }

    method MsgQSnd(msg: nat, hasDealloc: bool) returns (err: ListError)
      requires Valid()
      modifies this, list, list.nodes
      ensures Valid() && fresh(set n | n in list.nodes && n !in old(list.nodes))
      ensures State() == Do(old(State()), Snd(msg, hasDealloc))
      ensures err == if msg == NULL then InvalidParameter else if unblocked then UnavailableResource else Success
    {
      if msg == NULL {
        return InvalidParameter;
      }
      if unblocked {
        return UnavailableResource;
      }
      err := list.Add(msg, hasDealloc);
      assert list.items[1..] == old(list.items);
      accepted := accepted + [Item(msg, hasDealloc)];
    }

    /** A receiver passes the check at the start of msg_q_rcv and starts to wait. */
    method MsgQRcvEnter() returns (enters: bool)
      requires Valid()
      modifies this
      ensures Valid() && State() == Do(old(State()), RcvEnter) && enters == !unblocked
    {
      if unblocked {
        return false;
      }
      waiting := waiting + 1;
      return true;
    }

    /** A waiting receiver finds its wait loop over and takes the oldest message, if any. */
    method MsgQRcvLeave() returns (err: ListError, msg: nat)
      requires Valid() && Enabled(State(), RcvLeave)
      modifies this, list, list.nodes
      ensures Valid() && fresh(set n | n in list.nodes && n !in old(list.nodes))
      ensures State() == Do(old(State()), RcvLeave)
      ensures err == if old(State()).queue == [] then UnavailableResource else Success
      ensures old(State()).queue != [] ==> msg == old(State()).queue[0].data
    {
      ghost var before := list.items;
      err, msg := list.Remove();
      if err == Success {
        ReversedLast(list.items, before[|before| - 1]);
        departed := departed + [Received(before[|before| - 1])];
      }
      waiting := waiting - 1;
    }

    /** All messages go, and are deallocated, in the order of the list. */
    method MsgQFlush()
      requires Valid()
      modifies this, list
      ensures Valid() && list.nodes == [] && State() == Do(old(State()), Flush)
    {
      ReversedTwice(list.items);
      departed := departed + AllFlushed(list.items);
      list.Flush();
    }

    method MsgQUnblock() returns (err: ListError)
      requires Valid()
      modifies this
      ensures Valid() && State() == Do(old(State()), Unblock)
      ensures err == if old(unblocked) then UnavailableResource else Success
    {
      if unblocked {
        return UnavailableResource;
      }
      unblocked := true;
      return Success;
    }

    /** Any one operation. */
    method Perform(op: Op)
      requires Valid() && Enabled(State(), op)
      modifies this, list, list.nodes
      ensures Valid() && fresh(set n | n in list.nodes && n !in old(list.nodes))
      ensures State() == Do(old(State()), op)
    {
      match op
      case Snd(msg, hasDealloc) => var err := MsgQSnd(msg, hasDealloc);
      case RcvEnter => var enters := MsgQRcvEnter();
      case RcvLeave => var err, msg := MsgQRcvLeave();
      case Flush => MsgQFlush();
      case Unblock => var err := MsgQUnblock();
    }

    /** Any run of operations, each possible when its turn comes, goes through the states of the
        value-level run. */
    method PerformAll(run: seq<Op>, ghost last: Queue)
      requires Valid() && Reaches(State(), run, last)
      modifies this, list, list.nodes
      ensures Valid() && fresh(set n | n in list.nodes && n !in old(list.nodes))
      ensures State() == last
      decreases |run|
    {
      if run != [] {
        Perform(run[0]);
        PerformAll(run[1..], last);
      }
    }
  }

  /** So a new queue, after any run, has given its receivers the messages in order. */
  method RunNew(run: seq<Op>, ghost last: Queue) returns (q: MsgQ)
    requires Reaches(NEW, run, last)
    ensures fresh(q) && q.Valid() && q.State() == last && Conserved(q.State())
    ensures Orderly(q.State()) <==> FlushesFit(NEW, run)
    ensures |q.departed| <= |q.accepted|
    ensures forall k :: 0 <= k < |q.departed| && q.departed[k].Received? ==> q.departed[k].item == q.accepted[k]
  {
    q := new MsgQ();
    q.PerformAll(run, last);
    RunConserves(NEW, run, last);
    RunOrderlyIff(NEW, run, last);
  }
}
