/** The timer service as a transition system: clients that start and stop timers, the message
    thread that owns the heap, the poll thread, and the kernel timer.  Steps of different
    threads interleave freely; every main result holds over all runs. */
module TimerService {
  import opened Common
  import opened HeapTree

  /** How a successful start has ended, if it has. */
  datatype Outcome = Running | Stopped | CalledBack

  /** What a start recorded: for which client, when it was made, and when the timer is due (in
      nanoseconds). */
  datatype StartRecord = StartRecord(owner: nat, at: nat, due: nat)

  /** The fields of a delegate object that change: mClient, and whether mContainer is set. */
  datatype Delegate = Delegate(client: Option<nat>, contained: bool)

  datatype Msg = MsgPush(d: nat) | MsgRemove(d: nat) | MsgExpire

  /** The poll thread: in epoll_wait, or before its settime, epoll removal or send in expire(). */
  datatype PollPc = Waiting | Woken | Disarmed | Unpolled

  /** The message thread: between messages, inside updateSoonestTime for the top `d`, or inside an
      Expire message that took the time `now`, last popped `d`, and found the top due or not. */
  datatype MsgPc =
    | Idle
    | AddingPoll(d: nat)
    | RemovingPoll
    | SettingTime(value: Option<nat>)
    | Popped(d: nat, now: nat, topDue: bool)
    | ClientRead(d: nat, client: Option<nat>, now: nat, topDue: bool)
    | Looping(d: nat, now: nat, topDue: bool)

  /** A callback: delegate `d` was called back by the Expire message of time `now` that had
      popped `popped`; `topDue` is whether the message found the top of the heap due. */
  datatype Firing = Firing(d: nat, popped: nat, now: nat, topDue: bool)

  datatype State = State(
    now: nat,
    mTimer: map<nat, nat>,
    started: seq<StartRecord>,
    outcome: seq<Outcome>,
    delegates: map<nat, Delegate>,
    handled: multiset<Msg>,
    queue: seq<Msg>,
    heap: Tree,
    armed: Option<nat>,
    polled: bool,
    poll: PollPc,
    msg: MsgPc,
    fired: seq<Firing>,
    fault: bool)

  datatype Action =
    | Tick(dt: nat)
    | Start(c: nat, ms: nat)
    | Stop(c: nat)
    | PollWake | PollDisarm | PollUnpoll | PollSend
    | MsgHandle | MsgReadClient | MsgStopAndCall | MsgPopNext
    | MsgAddPoll | MsgRemovePoll | MsgSetTime

  function Init(now: nat): State {
    State(now, map[], [], [], map[], multiset{}, [], Empty, None, false, Waiting, Idle, [], false)
  }

  // ---------------------------------------------------------------- the steps

  function Top(t: Tree): Option<Rankable> {
    if t.Empty? then None else Some(t.data)
  }

  const SECOND: nat := 1_000_000_000

  /** The whole seconds of a time in nanoseconds. */
  function Sec(t: nat): int {
    t / 1_000_000_000
  }

  /** Delegates rank by the second: an earlier one ranks higher. */
  function ItemOf(started: seq<StartRecord>, d: nat): Rankable
    requires d < |started|
  {
    Rankable(d, -Sec(started[d].due))
  }

  function Item(s: State, d: nat): Rankable
    requires d < |s.started|
  {
    ItemOf(s.started, d)
  }

  /** popIfOutRanks: the top is due, to the second, at the time `now`. */
  predicate TopDue(t: Tree, now: nat) {
    t.Node? && !OutRanks(Rankable(0, -Sec(now)), t.data)
  }

  function Fault(s: State): State {
    s.(fault := true)
  }

  /** LocTimer::start under the client's lock. */
  function DoStart(s: State, c: nat, ms: nat): State {
    if c in s.mTimer then s
    else
      var d := |s.started|;
      s.(mTimer := s.mTimer[c := d],
         started := s.started + [StartRecord(c, s.now, s.now + ms * 1_000_000)],
         outcome := s.outcome + [Running],
         delegates := s.delegates[d := Delegate(Some(c), true)],
         queue := s.queue + [MsgPush(d)])
  }

  /** LocTimer::stop under the client's lock, when the client has a timer; `o` is who asked. */
  function DoStop(s: State, c: nat, o: Outcome): State
    requires c in s.mTimer
  {
    var d := s.mTimer[c];
    if d !in s.delegates || d >= |s.outcome| then Fault(s)
    else
      s.(mTimer := s.mTimer - {c},
         outcome := s.outcome[d := o],
         delegates := s.delegates[d := Delegate(None, false)],
         queue := if s.delegates[d].contained then s.queue + [MsgRemove(d)] else s.queue)
  }

  /** What updateSoonestTime goes on to do, given the heap's top and the one it compares with. */
  function UpdateSoonest(cur: Option<Rankable>, prior: Option<Rankable>): MsgPc {
    if cur == prior then Idle
    else if cur == None then RemovingPoll
    else if prior == None || OutRanks(cur.value, prior.value) then AddingPoll(cur.value.id)
    else Idle
  }

  function HandlePush(s: State, d: nat): State {
    if d !in s.delegates || d >= |s.started| then Fault(s)
    else
      var t := Push(s.heap, Item(s, d));
      s.(heap := t, msg := UpdateSoonest(Top(t), Top(s.heap)))
  }

  /** The heap after LocHeap::remove, whether or not it found the item. */
  function AfterRemove(t: Tree, x: Rankable): Tree {
    match Remove(t, x) case None => t case Some(t') => t'
  }

  /** The removed item is compared with the old top; a match means the kernel must be told. */
  function HandleRemove(s: State, d: nat): State {
    if d !in s.delegates || d >= |s.started| then Fault(s)
    else
      var x := Item(s, d);
      var removed := if Remove(s.heap, x) == None then None else Some(x);
      var t := AfterRemove(s.heap, x);
      s.(heap := t, delegates := s.delegates - {d},
         msg := if Top(s.heap) == removed then UpdateSoonest(Top(t), None) else Idle)
  }

  function PopInto(s: State, now: nat, topDue: bool): State
    requires s.heap.Node?
  {
    s.(heap := Pop(s.heap), msg := Popped(s.heap.data.id, now, topDue))
  }

  function Handle(s: State): State
    requires s.queue != []
  {
    var m := s.queue[0];
    var s' := s.(queue := s.queue[1..], handled := s.handled + multiset{m});
    match m
    case MsgPush(d) => HandlePush(s', d)
    case MsgRemove(d) => HandleRemove(s', d)
    case MsgExpire =>
      if s.heap.Empty? then s'.(msg := UpdateSoonest(Top(s.heap), None))
      else PopInto(s', s.now, TopDue(s.heap, s.now))
  }

  predicate Enabled(s: State, a: Action) {
    !s.fault &&
    match a
    case Tick(_) => true
    case Start(_, _) => true
    case Stop(_) => true
    case PollWake => s.poll == Waiting && s.polled && s.armed.Some? && s.armed.value <= s.now
    case PollDisarm => s.poll == Woken
    case PollUnpoll => s.poll == Disarmed
    case PollSend => s.poll == Unpolled
    case MsgHandle => s.msg == Idle && s.queue != []
    case MsgReadClient => s.msg.Popped?
    case MsgStopAndCall => s.msg.ClientRead?
    case MsgPopNext => s.msg.Looping?
    case MsgAddPoll => s.msg.AddingPoll?
    case MsgRemovePoll => s.msg == RemovingPoll
    case MsgSetTime => s.msg.SettingTime?
  }

  function StopAndCall(s: State): State
    requires s.msg.ClientRead?
  {
    var ClientRead(d, client, now, topDue) := s.msg;
    var s' := s.(msg := Looping(d, now, topDue));
    if client.Some? && client.value in s.mTimer then
      DoStop(s', client.value, CalledBack).(fired := s.fired + [Firing(s.mTimer[client.value], d, now, topDue)])
    else s'
  }

  function Do(s: State, a: Action): State
    requires Enabled(s, a)
  {
    match a
    case Tick(dt) => s.(now := s.now + dt)
    case Start(c, ms) => DoStart(s, c, ms)
    case Stop(c) => if c in s.mTimer then DoStop(s, c, Stopped) else s
    case PollWake => s.(poll := Woken)
    case PollDisarm => s.(poll := Disarmed, armed := None)
    case PollUnpoll => s.(poll := Unpolled, polled := false)
    case PollSend => s.(poll := Waiting, queue := s.queue + [MsgExpire])
    case MsgHandle => Handle(s)
    case MsgReadClient =>
      if s.msg.d !in s.delegates then Fault(s)
      else s.(msg := ClientRead(s.msg.d, s.delegates[s.msg.d].client, s.msg.now, s.msg.topDue))
    case MsgStopAndCall => StopAndCall(s)
    case MsgPopNext =>
      if TopDue(s.heap, s.msg.now) then PopInto(s, s.msg.now, s.msg.topDue)
      else s.(msg := UpdateSoonest(Top(s.heap), None))
    case MsgAddPoll =>
      if s.msg.d !in s.delegates || s.msg.d >= |s.started| then Fault(s)
      else s.(polled := true, msg := SettingTime(Some(s.started[s.msg.d].due)))
    case MsgRemovePoll => s.(polled := false, msg := SettingTime(None))
    case MsgSetTime => s.(armed := s.msg.value, msg := Idle)
  }

  /** `s'` is reached from `s` by the actions `run`, each enabled when it is taken. */
  predicate Reaches(s: State, run: seq<Action>, s': State)
    decreases run
  {
    if run == [] then s' == s
    else Enabled(s, run[0]) && Reaches(Do(s, run[0]), run[1..], s')
  }

  ghost predicate Reachable(s: State) {
    exists now, run :: Reaches(Init(now), run, s)
  }

  // ---------------------------------------------------------------- invariant

  function Removals(o: Outcome): nat {
    if o == Running then 0 else 1
  }

  /** Every start is pushed exactly once, and removed exactly once if it has ended. */
  ghost predicate Messages(outcome: seq<Outcome>, handled: multiset<Msg>, queue: seq<Msg>) {
    var sent := handled + multiset(queue);
    && (forall d :: 0 <= d < |outcome| ==> sent[MsgPush(d)] == 1 && sent[MsgRemove(d)] == Removals(outcome[d]))
    && (forall d :: d >= |outcome| ==> MsgPush(d) !in sent && MsgRemove(d) !in sent)
  }

  /** The push of a delegate is handled before its removal. */
  ghost predicate PushFirst(handled: multiset<Msg>, queue: seq<Msg>) {
    && (forall d :: MsgRemove(d) in handled ==> MsgPush(d) in handled)
    && (forall i, j :: 0 <= i < j < |queue| && queue[i].MsgRemove? && queue[j].MsgPush? ==> queue[i].d != queue[j].d)
  }

  function DelegateOf(r: StartRecord, o: Outcome): Delegate {
    if o == Running then Delegate(Some(r.owner), true) else Delegate(None, false)
  }

  /** A delegate lives until its removal is handled, and is released as soon as it has ended. */
  ghost predicate Lives(started: seq<StartRecord>, outcome: seq<Outcome>, delegates: map<nat, Delegate>,
                        handled: multiset<Msg>) {
    && |outcome| == |started|
    && (forall d :: d in delegates <==> 0 <= d < |started| && MsgRemove(d) !in handled)
    && (forall d :: d in delegates ==> delegates[d] == DelegateOf(started[d], outcome[d]))
  }

  /** The running timers are exactly those that the clients hold, and a client starts a timer only
      when its earlier ones have ended. */
  ghost predicate Held(started: seq<StartRecord>, outcome: seq<Outcome>, mTimer: map<nat, nat>) {
    && |outcome| == |started|
    && (forall d :: 0 <= d < |started| && outcome[d] == Running ==>
          started[d].owner in mTimer && mTimer[started[d].owner] == d)
    && (forall c :: c in mTimer ==>
          mTimer[c] < |started| && started[mTimer[c]].owner == c && outcome[mTimer[c]] == Running)
    && (forall d, e :: 0 <= d < e < |started| && started[d].owner == started[e].owner ==> outcome[d] != Running)
  }

  /** The heap holds live delegates, each once, whose push has been handled. */
  ghost predicate HeapLives(bag: multiset<Rankable>, started: seq<StartRecord>, delegates: map<nat, Delegate>,
                            handled: multiset<Msg>) {
    forall y :: y in bag ==>
      && y.id < |started| && y == ItemOf(started, y.id)
      && bag[y] == 1
      && MsgPush(y.id) in handled && y.id in delegates
  }

  predicate InExpire(msg: MsgPc) {
    msg.Popped? || msg.ClientRead? || msg.Looping?
  }

  predicate StartedSince(r: StartRecord, now: nat) {
    now <= r.at <= r.due
  }

  /** An Expire message took its time when it was handled. */
  predicate TookTime(msg: MsgPc, now: nat) {
    InExpire(msg) ==> msg.now <= now
  }

  /** Inside an Expire message: the popped delegate lives, its client is the one it was started
      for, it is due exactly if the message found the top due, and nothing left in the heap is due
      before it.  If its client was read and found, a later timer of that client was started since
      the message took its time. */
  ghost predicate Expiring(msg: MsgPc, bag: multiset<Rankable>, started: seq<StartRecord>,
                           delegates: map<nat, Delegate>) {
    InExpire(msg) ==>
      && msg.d < |started|
      && (msg.topDue <==> Sec(started[msg.d].due) <= Sec(msg.now))
      && (!msg.Looping? ==> msg.d in delegates)
      && (msg.ClientRead? && msg.client.Some? ==>
            && msg.client.value == started[msg.d].owner
            && forall e :: msg.d < e < |started| && started[e].owner == started[msg.d].owner ==>
                 StartedSince(started[e], msg.now))
      && (forall y :: y in bag ==> Sec(started[msg.d].due) <= -y.rank)
  }

  /** An Expire message is queued or about to be. */
  predicate WakeupPending(poll: PollPc, queue: seq<Msg>) {
    poll != Waiting || MsgExpire in queue
  }

  /** No timer is lost: a non-empty heap is watched by the kernel for its top's time, or will be
      examined by an Expire message, or the message thread is about to arm the kernel for it. */
  predicate Watched(msg: MsgPc, top: Option<Rankable>, started: seq<StartRecord>, polled: bool, armed: Option<nat>,
                    pending: bool) {
    match msg
    case Idle => top.Some? ==> (polled && armed == DueTime(started, top.value.id)) || pending
    case AddingPoll(d) => top.Some? && d == top.value.id
    case RemovingPoll => false
    case SettingTime(None) => false
    case SettingTime(Some(due)) => top.Some? && Some(due) == DueTime(started, top.value.id) && (polled || pending)
    case _ => true
  }

  function DueTime(started: seq<StartRecord>, d: nat): Option<nat> {
    if d < |started| then Some(started[d].due) else None
  }

  /** A callback is of the popped timer or of a later one of the same client, and the popped timer
      was due exactly if the Expire message found the top of the heap due. */
  ghost predicate FiredWhenDue(fired: seq<Firing>, started: seq<StartRecord>) {
    forall i :: 0 <= i < |fired| ==> FiringRight(fired[i], started)
  }

  predicate FiringRight(f: Firing, started: seq<StartRecord>) {
    && f.popped <= f.d < |started|
    && started[f.d].owner == started[f.popped].owner
    && (f.d != f.popped ==> StartedSince(started[f.d], f.now))
    && (f.topDue <==> Sec(started[f.popped].due) <= Sec(f.now))
  }

  /** Each timer is called back at most once, and its outcome records that it was. */
  ghost predicate FiredOnce(fired: seq<Firing>, outcome: seq<Outcome>) {
    && (forall i :: 0 <= i < |fired| ==> fired[i].d < |outcome| && outcome[fired[i].d] == CalledBack)
    && (forall i, j :: 0 <= i < j < |fired| ==> fired[i].d != fired[j].d)
    && (forall d {:trigger HasFired(fired, d)} :: 0 <= d < |outcome| && outcome[d] == CalledBack ==> HasFired(fired, d))
  }

  ghost predicate HasFired(fired: seq<Firing>, d: nat) {
    exists i :: 0 <= i < |fired| && fired[i].d == d
  }

  /** The invariant, given the heap's top and its bag of items. */
  ghost predicate Core(s: State, top: Option<Rankable>, bag: multiset<Rankable>) {
    && !s.fault
    && Messages(s.outcome, s.handled, s.queue)
    && PushFirst(s.handled, s.queue)
    && Lives(s.started, s.outcome, s.delegates, s.handled)
    && Held(s.started, s.outcome, s.mTimer)
    && (top.Some? ==> top.value in bag)
    && HeapLives(bag, s.started, s.delegates, s.handled)
    && Expiring(s.msg, bag, s.started, s.delegates)
    && Watched(s.msg, top, s.started, s.polled, s.armed, WakeupPending(s.poll, s.queue))
    && FiredWhenDue(s.fired, s.started)
    && TookTime(s.msg, s.now)
  }

  ghost predicate Inv(s: State) {
    CheckTree(s.heap) && Core(s, Top(s.heap), Bag(s.heap)) && FiredOnce(s.fired, s.outcome)
  }

  // ---------------------------------------------------------------- sending

  lemma SendKeepsPushFirst(handled: multiset<Msg>, queue: seq<Msg>, m: Msg)
    requires PushFirst(handled, queue)
    requires m.MsgPush? ==> MsgRemove(m.d) !in queue
    ensures PushFirst(handled, queue + [m])
  {}

  lemma PollSendKeeps(s: State, top: Option<Rankable>, bag: multiset<Rankable>)
    requires Core(s, top, bag) && s.poll == Unpolled
    ensures Core(Do(s, PollSend), top, bag)
  {
    SendKeepsPushFirst(s.handled, s.queue, MsgExpire);
    SendExpireKeepsMessages(s.outcome, s.handled, s.queue);
    assert (s.queue + [MsgExpire])[|s.queue|] == MsgExpire;
  }

  lemma SendExpireKeepsMessages(outcome: seq<Outcome>, handled: multiset<Msg>, queue: seq<Msg>)
    requires Messages(outcome, handled, queue)
    ensures Messages(outcome, handled, queue + [MsgExpire])
  {
    assert handled + multiset(queue + [MsgExpire]) == handled + multiset(queue) + multiset{MsgExpire};
  }

  // ---------------------------------------------------------------- client steps

  lemma StartKeepsMessages(outcome: seq<Outcome>, handled: multiset<Msg>, queue: seq<Msg>, m: Msg)
    requires Messages(outcome, handled, queue) && m == MsgPush(|outcome|)
    ensures Messages(outcome + [Running], handled, queue + [m])
    ensures MsgRemove(|outcome|) !in handled && MsgRemove(|outcome|) !in queue
  {
    assert handled + multiset(queue + [m]) == handled + multiset(queue) + multiset{m};
    assert MsgRemove(|outcome|) !in handled + multiset(queue);
  }

  lemma StartKeepsLives(s: State, r: StartRecord)
    requires Lives(s.started, s.outcome, s.delegates, s.handled) && MsgRemove(|s.started|) !in s.handled
    ensures Lives(s.started + [r], s.outcome + [Running],
                  s.delegates[|s.started| := Delegate(Some(r.owner), true)], s.handled)
  {}

  lemma StartKeepsHeld(s: State, r: StartRecord)
    requires Held(s.started, s.outcome, s.mTimer) && r.owner !in s.mTimer
    ensures Held(s.started + [r], s.outcome + [Running], s.mTimer[r.owner := |s.started|])
  {}

  lemma StartKeepsHeap(s: State, top: Option<Rankable>, bag: multiset<Rankable>, r: StartRecord, v: Delegate)
    requires HeapLives(bag, s.started, s.delegates, s.handled) && Expiring(s.msg, bag, s.started, s.delegates)
    requires FiredWhenDue(s.fired, s.started) && |s.started| !in s.delegates
    requires TookTime(s.msg, s.now) && r.at == s.now <= r.due
    ensures HeapLives(bag, s.started + [r], s.delegates[|s.started| := v], s.handled)
    ensures Expiring(s.msg, bag, s.started + [r], s.delegates[|s.started| := v])
    ensures FiredWhenDue(s.fired, s.started + [r])
  {}

  lemma StartIs(s: State, c: nat, ms: nat)
    requires c !in s.mTimer
    ensures DoStart(s, c, ms) == s.(
      mTimer := s.mTimer[c := |s.started|], started := s.started + [StartRecord(c, s.now, s.now + ms * 1_000_000)],
      outcome := s.outcome + [Running], delegates := s.delegates[|s.started| := Delegate(Some(c), true)],
      queue := s.queue + [MsgPush(|s.started|)])
  {}

  lemma StartKeeps(s: State, c: nat, ms: nat, top: Option<Rankable>, bag: multiset<Rankable>)
    requires Core(s, top, bag) && c !in s.mTimer
    ensures Core(DoStart(s, c, ms), top, bag)
  {
    var r, m := StartRecord(c, s.now, s.now + ms * 1_000_000), MsgPush(|s.started|);
    StartIs(s, c, ms);
    StartKeepsMessages(s.outcome, s.handled, s.queue, m);
    SendKeepsPushFirst(s.handled, s.queue, m);
    StartKeepsLives(s, r);
    StartKeepsHeld(s, r);
    StartKeepsHeap(s, top, bag, r, Delegate(Some(c), true));
  }

  lemma StopKeepsMessages(outcome: seq<Outcome>, handled: multiset<Msg>, queue: seq<Msg>, d: nat, o: Outcome)
    requires Messages(outcome, handled, queue) && d < |outcome| && outcome[d] == Running && o != Running
    ensures Messages(outcome[d := o], handled, queue + [MsgRemove(d)])
    ensures MsgRemove(d) !in handled && (MsgPush(d) in handled || MsgPush(d) in queue)
  {
    var m := MsgRemove(d);
    var sent := handled + multiset(queue);
    assert handled + multiset(queue + [m]) == sent + multiset{m};
    assert m !in sent && MsgPush(d) in sent;
  }

  lemma StopKeepsLives(s: State, d: nat, o: Outcome)
    requires Lives(s.started, s.outcome, s.delegates, s.handled) && MsgRemove(d) !in s.handled
    requires d < |s.started| && s.outcome[d] == Running && o != Running
    ensures d in s.delegates && s.delegates[d].contained
    ensures Lives(s.started, s.outcome[d := o], s.delegates[d := Delegate(None, false)], s.handled)
  {}

  lemma StopKeepsHeld(s: State, c: nat, o: Outcome)
    requires Held(s.started, s.outcome, s.mTimer) && c in s.mTimer && o != Running
    ensures Held(s.started, s.outcome[s.mTimer[c] := o], s.mTimer - {c})
  {}

  lemma StopKeepsHeap(s: State, top: Option<Rankable>, bag: multiset<Rankable>, d: nat, v: Delegate)
    requires Core(s, top, bag) && d in s.delegates
    ensures HeapLives(bag, s.started, s.delegates[d := v], s.handled)
    ensures Expiring(s.msg, bag, s.started, s.delegates[d := v])
  {}

  /** Ending a running timer never touches a freed delegate. */
  lemma StopIs(s: State, c: nat, o: Outcome, top: Option<Rankable>, bag: multiset<Rankable>)
    requires Core(s, top, bag) && c in s.mTimer
    ensures s.mTimer[c] in s.delegates && s.mTimer[c] < |s.outcome| && s.outcome[s.mTimer[c]] == Running
    ensures DoStop(s, c, o) == s.(
      mTimer := s.mTimer - {c}, outcome := s.outcome[s.mTimer[c] := o],
      delegates := s.delegates[s.mTimer[c] := Delegate(None, false)], queue := s.queue + [MsgRemove(s.mTimer[c])])
  {
    StopKeepsMessages(s.outcome, s.handled, s.queue, s.mTimer[c], Stopped);
  }

  lemma StopKeeps(s: State, c: nat, o: Outcome, top: Option<Rankable>, bag: multiset<Rankable>)
    requires Core(s, top, bag) && c in s.mTimer && o != Running
    ensures Core(DoStop(s, c, o), top, bag)
  {
    var d := s.mTimer[c];
    StopIs(s, c, o, top, bag);
    StopKeepsMessages(s.outcome, s.handled, s.queue, d, o);
    SendKeepsPushFirst(s.handled, s.queue, MsgRemove(d));
    StopKeepsLives(s, d, o);
    StopKeepsHeld(s, c, o);
    StopKeepsHeap(s, top, bag, d, Delegate(None, false));
  }

  // ---------------------------------------------------------------- message thread steps

  lemma UpdateKeepsWatched(top: Option<Rankable>, prior: Option<Rankable>, started: seq<StartRecord>,
                           polled: bool, armed: Option<nat>, pending: bool)
    requires prior == None || (top == prior && Watched(Idle, top, started, polled, armed, pending))
      || (top.Some? && OutRanks(top.value, prior.value))
    ensures Watched(UpdateSoonest(top, prior), top, started, polled, armed, pending)
    ensures !InExpire(UpdateSoonest(top, prior))
  {}

  lemma DequeueKeepsMessages(outcome: seq<Outcome>, handled: multiset<Msg>, queue: seq<Msg>)
    requires Messages(outcome, handled, queue) && PushFirst(handled, queue) && queue != []
    ensures Messages(outcome, handled + multiset{queue[0]}, queue[1..])
    ensures PushFirst(handled + multiset{queue[0]}, queue[1..])
    ensures queue[0] != MsgExpire ==>
              queue[0].d < |outcome| && queue[0] !in handled && MsgRemove(queue[0].d) !in handled
  {
    var m, rest := queue[0], queue[1..];
    assert queue == [m] + rest;
    assert handled + multiset(queue) == handled + multiset{m} + multiset(rest);
    if m.MsgRemove? {
      assert m in handled + multiset(queue);
      assert MsgPush(m.d) in handled + multiset(queue);
      assert MsgPush(m.d) in handled;
    } else if m.MsgPush? {
      assert m in handled + multiset(queue);
    }
  }

  lemma DequeueKeepsPending(poll: PollPc, queue: seq<Msg>)
    requires queue != [] && queue[0] != MsgExpire
    ensures WakeupPending(poll, queue) == WakeupPending(poll, queue[1..])
  {
    assert queue == [queue[0]] + queue[1..];
  }

  /** Handling `s.queue[0]` leaves the heap `t` and the delegates `live`. */
  function Handled(s: State, t: Tree, live: map<nat, Delegate>, msg: MsgPc): State
    requires s.queue != []
  {
    s.(queue := s.queue[1..], handled := s.handled + multiset{s.queue[0]}, heap := t, delegates := live, msg := msg)
  }

  lemma HandledPushKeeps(s: State, top: Option<Rankable>, bag: multiset<Rankable>, d: nat, t: Tree,
                         top': Option<Rankable>)
    requires Core(s, top, bag) && s.msg == Idle && s.queue != [] && s.queue[0] == MsgPush(d)
    requires d < |s.started|
    requires top' == top || (top' == Some(Item(s, d)) && (top == None || OutRanks(top'.value, top.value)))
    ensures Core(Handled(s, t, s.delegates, UpdateSoonest(top', top)), top', bag + multiset{Item(s, d)})
    ensures d in s.delegates
  {
    DequeueKeepsMessages(s.outcome, s.handled, s.queue);
    DequeueKeepsPending(s.poll, s.queue);
    UpdateKeepsWatched(top', top, s.started, s.polled, s.armed, WakeupPending(s.poll, s.queue));
  }

  lemma RemoveKeepsLives(s: State, d: nat)
    requires Lives(s.started, s.outcome, s.delegates, s.handled) && MsgRemove(d) !in s.handled && d < |s.started|
    ensures Lives(s.started, s.outcome, s.delegates - {d}, s.handled + multiset{MsgRemove(d)}) && d in s.delegates
  {}

  lemma HandledRemoveKeeps(s: State, top: Option<Rankable>, bag: multiset<Rankable>, d: nat, t: Tree,
                           top': Option<Rankable>, bag': multiset<Rankable>, prior: Option<Rankable>)
    requires Core(s, top, bag) && s.msg == Idle && s.queue != [] && s.queue[0] == MsgRemove(d)
    requires HeapLives(bag', s.started, s.delegates - {d}, s.handled + multiset{MsgRemove(d)})
    requires prior == None || (prior == top && top' == top)
    requires top'.Some? ==> top'.value in bag'
    ensures Core(Handled(s, t, s.delegates - {d}, UpdateSoonest(top', prior)), top', bag')
    ensures d in s.delegates && d < |s.started|
  {
    DequeueKeepsMessages(s.outcome, s.handled, s.queue);
    DequeueKeepsPending(s.poll, s.queue);
    UpdateKeepsWatched(top', prior, s.started, s.polled, s.armed, WakeupPending(s.poll, s.queue));
    RemoveKeepsLives(s, d);
  }

  lemma LosesOne(bag: multiset<Rankable>, bag': multiset<Rankable>, s: State, d: nat)
    requires HeapLives(bag, s.started, s.delegates, s.handled) && d < |s.started|
    requires if Item(s, d) in bag then bag' == bag - multiset{Item(s, d)} else bag' == bag
    ensures HeapLives(bag', s.started, s.delegates - {d}, s.handled + multiset{MsgRemove(d)})
  {
    forall y | y in bag' ensures y in bag && bag'[y] == 1 && y.id != d {
      ItemIsTakenOut(bag, bag', s.started, d, y);
    }
  }

  lemma ItemIsTakenOut(bag: multiset<Rankable>, bag': multiset<Rankable>, started: seq<StartRecord>, d: nat,
                       y: Rankable)
    requires d < |started| && y in bag'
    requires y in bag ==> bag[y] == 1 && y.id < |started| && y == ItemOf(started, y.id)
    requires ItemOf(started, d) in bag ==> bag[ItemOf(started, d)] == 1
    requires if ItemOf(started, d) in bag then bag' == bag - multiset{ItemOf(started, d)} else bag' == bag
    ensures y in bag && bag'[y] == 1 && y.id != d
  {}

  /** Popping the top, by an Expire message that found the top due exactly if this one is. */
  lemma PoppedKeeps(s: State, top: Option<Rankable>, bag: multiset<Rankable>, now: nat, topDue: bool,
                    t: Tree, top': Option<Rankable>, bag': multiset<Rankable>)
    requires Core(s, top, bag) && top.Some? && bag' == bag - multiset{top.value}
    requires top'.Some? ==> top'.value in bag'
    requires forall y :: y in bag ==> !OutRanks(y, top.value)
    requires (topDue <==> -top.value.rank <= Sec(now)) && now <= s.now
    ensures Core(s.(heap := t, msg := Popped(top.value.id, now, topDue)), top', bag')
  {
    assert forall y :: y in bag' ==> y in bag && bag'[y] == bag[y];
  }

  lemma HandledExpireKeeps(s: State, top: Option<Rankable>, bag: multiset<Rankable>)
    requires Core(s, top, bag) && s.msg == Idle && s.queue != [] && s.queue[0] == MsgExpire
    ensures Core(Handled(s, s.heap, s.delegates, UpdateSoonest(top, None)), top, bag)
  {
    DequeueKeepsMessages(s.outcome, s.handled, s.queue);
    UpdateKeepsWatched(top, None, s.started, s.polled, s.armed, false);
  }

  // ---------------------------------------------------------------- the steps that change the heap

  lemma HandleIsPush(s: State, d: nat)
    requires s.queue != [] && s.queue[0] == MsgPush(d) && d in s.delegates && d < |s.started|
    ensures var t := Push(s.heap, Item(s, d));
            Handle(s) == Handled(s, t, s.delegates, UpdateSoonest(Top(t), Top(s.heap)))
  {}

  lemma PushTop(t: Tree, x: Rankable)
    requires CheckTree(t)
    ensures CheckTree(Push(t, x)) && Bag(Push(t, x)) == Bag(t) + multiset{x}
    ensures Top(Push(t, x)) == if t.Empty? || OutRanks(x, t.data) then Some(x) else Top(t)
  {
    PushChecks(t, x);
    PushAddsOne(t, x);
  }

  lemma PushedKeeps(s: State, d: nat, t: Tree)
    requires Inv(s) && s.msg == Idle && s.queue != [] && s.queue[0] == MsgPush(d) && d < |s.started|
    requires CheckTree(t) && Bag(t) == Bag(s.heap) + multiset{Item(s, d)}
    requires Top(t) == if s.heap.Empty? || OutRanks(Item(s, d), s.heap.data) then Some(Item(s, d)) else Top(s.heap)
    ensures Inv(Handled(s, t, s.delegates, UpdateSoonest(Top(t), Top(s.heap)))) && d in s.delegates
  {
    HandledPushKeeps(s, Top(s.heap), Bag(s.heap), d, t, Top(t));
  }

  lemma HandlePushKeeps(s: State, d: nat)
    requires Inv(s) && s.msg == Idle && s.queue != [] && s.queue[0] == MsgPush(d)
    ensures Inv(Handle(s))
  {
    DequeueKeepsMessages(s.outcome, s.handled, s.queue);
    var t := Push(s.heap, Item(s, d));
    PushTop(s.heap, Item(s, d));
    PushedKeeps(s, d, t);
    HandleIsPush(s, d);
  }

  lemma RemoveTop(t: Tree, x: Rankable)
    requires CheckTree(t)
    ensures CheckTree(AfterRemove(t, x))
    ensures Bag(AfterRemove(t, x)) == if x in Bag(t) then Bag(t) - multiset{x} else Bag(t)
    ensures Remove(t, x).Some? <==> x in Bag(t)
    ensures Top(t) != Some(x) ==> Top(AfterRemove(t, x)) == Top(t)
  {
    RemoveRefinesBag(t, x);
    if x in Bag(t) { RemoveChecks(t, x); }
  }

  function PriorOfRemove(s: State, d: nat): Option<Rankable>
    requires d < |s.started|
  {
    var removed := if Remove(s.heap, Item(s, d)) == None then None else Some(Item(s, d));
    if Top(s.heap) == removed then None else Top(s.heap)
  }

  lemma HandleIsRemove(s: State, d: nat)
    requires s.queue != [] && s.queue[0] == MsgRemove(d) && d in s.delegates && d < |s.started|
    requires PriorOfRemove(s, d) != None ==> Top(AfterRemove(s.heap, Item(s, d))) == Top(s.heap)
    ensures var t := AfterRemove(s.heap, Item(s, d));
            Handle(s) == Handled(s, t, s.delegates - {d}, UpdateSoonest(Top(t), PriorOfRemove(s, d)))
  {}

  lemma RemovedKeeps(s: State, d: nat, t: Tree, prior: Option<Rankable>)
    requires Inv(s) && s.msg == Idle && s.queue != [] && s.queue[0] == MsgRemove(d) && d < |s.started|
    requires CheckTree(t)
    requires Bag(t) == if Item(s, d) in Bag(s.heap) then Bag(s.heap) - multiset{Item(s, d)} else Bag(s.heap)
    requires prior == None || (prior == Top(s.heap) && Top(t) == Top(s.heap))
    ensures Inv(Handled(s, t, s.delegates - {d}, UpdateSoonest(Top(t), prior))) && d in s.delegates
  {
    LosesOne(Bag(s.heap), Bag(t), s, d);
    HandledRemoveKeeps(s, Top(s.heap), Bag(s.heap), d, t, Top(t), Bag(t), prior);
  }

  lemma HandleRemoveKeeps(s: State, d: nat)
    requires Inv(s) && s.msg == Idle && s.queue != [] && s.queue[0] == MsgRemove(d)
    ensures Inv(Handle(s))
  {
    DequeueKeepsMessages(s.outcome, s.handled, s.queue);
    RemoveTop(s.heap, Item(s, d));
    TopInBag(s.heap);
    RemovedKeeps(s, d, AfterRemove(s.heap, Item(s, d)), PriorOfRemove(s, d));
    HandleIsRemove(s, d);
  }

  lemma TopInBag(t: Tree)
    ensures t.Node? ==> t.data in Bag(t)
  {}

  lemma PopIntoKeeps(s: State, now: nat, topDue: bool)
    requires Inv(s) && s.heap.Node? && (topDue <==> TopDue(s.heap, now)) && now <= s.now
    ensures Inv(PopInto(s, now, topDue))
  {
    PopRefinesBag(s.heap);
    TopInBag(Pop(s.heap));
    PoppedKeeps(s, Top(s.heap), Bag(s.heap), now, topDue, Pop(s.heap), Top(Pop(s.heap)), Bag(Pop(s.heap)));
  }

  lemma HandleExpireKeeps(s: State)
    requires Inv(s) && s.msg == Idle && s.queue != [] && s.queue[0] == MsgExpire
    ensures Inv(Handle(s))
  {
    var s' := Handled(s, s.heap, s.delegates, UpdateSoonest(Top(s.heap), None));
    HandledExpireKeeps(s, Top(s.heap), Bag(s.heap));
    if s.heap.Node? {
      PopIntoKeeps(s', s.now, TopDue(s.heap, s.now));
      assert Handle(s) == PopInto(s', s.now, TopDue(s.heap, s.now));
    } else {
      assert Handle(s) == s';
    }
  }

  /** A later pop is of a due timer, so the message had found the top due. */
  lemma PopNextKeeps(s: State)
    requires Inv(s) && s.msg.Looping?
    ensures Inv(Do(s, MsgPopNext))
  {
    if TopDue(s.heap, s.msg.now) {
      PopIntoKeeps(s, s.msg.now, s.msg.topDue);
    } else {
      UpdateKeepsWatched(Top(s.heap), None, s.started, s.polled, s.armed, WakeupPending(s.poll, s.queue));
    }
  }

  // ---------------------------------------------------------------- stopping by an Expire message

  lemma StopAndCallKeeps(s: State)
    requires Inv(s) && s.msg.ClientRead?
    ensures Inv(StopAndCall(s))
  {
    var ClientRead(d, client, now, topDue) := s.msg;
    var s1 := s.(msg := Looping(d, now, topDue));
    assert Core(s1, Top(s.heap), Bag(s.heap));
    if client.Some? && client.value in s.mTimer {
      var e := s.mTimer[client.value];
      StopIs(s1, client.value, CalledBack, Top(s.heap), Bag(s.heap));
      StopKeeps(s1, client.value, CalledBack, Top(s.heap), Bag(s.heap));
      FiringKeeps(s, Firing(e, d, now, topDue));
    }
  }

  lemma FiringKeeps(s: State, f: Firing)
    requires FiredOnce(s.fired, s.outcome) && FiredWhenDue(s.fired, s.started) && |s.started| == |s.outcome|
    requires f.d < |s.outcome| && s.outcome[f.d] == Running
    requires FiringRight(f, s.started)
    ensures FiredOnce(s.fired + [f], s.outcome[f.d := CalledBack]) && FiredWhenDue(s.fired + [f], s.started)
  {
    var fired := s.fired + [f];
    assert fired[|s.fired|] == f;
    forall d | 0 <= d < |s.outcome| && s.outcome[f.d := CalledBack][d] == CalledBack ensures HasFired(fired, d) {
      if d != f.d {
        assert HasFired(s.fired, d);
        var i :| 0 <= i < |s.fired| && s.fired[i].d == d;
        assert fired[i].d == d;
      }
    }
  }

  lemma StopKeepsFired(fired: seq<Firing>, outcome: seq<Outcome>, d: nat)
    requires FiredOnce(fired, outcome) && d < |outcome| && outcome[d] == Running
    ensures FiredOnce(fired, outcome[d := Stopped])
  {
    forall e | 0 <= e < |outcome| && outcome[d := Stopped][e] == CalledBack ensures HasFired(fired, e) {}
  }

  lemma StopClientKeeps(s: State, c: nat)
    requires Inv(s) && c in s.mTimer
    ensures Inv(Do(s, Stop(c)))
  {
    StopIs(s, c, Stopped, Top(s.heap), Bag(s.heap));
    StopKeeps(s, c, Stopped, Top(s.heap), Bag(s.heap));
    StopKeepsFired(s.fired, s.outcome, s.mTimer[c]);
  }

  lemma StartKeepsFired(fired: seq<Firing>, outcome: seq<Outcome>)
    requires FiredOnce(fired, outcome)
    ensures FiredOnce(fired, outcome + [Running])
  {
    forall e | 0 <= e <= |outcome| && (outcome + [Running])[e] == CalledBack ensures HasFired(fired, e) {}
  }

  lemma StartClientKeeps(s: State, c: nat, ms: nat)
    requires Inv(s) && c !in s.mTimer
    ensures Inv(Do(s, Start(c, ms)))
  {
    StartIs(s, c, ms);
    StartKeeps(s, c, ms, Top(s.heap), Bag(s.heap));
    StartKeepsFired(s.fired, s.outcome);
  }

  // ---------------------------------------------------------------- every step, every run

  lemma ReadClientKeeps(s: State, top: Option<Rankable>, bag: multiset<Rankable>)
    requires Core(s, top, bag) && s.msg.Popped?
    ensures Core(Do(s, MsgReadClient), top, bag)
  {}

  lemma PollStepKeeps(s: State, a: Action, top: Option<Rankable>, bag: multiset<Rankable>)
    requires Core(s, top, bag) && Enabled(s, a)
    requires a.Tick? || a == PollWake || a == PollDisarm || a == PollUnpoll
    ensures Core(Do(s, a), top, bag)
  {}

  lemma AddPollKeeps(s: State, top: Option<Rankable>, bag: multiset<Rankable>)
    requires Core(s, top, bag) && Enabled(s, MsgAddPoll)
    ensures Core(Do(s, MsgAddPoll), top, bag)
  {}

  lemma SetTimeKeeps(s: State, top: Option<Rankable>, bag: multiset<Rankable>)
    requires Core(s, top, bag) && Enabled(s, MsgSetTime)
    ensures Core(Do(s, MsgSetTime), top, bag)
  {}

  lemma RemovePollIsNotReached(s: State, top: Option<Rankable>, bag: multiset<Rankable>)
    requires Core(s, top, bag)
    ensures !Enabled(s, MsgRemovePoll)
  {}

  lemma StepKeeps(s: State, a: Action)
    requires Inv(s) && Enabled(s, a)
    ensures Inv(Do(s, a))
  {
    match a
    case Start(c, ms) => if c !in s.mTimer { StartClientKeeps(s, c, ms); }
    case Stop(c) => if c in s.mTimer { StopClientKeeps(s, c); }
    case PollSend => PollSendKeeps(s, Top(s.heap), Bag(s.heap));
    case MsgHandle => {
      match s.queue[0]
      case MsgPush(d) => HandlePushKeeps(s, d);
      case MsgRemove(d) => HandleRemoveKeeps(s, d);
      case MsgExpire => HandleExpireKeeps(s);
    }
    case MsgStopAndCall => StopAndCallKeeps(s);
    case MsgPopNext => PopNextKeeps(s);
    case MsgReadClient => ReadClientKeeps(s, Top(s.heap), Bag(s.heap));
    case MsgAddPoll => AddPollKeeps(s, Top(s.heap), Bag(s.heap));
    case MsgRemovePoll => RemovePollIsNotReached(s, Top(s.heap), Bag(s.heap));
    case MsgSetTime => SetTimeKeeps(s, Top(s.heap), Bag(s.heap));
    case _ => PollStepKeeps(s, a, Top(s.heap), Bag(s.heap));
  }

  lemma {:induction false} RunKeeps(s: State, run: seq<Action>, s': State)
    requires Inv(s) && Reaches(s, run, s')
    ensures Inv(s')
    decreases run
  {
    if run != [] {
      StepKeeps(s, run[0]);
      RunKeeps(Do(s, run[0]), run[1..], s');
    }
  }

  /** Nothing has happened yet. */
  ghost predicate Initial(s: State) {
    && !s.fault && s.heap.Empty? && s.msg == Idle
    && s.mTimer == map[] && s.started == [] && s.outcome == [] && s.delegates == map[]
    && (forall m :: m !in s.handled) && s.queue == [] && s.fired == []
  }

  lemma InitialHolds(s: State)
    requires Initial(s)
    ensures Inv(s)
  {}

  lemma RunFromInitial(s: State, run: seq<Action>, s': State)
    requires Initial(s) && Reaches(s, run, s')
    ensures Inv(s')
  {
    InitialHolds(s);
    RunKeeps(s, run, s');
  }

  lemma ReachableKeeps(s: State)
    requires Reachable(s)
    ensures Inv(s)
  {
    var now, run :| Reaches(Init(now), run, s);
    RunFromInitial(Init(now), run, s);
  }

  // ---------------------------------------------------------------- main results

  /** No timer is lost: whenever a timer waits in the heap, either the kernel is polled and armed
      for the exact time of the top, or the poll thread or the message thread has yet to act on the
      heap.  The top is the soonest timer to the second: none is due a second or more before it. */
  lemma NoTimerIsLost(s: State)
    requires Reachable(s) && s.heap.Node?
    ensures s.heap.data.id < |s.started|
    ensures (s.polled && s.armed == Some(s.started[s.heap.data.id].due))
         || s.poll != Waiting || MsgExpire in s.queue || s.msg != Idle
    ensures forall y :: y in Bag(s.heap) ==>
              y.id < |s.started| && s.started[s.heap.data.id].due < s.started[y.id].due + SECOND
  {
    ReachableKeeps(s);
    TopInBag(s.heap);
    TopIsSoonest(s.heap);
    forall y | y in Bag(s.heap)
      ensures y.id < |s.started| && s.started[s.heap.data.id].due < s.started[y.id].due + SECOND
    {
      SecondsApart(s.started[s.heap.data.id].due, s.started[y.id].due);
    }
  }

  /** Times ordered by the second are less than a second out of order. */
  lemma SecondsApart(a: nat, b: nat)
    ensures Sec(a) <= Sec(b) ==> a < b + SECOND
    ensures Sec(a) > Sec(b) ==> a > b
  {}

  lemma TopIsSoonest(t: Tree)
    requires t.Node? && CheckTree(t)
    ensures forall y :: y in Bag(t) ==> -t.data.rank <= -y.rank
  {
    CheckedIsRankedAndSized(t);
  }

  /** The branch that takes the kernel timer off the poll when the heap empties is never taken. */
  lemma RemovePollIsDead(s: State)
    requires Reachable(s)
    ensures s.msg != RemovingPoll && s.msg != SettingTime(None)
  {
    ReachableKeeps(s);
  }

  /** Each successful start is pushed once and ends at most once: by a stop of its client or by
      one callback, and it is removed exactly once if it ends. */
  lemma EachStartEndsAtMostOnce(s: State, d: nat)
    requires Reachable(s) && d < |s.started|
    ensures |s.outcome| == |s.started|
    ensures (s.handled + multiset(s.queue))[MsgPush(d)] == 1
    ensures (s.handled + multiset(s.queue))[MsgRemove(d)] == if s.outcome[d] == Running then 0 else 1
    ensures HasFired(s.fired, d) <==> s.outcome[d] == CalledBack
    ensures forall i, j :: 0 <= i < j < |s.fired| ==> !(s.fired[i].d == d && s.fired[j].d == d)
  {
    ReachableKeeps(s);
  }

  lemma HandleKeepsOutcomes(s: State)
    requires s.queue != []
    ensures Handle(s).outcome == s.outcome && Handle(s).started == s.started
  {}

  lemma OtherStepsKeepOutcomes(s: State, a: Action, d: nat)
    requires Enabled(s, a) && d < |s.started| == |s.outcome| && !a.Stop? && a != MsgStopAndCall
    ensures var s' := Do(s, a);
            && |s.started| <= |s'.started| == |s'.outcome|
            && s'.started[d] == s.started[d] && s'.outcome[d] == s.outcome[d]
  {
    if a == MsgHandle { HandleKeepsOutcomes(s); }
  }

  /** How a timer has ended is final. */
  lemma StepKeepsOutcomes(s: State, a: Action, d: nat)
    requires Inv(s) && Enabled(s, a) && d < |s.started|
    ensures var s' := Do(s, a);
            && |s.started| <= |s'.started| == |s'.outcome| && s'.started[d] == s.started[d]
            && (s.outcome[d] != Running ==> s'.outcome[d] == s.outcome[d])
  {
    if a == MsgStopAndCall {
      if s.msg.client.Some? && s.msg.client.value in s.mTimer {
        var s' := s.(msg := Looping(s.msg.d, s.msg.now, s.msg.topDue));
        assert Core(s', Top(s.heap), Bag(s.heap));
        StopKeepsOutcomes(s', s.msg.client.value, CalledBack, d);
      }
    } else if a.Stop? {
      if a.c in s.mTimer { StopKeepsOutcomes(s, a.c, Stopped, d); }
    } else {
      OtherStepsKeepOutcomes(s, a, d);
    }
  }

  lemma StopKeepsOutcomes(s: State, c: nat, o: Outcome, d: nat)
    requires Core(s, Top(s.heap), Bag(s.heap)) && c in s.mTimer && d < |s.started|
    ensures var s' := DoStop(s, c, o);
            && s'.started == s.started && |s'.outcome| == |s.started| == |s.outcome|
            && (s.outcome[d] != Running ==> s'.outcome[d] == s.outcome[d])
  {
    StopIs(s, c, o, Top(s.heap), Bag(s.heap));
  }

  lemma {:induction false} OutcomeIsFinal(s: State, run: seq<Action>, s': State, d: nat)
    requires Inv(s) && Reaches(s, run, s') && d < |s.started| && s.outcome[d] != Running
    ensures d < |s'.started| == |s'.outcome| && s'.outcome[d] == s.outcome[d] && s'.started[d] == s.started[d]
    decreases run
  {
    if run != [] {
      StepKeeps(s, run[0]);
      StepKeepsOutcomes(s, run[0], d);
      OutcomeIsFinal(Do(s, run[0]), run[1..], s', d);
    }
  }

  /** A freed delegate has ended, and nothing refers to it any more; no step ever touches one. */
  lemma FreedIsForgotten(s: State, d: nat)
    requires Reachable(s) && d < |s.started| && d !in s.delegates
    ensures !s.fault && |s.outcome| == |s.started| && s.outcome[d] != Running && Item(s, d) !in Bag(s.heap)
    ensures MsgPush(d) !in s.queue && MsgRemove(d) !in s.queue
    ensures s.msg.Popped? || s.msg.ClientRead? ==> s.msg.d != d
    ensures forall c :: c in s.mTimer ==> s.mTimer[c] != d
  {
    ReachableKeeps(s);
    assert (s.handled + multiset(s.queue))[MsgPush(d)] == 1;
    assert (s.handled + multiset(s.queue))[MsgRemove(d)] == 1;
    assert MsgPush(d) in s.handled;
  }

  /** The callback goes to the timer that was popped exactly when its client has not stopped it
      since, and is then early exactly if the message found the top not due.  It goes to another
      timer exactly when the client has stopped the popped one and started anew; that was after the
      message took its time, and the callback is early unless the new timer is due within the same
      second.  Otherwise nobody is called. */
  lemma CallbackTarget(s: State)
    requires Reachable(s) && s.msg.ClientRead?
    ensures !s.fault && s.msg.d < |s.started| == |s.outcome|
    ensures var c, fired' := s.started[s.msg.d].owner, Do(s, MsgStopAndCall).fired;
            var called := s.msg.client.Some? && c in s.mTimer;
            && (s.outcome[s.msg.d] == Running && s.msg.client.Some? ==> called)
            && (!called ==> fired' == s.fired)
            && (called ==>
                  var f := Firing(s.mTimer[c], s.msg.d, s.msg.now, s.msg.topDue);
                  && fired' == s.fired + [f] && f.popped <= f.d < |s.started| && s.started[f.d].owner == c
                  && (f.d == f.popped <==> s.outcome[s.msg.d] == Running)
                  && (f.d != f.popped ==> s.msg.now <= s.started[f.d].at)
                  && (Early(f, s.started) <==>
                        if f.d == f.popped then !s.msg.topDue else Sec(s.started[f.d].due) != Sec(f.now)))
  {
    ReachableKeepsHeld(s);
    CalledIs(s, Bag(s.heap));
    StopAndCallFires(s);
    if s.msg.client.Some? && s.msg.client.value in s.mTimer && s.mTimer[s.msg.client.value] != s.msg.d {
      EarlierSecond(s.msg.now, s.started[s.mTimer[s.msg.client.value]].due);
    }
  }

  lemma EarlierSecond(a: nat, b: nat)
    requires a <= b
    ensures Sec(a) <= Sec(b)
  {}

  lemma ReachableKeepsHeld(s: State)
    requires Reachable(s)
    ensures !s.fault && Held(s.started, s.outcome, s.mTimer)
    ensures Expiring(s.msg, Bag(s.heap), s.started, s.delegates)
  {
    ReachableKeeps(s);
  }

  lemma StopAndCallFires(s: State)
    requires s.msg.ClientRead?
    ensures StopAndCall(s).fired ==
            if s.msg.client.Some? && s.msg.client.value in s.mTimer
            then s.fired + [Firing(s.mTimer[s.msg.client.value], s.msg.d, s.msg.now, s.msg.topDue)]
            else s.fired
  {}

  /** Whom the message thread is about to call. */
  lemma CalledIs(s: State, bag: multiset<Rankable>)
    requires Held(s.started, s.outcome, s.mTimer) && Expiring(s.msg, bag, s.started, s.delegates) && s.msg.ClientRead?
    ensures s.msg.d < |s.started|
    ensures var c := s.started[s.msg.d].owner;
            && (s.msg.client.Some? ==> s.msg.client.value == c)
            && (s.outcome[s.msg.d] == Running ==> c in s.mTimer)
            && (c in s.mTimer ==>
                  && s.msg.d <= s.mTimer[c] < |s.started| && s.started[s.mTimer[c]].owner == c
                  && (s.mTimer[c] == s.msg.d <==> s.outcome[s.msg.d] == Running)
                  && (s.msg.client.Some? && s.mTimer[c] != s.msg.d ==>
                        StartedSince(s.started[s.mTimer[c]], s.msg.now)))
    ensures s.msg.topDue <==> IsDue(s, s.msg.d, s.msg.now)
  {}

  /** Delegate `d` is due, to the second, at the time `now`. */
  predicate IsDue(s: State, d: nat, now: nat)
    requires d < |s.started|
  {
    Sec(s.started[d].due) <= Sec(now)
  }

  /** The callback was of a timer not due at the time its Expire message took. */
  predicate Early(f: Firing, started: seq<StartRecord>)
    requires f.d < |started|
  {
    Sec(started[f.d].due) > Sec(f.now)
  }

  /** Of all callbacks ever made, one to the popped timer was early exactly if its Expire message
      found the top of the heap not due, and is otherwise less than a second early; any other is to
      a timer that the same client started after the message took its time, and was early unless that
      timer is due within the same second. */
  lemma EarlyCallbacks(s: State, i: nat)
    requires Reachable(s) && i < |s.fired|
    ensures var f := s.fired[i];
            && f.popped <= f.d < |s.started|
            && s.started[f.d].owner == s.started[f.popped].owner
            && (f.d == f.popped ==> (Early(f, s.started) <==> !f.topDue))
            && (f.d != f.popped ==> f.now <= s.started[f.d].at)
            && (f.d != f.popped ==> (Early(f, s.started) <==> Sec(s.started[f.d].due) != Sec(f.now)))
            && (f.d == f.popped && f.topDue ==> s.started[f.d].due < f.now + SECOND)
  {
    ReachableKeeps(s);
    assert FiringRight(s.fired[i], s.started);
    SecondsApart(s.started[s.fired[i].popped].due, s.fired[i].now);
    if s.fired[i].d != s.fired[i].popped { EarlierSecond(s.fired[i].now, s.started[s.fired[i].d].due); }
  }

  /** `run` is taken inside one Expire message: it reaches `s'`, and the message has not ended. */
  predicate WithinExpire(s: State, run: seq<Action>, s': State)
    decreases run
  {
    && InExpire(s.msg)
    && if run == [] then s' == s
       else Enabled(s, run[0]) && WithinExpire(Do(s, run[0]), run[1..], s')
  }

  /** Inside an Expire message its time and what it found stay, and if it found the top not due
      there is no second pop. */
  lemma ExpireStep(s: State, a: Action)
    requires Inv(s) && Enabled(s, a) && InExpire(s.msg) && InExpire(Do(s, a).msg)
    ensures var s' := Do(s, a);
            && s'.msg.now == s.msg.now && s'.msg.topDue == s.msg.topDue
            && (!s.msg.topDue ==> s'.msg.d == s.msg.d)
  {
    if a == MsgPopNext {
      TopInBag(s.heap);
      SecondPop(s, Bag(s.heap));
    } else {
      OtherStepsStayInExpire(s, a);
    }
  }

  lemma SecondPop(s: State, bag: multiset<Rankable>)
    requires Enabled(s, MsgPopNext) && Expiring(s.msg, bag, s.started, s.delegates)
    requires s.heap.Node? ==> s.heap.data in bag
    ensures var s' := Do(s, MsgPopNext);
            InExpire(s'.msg) ==> s.msg.topDue && s'.msg.now == s.msg.now && s'.msg.topDue
  {}

  lemma OtherStepsStayInExpire(s: State, a: Action)
    requires Enabled(s, a) && InExpire(s.msg) && a != MsgPopNext
    ensures var s' := Do(s, a);
            InExpire(s'.msg) && s'.msg.now == s.msg.now && s'.msg.topDue == s.msg.topDue && s'.msg.d == s.msg.d
  {
    if a.Stop? && a.c in s.mTimer {
      StopKeepsPhase(s, a.c, Stopped);
    } else if a == MsgStopAndCall && s.msg.client.Some? && s.msg.client.value in s.mTimer {
      StopKeepsPhase(s.(msg := Looping(s.msg.d, s.msg.now, s.msg.topDue)), s.msg.client.value, CalledBack);
    }
  }

  lemma StopKeepsPhase(s: State, c: nat, o: Outcome)
    requires c in s.mTimer
    ensures DoStop(s, c, o).msg == s.msg
  {}

  lemma {:induction false} ExpireRun(s: State, run: seq<Action>, s': State)
    requires Inv(s) && WithinExpire(s, run, s')
    ensures Inv(s') && InExpire(s'.msg) && s'.msg.now == s.msg.now && s'.msg.topDue == s.msg.topDue
    ensures !s.msg.topDue ==> s'.msg.d == s.msg.d
    decreases run
  {
    if run != [] {
      StepKeeps(s, run[0]);
      assert InExpire(Do(s, run[0]).msg);
      ExpireStep(s, run[0]);
      ExpireRun(Do(s, run[0]), run[1..], s');
    }
  }

  /** The code pops the first timer unconditionally.  Every timer an Expire message pops is due when
      it is handled if and only if the top of the heap is; otherwise it pops the top and no other. */
  lemma ExpirePopsDueIff(s: State, run: seq<Action>, s': State)
    requires Reachable(s) && Enabled(s, MsgHandle) && s.queue[0] == MsgExpire && s.heap.Node?
    requires WithinExpire(Do(s, MsgHandle), run, s')
    ensures InExpire(s'.msg) && s'.msg.d < |s'.started| && s.heap.data.id < |s.started|
    ensures IsDue(s', s'.msg.d, s.now) <==> IsDue(s, s.heap.data.id, s.now)
    ensures !IsDue(s, s.heap.data.id, s.now) ==> s'.msg.d == s.heap.data.id
  {
    ReachableKeeps(s);
    StepKeeps(s, MsgHandle);
    ExpireRun(Do(s, MsgHandle), run, s');
    TopInBag(s.heap);
  }

  /** One Expire message pops in order of due time. */
  lemma ExpireIsOrdered(s: State)
    requires Reachable(s) && s.msg.Looping?
    ensures !s.fault && s.msg.d < |s.started|
    ensures forall y :: y in Bag(s.heap) ==>
              y.id < |s.started| && Sec(s.started[s.msg.d].due) <= Sec(s.started[y.id].due)
  {
    ReachableKeeps(s);
  }

  lemma PopNextIs(s: State)
    requires Enabled(s, MsgPopNext)
    ensures var s' := Do(s, MsgPopNext);
            if s.heap.Node? && -s.heap.data.rank <= Sec(s.msg.now)
            then s'.msg == Popped(s.heap.data.id, s.msg.now, s.msg.topDue)
            else !s'.msg.Popped? && s'.heap == s.heap
  {}

  /** After the first timer it pops only due ones, and it stops only when nothing left is due. */
  lemma ExpireIsThorough(s: State)
    requires Reachable(s) && s.msg.Looping?
    ensures !s.fault
    ensures var s' := Do(s, MsgPopNext);
            if s'.msg.Popped?
            then s'.msg.d < |s.started| && IsDue(s, s'.msg.d, s.msg.now)
            else s'.heap == s.heap && forall y :: y in Bag(s.heap) ==> y.id < |s.started| && !IsDue(s, y.id, s.msg.now)
  {
    ReachableKeeps(s);
    PopNextIs(s);
    TopInBag(s.heap);
    if s.heap.Node? { TopIsSoonest(s.heap); }
  }

  // ---------------------------------------------------------------- every due timer is served

  /** The message thread is about to call back delegate `d`. */
  predicate Acting(msg: MsgPc, d: nat) {
    (msg.Popped? && msg.d == d) || (msg.ClientRead? && msg.d == d && msg.client.Some?)
  }

  /** A running timer is still to be pushed, or in the heap, or about to be called back. */
  ghost predicate Tracked(s: State, bag: multiset<Rankable>) {
    AllTracked(s.outcome, s.started, s.queue, s.msg, bag)
  }

  ghost predicate AllTracked(outcome: seq<Outcome>, started: seq<StartRecord>, queue: seq<Msg>, msg: MsgPc,
                             bag: multiset<Rankable>) {
    |outcome| == |started| &&
    forall d :: 0 <= d < |outcome| && outcome[d] == Running ==>
      MsgPush(d) in queue || ItemOf(started, d) in bag || Acting(msg, d)
  }

  lemma StartTracks(s: State, c: nat, ms: nat, bag: multiset<Rankable>)
    requires Tracked(s, bag) && c !in s.mTimer
    ensures Tracked(DoStart(s, c, ms), bag) && DoStart(s, c, ms).heap == s.heap
  {
    StartIs(s, c, ms);
  }

  lemma StopTracks(s: State, c: nat, o: Outcome, top: Option<Rankable>, bag: multiset<Rankable>)
    requires Core(s, top, bag) && Tracked(s, bag) && c in s.mTimer && o != Running
    ensures Tracked(DoStop(s, c, o), bag) && DoStop(s, c, o).heap == s.heap
  {
    StopIs(s, c, o, top, bag);
  }

  /** The delegate that is called back is the running one, if the popped one still runs. */
  lemma StopAndCallTracks(s: State, top: Option<Rankable>, bag: multiset<Rankable>)
    requires Core(s, top, bag) && Tracked(s, bag) && s.msg.ClientRead?
    ensures Tracked(StopAndCall(s), bag) && StopAndCall(s).heap == s.heap
  {
    var s' := s.(msg := Looping(s.msg.d, s.msg.now, s.msg.topDue));
    assert Core(s', top, bag);
    CallTracks(s.outcome, s.started, s.queue, s.msg, bag, s.mTimer);
    if s.msg.client.Some? && s.msg.client.value in s.mTimer {
      StopIs(s', s.msg.client.value, CalledBack, top, bag);
    }
  }

  lemma CallTracks(outcome: seq<Outcome>, started: seq<StartRecord>, queue: seq<Msg>, msg: MsgPc,
                   bag: multiset<Rankable>, mTimer: map<nat, nat>)
    requires AllTracked(outcome, started, queue, msg, bag) && Held(started, outcome, mTimer)
    requires msg.ClientRead? && msg.d < |started|
    requires msg.client.Some? ==> msg.client.value == started[msg.d].owner
    ensures var looping := Looping(msg.d, msg.now, msg.topDue);
            if msg.client.Some? && msg.client.value in mTimer then
              var d := mTimer[msg.client.value];
              AllTracked(outcome[d := CalledBack], started, queue + [MsgRemove(d)], looping, bag)
            else
              AllTracked(outcome, started, queue, looping, bag)
  {}

  lemma ReadClientTracks(s: State, bag: multiset<Rankable>)
    requires Lives(s.started, s.outcome, s.delegates, s.handled) && Tracked(s, bag)
    requires Enabled(s, MsgReadClient) && s.msg.d in s.delegates
    ensures Tracked(Do(s, MsgReadClient), bag) && Do(s, MsgReadClient).heap == s.heap
  {}

  lemma HandledTracks(s: State, bag: multiset<Rankable>, t: Tree, live: map<nat, Delegate>, msg: MsgPc,
                      bag': multiset<Rankable>)
    requires Tracked(s, bag) && s.msg == Idle && s.queue != []
    requires forall d :: 0 <= d < |s.outcome| && s.outcome[d] == Running ==>
               (ItemOf(s.started, d) in bag || s.queue[0] == MsgPush(d) ==>
                  ItemOf(s.started, d) in bag' || Acting(msg, d))
    ensures Tracked(Handled(s, t, live, msg), bag')
  {
    assert s.queue == [s.queue[0]] + s.queue[1..];
  }

  lemma HandlePushTracks(s: State, d: nat)
    requires Inv(s) && Tracked(s, Bag(s.heap)) && s.msg == Idle && s.queue != [] && s.queue[0] == MsgPush(d)
    ensures Tracked(Handle(s), Bag(Handle(s).heap))
  {
    DequeueKeepsMessages(s.outcome, s.handled, s.queue);
    var t := Push(s.heap, Item(s, d));
    PushTop(s.heap, Item(s, d));
    HandleIsPush(s, d);
    HandledTracks(s, Bag(s.heap), t, s.delegates, UpdateSoonest(Top(t), Top(s.heap)), Bag(t));
  }

  lemma RemovedHasEnded(outcome: seq<Outcome>, handled: multiset<Msg>, queue: seq<Msg>, d: nat)
    requires Messages(outcome, handled, queue) && MsgRemove(d) in queue && d < |outcome|
    ensures outcome[d] != Running
  {
    assert MsgRemove(d) in handled + multiset(queue);
  }

  lemma HandleRemoveTracks(s: State, d: nat)
    requires Inv(s) && Tracked(s, Bag(s.heap)) && s.msg == Idle && s.queue != [] && s.queue[0] == MsgRemove(d)
    ensures Tracked(Handle(s), Bag(Handle(s).heap))
  {
    DequeueKeepsMessages(s.outcome, s.handled, s.queue);
    RemovedHasEnded(s.outcome, s.handled, s.queue, d);
    var t := AfterRemove(s.heap, Item(s, d));
    RemoveTop(s.heap, Item(s, d));
    RemoveTracks(s.outcome, s.started, s.queue, Bag(s.heap), d, UpdateSoonest(Top(t), PriorOfRemove(s, d)), Bag(t));
    HandledPushedDelegate(s, d);
    HandleIsRemove(s, d);
  }

  lemma HandledPushedDelegate(s: State, d: nat)
    requires Lives(s.started, s.outcome, s.delegates, s.handled) && d < |s.started| && MsgRemove(d) !in s.handled
    ensures d in s.delegates
  {}

  lemma RemoveTracks(outcome: seq<Outcome>, started: seq<StartRecord>, queue: seq<Msg>, bag: multiset<Rankable>,
                     d: nat, msg: MsgPc, bag': multiset<Rankable>)
    requires AllTracked(outcome, started, queue, Idle, bag) && queue != [] && queue[0] == MsgRemove(d)
    requires d < |outcome| && outcome[d] != Running
    requires bag' == if ItemOf(started, d) in bag then bag - multiset{ItemOf(started, d)} else bag
    ensures AllTracked(outcome, started, queue[1..], msg, bag')
  {
    assert queue == [queue[0]] + queue[1..];
  }

  /** The popped timer is the one the message thread is about to call back. */
  lemma PopTracks(s: State, now: nat, topDue: bool)
    requires CheckTree(s.heap) && Tracked(s, Bag(s.heap)) && s.heap.Node? && !s.msg.Popped? && !s.msg.ClientRead?
    ensures Tracked(PopInto(s, now, topDue), Bag(Pop(s.heap)))
  {
    PopRefinesBag(s.heap);
    LessTopTracks(s.outcome, s.started, s.queue, s.msg, Bag(s.heap), s.heap.data, Popped(s.heap.data.id, now, topDue));
  }

  lemma LessTopTracks(outcome: seq<Outcome>, started: seq<StartRecord>, queue: seq<Msg>, msg: MsgPc,
                      bag: multiset<Rankable>, x: Rankable, msg': MsgPc)
    requires AllTracked(outcome, started, queue, msg, bag) && !msg.Popped? && !msg.ClientRead?
    requires msg'.Popped? && msg'.d == x.id
    ensures AllTracked(outcome, started, queue, msg', bag - multiset{x})
  {}

  lemma PopNextTracks(s: State)
    requires CheckTree(s.heap) && Tracked(s, Bag(s.heap)) && Enabled(s, MsgPopNext)
    ensures Tracked(Do(s, MsgPopNext), Bag(Do(s, MsgPopNext).heap))
  {
    if TopDue(s.heap, s.msg.now) { PopTracks(s, s.msg.now, s.msg.topDue); }
  }

  lemma HandleIsExpire(s: State)
    requires s.queue != [] && s.queue[0] == MsgExpire
    ensures var s' := Handled(s, s.heap, s.delegates, UpdateSoonest(Top(s.heap), None));
            Handle(s) == if s.heap.Node? then PopInto(s', s.now, TopDue(s.heap, s.now)) else s'
  {}

  lemma HandleExpireTracks(s: State)
    requires CheckTree(s.heap) && Tracked(s, Bag(s.heap))
    requires s.msg == Idle && s.queue != [] && s.queue[0] == MsgExpire
    ensures Tracked(Handle(s), Bag(Handle(s).heap))
  {
    var s' := Handled(s, s.heap, s.delegates, UpdateSoonest(Top(s.heap), None));
    HandledTracks(s, Bag(s.heap), s.heap, s.delegates, UpdateSoonest(Top(s.heap), None), Bag(s.heap));
    HandleIsExpire(s);
    if s.heap.Node? { PopTracks(s', s.now, TopDue(s.heap, s.now)); }
  }

  lemma PlainStepTracks(s: State, a: Action, bag: multiset<Rankable>)
    requires Tracked(s, bag) && Enabled(s, a)
    requires a.Tick? || a == PollWake || a == PollDisarm || a == PollUnpoll || a == PollSend
      || a == MsgAddPoll || a == MsgRemovePoll || a == MsgSetTime
    ensures Tracked(Do(s, a), bag) && Do(s, a).heap == s.heap
  {}

  lemma StepTracks(s: State, a: Action)
    requires Inv(s) && Tracked(s, Bag(s.heap)) && Enabled(s, a)
    ensures Tracked(Do(s, a), Bag(Do(s, a).heap))
  {
    match a
    case Start(c, ms) => if c !in s.mTimer { StartTracks(s, c, ms, Bag(s.heap)); }
    case Stop(c) => if c in s.mTimer { StopTracks(s, c, Stopped, Top(s.heap), Bag(s.heap)); }
    case MsgHandle => {
      match s.queue[0]
      case MsgPush(d) => HandlePushTracks(s, d);
      case MsgRemove(d) => HandleRemoveTracks(s, d);
      case MsgExpire => HandleExpireTracks(s);
    }
    case MsgStopAndCall => StopAndCallTracks(s, Top(s.heap), Bag(s.heap));
    case MsgPopNext => PopNextTracks(s);
    case MsgReadClient => ReadClientTracks(s, Bag(s.heap));
    case _ => PlainStepTracks(s, a, Bag(s.heap));
  }

  lemma {:induction false} RunTracks(s: State, run: seq<Action>, s': State)
    requires Inv(s) && Tracked(s, Bag(s.heap)) && Reaches(s, run, s')
    ensures Tracked(s', Bag(s'.heap))
    decreases run
  {
    if run != [] {
      StepKeeps(s, run[0]);
      StepTracks(s, run[0]);
      RunTracks(Do(s, run[0]), run[1..], s');
    }
  }

  lemma RunTracksFromInitial(s: State, run: seq<Action>, s': State)
    requires Initial(s) && Reaches(s, run, s')
    ensures Tracked(s', Bag(s'.heap))
  {
    InitialHolds(s);
    RunTracks(s, run, s');
  }

  lemma ReachableTracks(s: State)
    requires Reachable(s)
    ensures Tracked(s, Bag(s.heap))
  {
    var now, run :| Reaches(Init(now), run, s);
    RunTracksFromInitial(Init(now), run, s);
  }

  /** What is left for the service to do if nobody starts or stops a timer and no time passes: each
      service step does at least one unit of it. */
  ghost function Work(s: State): nat {
    13 * |Bag(s.heap)| + QueueWork(s.queue) + PollWork(s.poll) + PhaseWork(s.msg, s.started, s.now)
    + if s.poll != Woken && s.armed.Some? then WakeWork(s.armed.value, s.now) else 0
  }

  function MsgWork(m: Msg): nat {
    match m case MsgPush(_) => 23 case MsgRemove(_) => 10 case MsgExpire => 3
  }

  function QueueWork(queue: seq<Msg>): nat {
    if queue == [] then 0 else MsgWork(queue[0]) + QueueWork(queue[1..])
  }

  function PollWork(poll: PollPc): nat {
    match poll case Waiting => 0 case Woken => 6 case Disarmed => 5 case Unpolled => 4
  }

  /** A kernel timer that is due wakes the poll thread, which sends one message. */
  function WakeWork(due: nat, now: nat): nat {
    if due <= now then 7 else 0
  }

  /** An Expire message that took an earlier time may leave a timer that has become due since. */
  function PhaseWork(msg: MsgPc, started: seq<StartRecord>, now: nat): nat {
    match msg
    case Idle => 0
    case AddingPoll(d) => 2 + if d < |started| then WakeWork(started[d].due, now) else 0
    case RemovingPoll => 2
    case SettingTime(None) => 1
    case SettingTime(Some(due)) => 1 + WakeWork(due, now)
    case Popped(_, t, _) => 15 + if t < now then 7 else 0
    case ClientRead(_, _, t, _) => 14 + if t < now then 7 else 0
    case Looping(_, t, _) => 3 + if t < now then 7 else 0
  }

  lemma {:induction false} QueueWorkAppend(queue: seq<Msg>, m: Msg)
    ensures QueueWork(queue + [m]) == QueueWork(queue) + MsgWork(m)
  {
    if queue == [] {
      assert queue + [m] == [m];
    } else {
      assert (queue + [m])[1..] == queue[1..] + [m];
      QueueWorkAppend(queue[1..], m);
    }
  }

  lemma {:induction false} QueueWorkBound(queue: seq<Msg>)
    ensures QueueWork(queue) <= 23 * |queue|
  {
    if queue != [] { QueueWorkBound(queue[1..]); }
  }

  lemma UpdateWork(top: Option<Rankable>, prior: Option<Rankable>, started: seq<StartRecord>, now: nat)
    ensures PhaseWork(UpdateSoonest(top, prior), started, now) <= 9
  {}

  /** Handling a message does its work, which pays for what it adds. */
  lemma HandledWorks(s: State, t: Tree, live: map<nat, Delegate>, msg: MsgPc)
    requires s.queue != [] && s.msg == Idle
    ensures Work(Handled(s, t, live, msg)) + MsgWork(s.queue[0]) + 13 * |Bag(s.heap)|
         == Work(s) + PhaseWork(msg, s.started, s.now) + 13 * |Bag(t)|
  {}

  lemma HandlePushWorks(s: State, d: nat)
    requires Inv(s) && s.msg == Idle && s.queue != [] && s.queue[0] == MsgPush(d)
    ensures Work(Handle(s)) < Work(s)
  {
    DequeueKeepsMessages(s.outcome, s.handled, s.queue);
    var t := Push(s.heap, Item(s, d));
    PushTop(s.heap, Item(s, d));
    HandleIsPush(s, d);
    UpdateWork(Top(t), Top(s.heap), s.started, s.now);
    HandledWorks(s, t, s.delegates, UpdateSoonest(Top(t), Top(s.heap)));
  }

  lemma RemoveIsSmaller(t: Tree, x: Rankable)
    requires CheckTree(t)
    ensures |Bag(AfterRemove(t, x))| <= |Bag(t)|
  {
    RemoveTop(t, x);
  }

  lemma HandleRemoveWorks(s: State, d: nat)
    requires Inv(s) && s.msg == Idle && s.queue != [] && s.queue[0] == MsgRemove(d)
    ensures Work(Handle(s)) < Work(s)
  {
    DequeueKeepsMessages(s.outcome, s.handled, s.queue);
    var t := AfterRemove(s.heap, Item(s, d));
    RemoveTop(s.heap, Item(s, d));
    RemoveIsSmaller(s.heap, Item(s, d));
    HandledPushedDelegate(s, d);
    HandleIsRemove(s, d);
    UpdateWork(Top(t), PriorOfRemove(s, d), s.started, s.now);
    HandledWorks(s, t, s.delegates - {d}, UpdateSoonest(Top(t), PriorOfRemove(s, d)));
  }

  lemma PopIsSmaller(t: Tree)
    requires t.Node? && CheckTree(t)
    ensures |Bag(Pop(t))| == |Bag(t)| - 1
  {
    PopRefinesBag(t);
  }

  lemma HandleExpireWorks(s: State)
    requires CheckTree(s.heap) && s.msg == Idle && s.queue != [] && s.queue[0] == MsgExpire
    ensures Work(Handle(s)) < Work(s)
  {
    if s.heap.Node? {
      PopIsSmaller(s.heap);
      HandledWorks(s, Pop(s.heap), s.delegates, Popped(s.heap.data.id, s.now, TopDue(s.heap, s.now)));
    } else {
      HandledWorks(s, s.heap, s.delegates, Idle);
    }
  }

  /** A loop that ends arms the kernel for a later time than its own. */
  lemma PopNextWorks(s: State)
    requires Inv(s) && s.msg.Looping?
    ensures Work(Do(s, MsgPopNext)) < Work(s)
  {
    if TopDue(s.heap, s.msg.now) {
      PopIsSmaller(s.heap);
      PopWorks(s);
    } else {
      TopInBag(s.heap);
      LoopEndWorks(s.msg, Top(s.heap), s.started, s.now);
      PhaseOnly(s, s.(msg := UpdateSoonest(Top(s.heap), None)));
    }
  }

  lemma PopWorks(s: State)
    requires s.msg.Looping? && s.heap.Node? && |Bag(Pop(s.heap))| == |Bag(s.heap)| - 1
    ensures Work(PopInto(s, s.msg.now, s.msg.topDue)) < Work(s)
  {}

  /** A step that changes only what the message thread is doing. */
  lemma PhaseOnly(s: State, s': State)
    requires s' == s.(msg := s'.msg, polled := s'.polled)
    requires PhaseWork(s'.msg, s.started, s.now) < PhaseWork(s.msg, s.started, s.now)
    ensures Work(s') < Work(s)
  {}

  lemma LoopEndWorks(msg: MsgPc, top: Option<Rankable>, started: seq<StartRecord>, now: nat)
    requires msg.Looping?
    requires top.Some? ==> top.value.id < |started| && Sec(started[top.value.id].due) > Sec(msg.now)
    ensures PhaseWork(UpdateSoonest(top, None), started, now) < PhaseWork(msg, started, now)
  {
    if top.Some? { SecondsApart(started[top.value.id].due, msg.now); }
  }

  lemma StopAndCallWorks(s: State)
    requires Inv(s) && s.msg.ClientRead?
    ensures Work(StopAndCall(s)) < Work(s)
  {
    var s' := s.(msg := Looping(s.msg.d, s.msg.now, s.msg.topDue));
    if s.msg.client.Some? && s.msg.client.value in s.mTimer {
      var d := s.mTimer[s.msg.client.value];
      assert Core(s', Top(s.heap), Bag(s.heap));
      StopIs(s', s.msg.client.value, CalledBack, Top(s.heap), Bag(s.heap));
      CallWorks(s, StopAndCall(s), MsgRemove(d));
    } else {
      PhaseOnly(s, s');
    }
  }

  lemma CallWorks(s: State, s': State, m: Msg)
    requires s.msg.ClientRead? && s'.msg == Looping(s.msg.d, s.msg.now, s.msg.topDue) && m.MsgRemove?
    requires s'.queue == s.queue + [m] && s'.heap == s.heap && s'.poll == s.poll && s'.armed == s.armed
    requires s'.now == s.now && s'.started == s.started
    ensures Work(s') < Work(s)
  {
    QueueWorkAppend(s.queue, m);
  }

  predicate ServiceStep(a: Action) {
    !a.Tick? && !a.Start? && !a.Stop?
  }

  lemma PollStepWorks(s: State, a: Action)
    requires Enabled(s, a) && (a == PollWake || a == PollDisarm || a == PollUnpoll || a == PollSend)
    ensures Work(Do(s, a)) < Work(s)
  {
    QueueWorkAppend(s.queue, MsgExpire);
  }

  lemma KernelStepWorks(s: State, a: Action)
    requires Enabled(s, a) && !Do(s, a).fault && (a == MsgReadClient || a == MsgAddPoll || a == MsgRemovePoll)
    ensures Work(Do(s, a)) < Work(s)
  {
    PhaseOnly(s, Do(s, a));
  }

  lemma SetTimeWorks(s: State)
    requires Enabled(s, MsgSetTime)
    ensures Work(Do(s, MsgSetTime)) < Work(s)
  {}

  lemma ServiceWorks(s: State, a: Action)
    requires Inv(s) && Enabled(s, a) && ServiceStep(a)
    ensures Work(Do(s, a)) < Work(s)
  {
    match a
    case MsgHandle => {
      match s.queue[0]
      case MsgPush(d) => HandlePushWorks(s, d);
      case MsgRemove(d) => HandleRemoveWorks(s, d);
      case MsgExpire => HandleExpireWorks(s);
    }
    case MsgStopAndCall => StopAndCallWorks(s);
    case MsgPopNext => PopNextWorks(s);
    case MsgSetTime => SetTimeWorks(s);
    case PollWake => PollStepWorks(s, a);
    case PollDisarm => PollStepWorks(s, a);
    case PollUnpoll => PollStepWorks(s, a);
    case PollSend => PollStepWorks(s, a);
    case _ => {
      StepKeeps(s, a);
      KernelStepWorks(s, a);
    }
  }

  lemma HandleKeepsClock(s: State)
    requires s.queue != []
    ensures Handle(s).started == s.started && Handle(s).now == s.now
  {}

  lemma ServiceKeepsClock(s: State, a: Action)
    requires Enabled(s, a) && ServiceStep(a)
    ensures Do(s, a).started == s.started && Do(s, a).now == s.now
  {
    if a == MsgHandle { HandleKeepsClock(s); }
  }

  lemma {:induction false} ServiceRunIsShort(s: State, run: seq<Action>, s': State)
    requires Inv(s) && Reaches(s, run, s') && forall a :: a in run ==> ServiceStep(a)
    ensures Inv(s') && |run| + Work(s') <= Work(s)
    ensures s'.started == s.started && s'.now == s.now
    decreases run
  {
    if run != [] {
      assert run[0] in run;
      StepKeeps(s, run[0]);
      ServiceWorks(s, run[0]);
      ServiceKeepsClock(s, run[0]);
      assert forall a :: a in run[1..] ==> a in run;
      ServiceRunIsShort(Do(s, run[0]), run[1..], s');
    }
  }

  ghost predicate AtRest(s: State) {
    forall a :: ServiceStep(a) ==> !Enabled(s, a)
  }

  lemma RestingThreads(s: State)
    requires AtRest(s) && !s.fault
    ensures s.msg == Idle && s.queue == [] && s.poll == Waiting
    ensures s.polled && s.armed.Some? ==> s.armed.value > s.now
  {
    assert ServiceStep(MsgReadClient) && ServiceStep(MsgStopAndCall) && ServiceStep(MsgPopNext);
    assert ServiceStep(MsgAddPoll) && ServiceStep(MsgRemovePoll) && ServiceStep(MsgSetTime) && ServiceStep(MsgHandle);
    assert ServiceStep(PollDisarm) && ServiceStep(PollUnpoll) && ServiceStep(PollSend) && ServiceStep(PollWake);
  }

  /** At rest both threads wait, and the kernel is armed for a later time. */
  lemma RestIs(s: State)
    requires Inv(s) && AtRest(s)
    ensures s.msg == Idle && s.queue == [] && s.poll == Waiting
    ensures s.heap.Node? ==> s.heap.data.id < |s.started| && s.started[s.heap.data.id].due > s.now
  {
    RestingThreads(s);
    TopInBag(s.heap);
  }

  lemma RestingHeap(s: State, bag: multiset<Rankable>, d: nat)
    requires AllTracked(s.outcome, s.started, [], Idle, bag) && d < |s.outcome| && s.outcome[d] == Running
    ensures ItemOf(s.started, d) in bag
  {}

  lemma RestingTimer(s: State, d: nat)
    requires Inv(s) && Tracked(s, Bag(s.heap)) && AtRest(s) && d < |s.outcome| && s.outcome[d] == Running
    ensures s.now < s.started[d].due + SECOND
  {
    RestIs(s);
    RestingHeap(s, Bag(s.heap), d);
    TopIsSoonest(s.heap);
    TopInBag(s.heap);
    SecondsApart(s.started[s.heap.data.id].due, s.started[d].due);
  }

  lemma WorkBound(s: State)
    ensures Work(s) <= 13 * |Bag(s.heap)| + 23 * |s.queue| + 35
  {
    QueueWorkBound(s.queue);
  }

  /** However the service steps interleave, at most `Work(s)` of them can follow one another before
      the service rests, and when it rests no timer that is a second or more overdue still runs: it
      has been called back or stopped. */
  lemma DueTimersAreServed(s: State, run: seq<Action>, s': State)
    requires Reachable(s) && Reaches(s, run, s') && forall a :: a in run ==> ServiceStep(a)
    ensures |run| <= Work(s) <= 13 * |Bag(s.heap)| + 23 * |s.queue| + 35
    ensures s'.now == s.now && s'.started == s.started && |s'.outcome| == |s'.started|
    ensures AtRest(s') ==> forall d :: 0 <= d < |s'.outcome| && s'.started[d].due + SECOND <= s.now ==>
                             s'.outcome[d] != Running
  {
    ReachableKeeps(s);
    ReachableTracks(s);
    ServiceRunIsShort(s, run, s');
    RunTracks(s, run, s');
    WorkBound(s);
    if AtRest(s') { RestingTimers(s'); }
  }

  lemma RestingTimers(s: State)
    requires Inv(s) && Tracked(s, Bag(s.heap)) && AtRest(s)
    ensures forall d :: 0 <= d < |s.outcome| && s.started[d].due + SECOND <= s.now ==> s.outcome[d] != Running
  {
    forall d | 0 <= d < |s.outcome| && s.outcome[d] == Running ensures s.now < s.started[d].due + SECOND {
      RestingTimer(s, d);
    }
  }

  // ---------------------------------------------------------------- two runs with an early callback

  lemma {:induction false} ReachesOneMore(s: State, run: seq<Action>, t: State, a: Action)
    requires Reaches(s, run, t) && Enabled(t, a)
    ensures Reaches(s, run + [a], Do(t, a))
    decreases run
  {
    if run == [] {
      assert run + [a] == [a];
      assert Reaches(Do(s, a), [], Do(t, a));
    } else {
      assert (run + [a])[0] == run[0] && (run + [a])[1..] == run[1..] + [a];
      ReachesOneMore(Do(s, run[0]), run[1..], t, a);
    }
  }

  lemma Take(s: State, a: Action) returns (t: State)
    requires Reachable(s) && Enabled(s, a)
    ensures Reachable(t) && t == Do(s, a)
  {
    var now, run :| Reaches(Init(now), run, s);
    ReachesOneMore(Init(now), run, s, a);
    t := Do(s, a);
  }

  /** A timer of client 0, due in one second, is in the heap and about to be armed. */
  function Pushed(): State {
    State(0, map[0 := 0], [StartRecord(0, 0, SECOND)], [Running], map[0 := Delegate(Some(0), true)],
          multiset{MsgPush(0)}, [], Node(Empty, Empty, 1, Rankable(0, -1)), None, false, Waiting, AddingPoll(0), [],
          false)
  }

  lemma PushedHappens()
    ensures Reachable(Pushed())
  {
    assert Reaches(Init(0), [], Init(0));
    var s := Init(0);
    s := Take(s, Start(0, 1_000));
    FirstPush(s);
    s := Take(s, MsgHandle);
  }

  lemma FirstPush(s: State)
    requires s == DoStart(Init(0), 0, 1_000)
    ensures Enabled(s, MsgHandle) && Handle(s) == Pushed()
  {}

  /** It has fired in the kernel. */
  function KernelFired(): State {
    Pushed().(now := SECOND, armed := Some(SECOND), polled := true, poll := Woken, msg := Idle)
  }

  lemma KernelFiredHappens()
    ensures Reachable(KernelFired())
  {
    PushedHappens();
    var s := Pushed();
    s := Take(s, MsgAddPoll);
    s := Take(s, MsgSetTime);
    s := Take(s, Tick(SECOND));
    s := Take(s, PollWake);
    assert s == KernelFired();
  }

  /** Its client has stopped it and started it again, for a hundred seconds. */
  function Restarted(): State {
    KernelFired().(mTimer := map[0 := 1], started := [StartRecord(0, 0, SECOND), StartRecord(0, SECOND, 101 * SECOND)],
                   outcome := [Stopped, Running],
                   delegates := map[0 := Delegate(None, false), 1 := Delegate(Some(0), true)],
                   queue := [MsgRemove(0), MsgPush(1)])
  }

  lemma RestartedHappens()
    ensures Reachable(Restarted())
  {
    KernelFiredHappens();
    var s := KernelFired();
    s := Take(s, Stop(0));
    s := Take(s, Start(0, 100_000));
    assert s == Restarted();
  }

  /** The poll thread has sent its wake-up behind the messages of the client. */
  function WakeupSent(): State {
    Restarted().(armed := None, polled := false, poll := Waiting, queue := [MsgRemove(0), MsgPush(1), MsgExpire])
  }

  lemma WakeupSentHappens()
    ensures Reachable(WakeupSent())
  {
    RestartedHappens();
    var s := Restarted();
    s := Take(s, PollDisarm);
    s := Take(s, PollUnpoll);
    s := Take(s, PollSend);
    assert s == WakeupSent();
  }

  /** The old timer is gone, ahead of the push of the new one. */
  function OldGone(): State {
    WakeupSent().(delegates := map[1 := Delegate(Some(0), true)], handled := multiset{MsgPush(0), MsgRemove(0)},
                  queue := [MsgPush(1), MsgExpire], heap := Empty)
  }

  lemma OldGoneHappens()
    ensures Reachable(OldGone())
  {
    WakeupSentHappens();
    RemoveOld();
    var s := Take(WakeupSent(), MsgHandle);
  }

  lemma RemoveOld()
    ensures Enabled(WakeupSent(), MsgHandle) && Handle(WakeupSent()) == OldGone()
  {}

  /** The old timer is gone and the new one is alone in the heap, ahead of the wake-up. */
  function StaleWakeup(): State {
    WakeupSent().(delegates := map[1 := Delegate(Some(0), true)],
                  handled := multiset{MsgPush(0), MsgRemove(0), MsgPush(1)}, queue := [MsgExpire],
                  heap := Node(Empty, Empty, 1, Rankable(1, -101)), msg := AddingPoll(1))
  }

  lemma StaleWakeupHappens()
    ensures Reachable(StaleWakeup())
  {
    OldGoneHappens();
    PushNew();
    var s := Take(OldGone(), MsgHandle);
  }

  lemma PushNew()
    ensures Enabled(OldGone(), MsgHandle) && Handle(OldGone()) == StaleWakeup()
  {}

  /** The wake-up has popped the new timer. */
  function StalePop(): State {
    StaleWakeup().(handled := multiset{MsgPush(0), MsgRemove(0), MsgPush(1), MsgExpire}, queue := [],
                   heap := Empty, polled := true, armed := Some(101 * SECOND), msg := Popped(1, SECOND, false))
  }

  lemma StalePopHappens()
    ensures Reachable(StalePop())
  {
    StaleWakeupHappens();
    var s := StaleWakeup();
    s := Take(s, MsgAddPoll);
    s := Take(s, MsgSetTime);
    PopNew(s);
    s := Take(s, MsgHandle);
  }

  lemma PopNew(s: State)
    requires s == StaleWakeup().(polled := true, armed := Some(101 * SECOND), msg := Idle)
    ensures Enabled(s, MsgHandle) && Handle(s) == StalePop()
  {}

  /** The latest callback was of a timer that is not due even now. */
  ghost predicate LastFiredEarly(s: State) {
    && s.fired != []
    && var f := s.fired[|s.fired| - 1];
       f.d < |s.started| && s.started[f.d].due > s.now
  }

  /** The kernel's wake-up for a stopped timer makes the message thread pop the next one. */
  lemma StaleWakeupFiresEarly()
    ensures exists s :: Reachable(s) && LastFiredEarly(s) && s.fired == [Firing(1, 1, SECOND, false)]
  {
    StalePopHappens();
    var s := StalePop();
    s := Take(s, MsgReadClient);
    CallStale(s);
    s := Take(s, MsgStopAndCall);
  }

  lemma CallStale(s: State)
    requires s == StalePop().(msg := ClientRead(1, Some(0), SECOND, false))
    ensures Enabled(s, MsgStopAndCall)
    ensures LastFiredEarly(StopAndCall(s)) && StopAndCall(s).fired == [Firing(1, 1, SECOND, false)]
  {}

  /** Without a restart, the wake-up has been sent. */
  function PlainWakeup(): State {
    KernelFired().(armed := None, polled := false, poll := Waiting, queue := [MsgExpire])
  }

  lemma PlainWakeupHappens()
    ensures Reachable(PlainWakeup())
  {
    KernelFiredHappens();
    var s := KernelFired();
    s := Take(s, PollDisarm);
    s := Take(s, PollUnpoll);
    s := Take(s, PollSend);
    assert s == PlainWakeup();
  }

  /** The message thread has read the client of the popped timer. */
  function Caught(): State {
    PlainWakeup().(handled := multiset{MsgPush(0), MsgExpire}, queue := [], heap := Empty,
                   msg := ClientRead(0, Some(0), SECOND, true))
  }

  lemma CaughtHappens()
    ensures Reachable(Caught())
  {
    PlainWakeupHappens();
    var s := PlainWakeup();
    s := Take(s, MsgHandle);
    s := Take(s, MsgReadClient);
    assert s == Caught();
  }

  /** A client that stops and restarts its timer between the message thread's two reads of it
      has the new timer called back instead. */
  lemma RestartFiresEarly()
    ensures exists s :: Reachable(s) && LastFiredEarly(s) && s.fired == [Firing(1, 0, SECOND, true)]
  {
    CaughtHappens();
    var s := Caught();
    s := Take(s, Stop(0));
    s := Take(s, Start(0, 100_000));
    CallNew(s);
    s := Take(s, MsgStopAndCall);
  }

  lemma CallNew(s: State)
    requires s == DoStart(DoStop(Caught(), 0, Stopped), 0, 100_000)
    ensures Enabled(s, MsgStopAndCall)
    ensures LastFiredEarly(StopAndCall(s)) && StopAndCall(s).fired == [Firing(1, 0, SECOND, true)]
  {}
}
