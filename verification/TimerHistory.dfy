/** What the runs of the timer service come to, told by the actions taken: which starts and stops take
    effect, which client holds a timer, and where Expire messages come from. */
module TimerHistory {
  import opened Common
  import opened HeapTree
  import opened TimerService

  // ---------------------------------------------------------------- requests without effect

  /** A start by a client that holds a timer and a stop by one that holds none do nothing at all, and no
      other request does nothing. */
  lemma IdleRequestsIff(s: State, a: Action)
    requires Reachable(s) && (a.Start? || a.Stop?)
    ensures Enabled(s, a)
    ensures Do(s, a) == s <==> (a.Start? <==> a.c in s.mTimer)
  {
    ReachableKeeps(s);
    if a.Start? && a.c !in s.mTimer { StartIs(s, a.c, a.ms); }
    if a.Stop? && a.c in s.mTimer { StopIs(s, a.c, Stopped, Top(s.heap), Bag(s.heap)); }
  }

  // ---------------------------------------------------------------- who holds a timer

  /** The step calls client `c` back. */
  predicate CallsBack(s: State, a: Action, c: nat)
    requires Enabled(s, a)
  {
    var fired := Do(s, a).fired;
    |fired| > |s.fired| && fired[|s.fired|].d < |s.started| && s.started[fired[|s.fired|].d].owner == c
  }

  /** `c` holds a timer after the run if it was the last to start one, with no stop of its own and no
      callback since. */
  predicate Holds(s: State, run: seq<Action>, c: nat, held: bool)
    requires Runs(s, run)
    decreases run
  {
    if run == [] then held
    else
      var a := run[0];
      var now := if a.Start? && a.c == c then true
                 else if (a.Stop? && a.c == c) || CallsBack(s, a, c) then false
                 else held;
      Holds(Do(s, a), run[1..], c, now)
  }

  /** The run can be taken. */
  predicate Runs(s: State, run: seq<Action>)
    decreases run
  {
    run == [] || (Enabled(s, run[0]) && Runs(Do(s, run[0]), run[1..]))
  }

  lemma {:induction false} ReachedRuns(s: State, run: seq<Action>, s': State)
    requires Reaches(s, run, s')
    ensures Runs(s, run)
    decreases run
  {
    if run != [] { ReachedRuns(Do(s, run[0]), run[1..], s'); }
  }

  lemma HeldLives(s: State, c: nat)
    requires Inv(s) && c in s.mTimer
    ensures s.mTimer[c] in s.delegates && s.mTimer[c] < |s.outcome| == |s.started|
    ensures s.started[s.mTimer[c]].owner == c
  {
    StopIs(s, c, Stopped, Top(s.heap), Bag(s.heap));
  }

  lemma StopDrops(s: State, c: nat, o: Outcome)
    requires c in s.mTimer && s.mTimer[c] in s.delegates && s.mTimer[c] < |s.outcome|
    ensures DoStop(s, c, o).mTimer == s.mTimer - {c} && DoStop(s, c, o).fired == s.fired
  {}

  /** Whom this step calls back, if anybody. */
  function CalledNow(s: State): Option<nat>
    requires s.msg.ClientRead?
  {
    if s.msg.client.Some? && s.msg.client.value in s.mTimer then s.msg.client else None
  }

  lemma StopAndCallDrops(s: State)
    requires Inv(s) && s.msg.ClientRead?
    ensures StopAndCall(s).mTimer == if CalledNow(s).Some? then s.mTimer - {CalledNow(s).value} else s.mTimer
  {
    if CalledNow(s).Some? {
      HeldLives(s, CalledNow(s).value);
      StopDrops(s.(msg := Looping(s.msg.d, s.msg.now, s.msg.topDue)), CalledNow(s).value, CalledBack);
    }
  }

  lemma StopAndCallCalls(s: State, c: nat)
    requires Inv(s) && s.msg.ClientRead?
    ensures !s.fault && (CallsBack(s, MsgStopAndCall, c) <==> CalledNow(s) == Some(c))
  {
    StopAndCallFires(s);
    if CalledNow(s).Some? { HeldLives(s, CalledNow(s).value); }
  }

  lemma RequestsCallNobody(s: State, a: Action, c: nat)
    requires Inv(s) && (a.Start? || a.Stop?)
    ensures Enabled(s, a) && !CallsBack(s, a, c)
    ensures Do(s, a).mTimer.Keys == if a.Start? then s.mTimer.Keys + {a.c} else s.mTimer.Keys - {a.c}
  {
    if a.Stop? && a.c in s.mTimer {
      HeldLives(s, a.c);
      StopDrops(s, a.c, Stopped);
    }
  }

  /** A step of the service that calls nobody. */
  predicate Quiet(a: Action) {
    !a.Start? && !a.Stop? && a != MsgStopAndCall
  }

  lemma QuietKeepsHeld(s: State, a: Action)
    requires Enabled(s, a) && Quiet(a)
    ensures Do(s, a).mTimer == s.mTimer && Do(s, a).fired == s.fired && Do(s, a).started == s.started
  {
    if a == MsgHandle { HandleKeepsHeld(s); }
  }

  lemma HandleKeepsHeld(s: State)
    requires s.queue != []
    ensures Handle(s).mTimer == s.mTimer && Handle(s).fired == s.fired && Handle(s).started == s.started
  {}

  lemma StepHolds(s: State, a: Action, c: nat)
    requires Inv(s) && Enabled(s, a)
    ensures c in Do(s, a).mTimer <==>
            if a.Start? && a.c == c then true
            else if (a.Stop? && a.c == c) || CallsBack(s, a, c) then false
            else c in s.mTimer
  {
    if a == MsgStopAndCall {
      StopAndCallDrops(s);
      StopAndCallCalls(s, c);
    } else if Quiet(a) {
      QuietKeepsHeld(s, a);
    } else {
      RequestsCallNobody(s, a, c);
      assert c in Do(s, a).mTimer <==> c in Do(s, a).mTimer.Keys;
    }
  }

  /** In every run a client holds a timer exactly if its last request was a start and it has not been
      called back since. */
  lemma {:induction false} HeldIffRequested(s: State, run: seq<Action>, s': State, c: nat)
    requires Inv(s) && Reaches(s, run, s')
    ensures Runs(s, run) && (c in s'.mTimer <==> Holds(s, run, c, c in s.mTimer))
    decreases run
  {
    ReachedRuns(s, run, s');
    if run != [] {
      StepKeeps(s, run[0]);
      StepHolds(s, run[0], c);
      HeldIffRequested(Do(s, run[0]), run[1..], s', c);
    }
  }

  /** The starts of the run that take effect: those by clients that hold no timer, due as many
      milliseconds later as they say. */
  function StartsOf(s: State, run: seq<Action>): seq<StartRecord>
    requires Runs(s, run)
    decreases run
  {
    if run == [] then []
    else
      var a := run[0];
      (if a.Start? && a.c !in s.mTimer then [StartRecord(a.c, s.now, s.now + a.ms * 1_000_000)] else [])
      + StartsOf(Do(s, a), run[1..])
  }

  lemma StepStarts(s: State, a: Action)
    requires Enabled(s, a)
    ensures Do(s, a).started ==
            s.started + if a.Start? && a.c !in s.mTimer then [StartRecord(a.c, s.now, s.now + a.ms * 1_000_000)] else []
  {
    if a == MsgStopAndCall || a.Stop? {
      StepKeepsStarted(s, a);
    } else if Quiet(a) {
      QuietKeepsHeld(s, a);
    }
  }

  lemma StepKeepsStarted(s: State, a: Action)
    requires Enabled(s, a) && (a == MsgStopAndCall || a.Stop?)
    ensures Do(s, a).started == s.started
  {}

  /** In every run exactly those starts are recorded, in their order. */
  lemma {:induction false} StartedIffRequested(s: State, run: seq<Action>, s': State)
    requires Reaches(s, run, s')
    ensures Runs(s, run) && s'.started == s.started + StartsOf(s, run)
    decreases run
  {
    ReachedRuns(s, run, s');
    if run != [] {
      StepStarts(s, run[0]);
      StartedIffRequested(Do(s, run[0]), run[1..], s');
    }
  }

  // ---------------------------------------------------------------- where Expire messages come from

  /** The Expire messages sent so far, handled or not. */
  function Expires(s: State): nat {
    (s.handled + multiset(s.queue))[MsgExpire]
  }

  function Awake(s: State): nat {
    if s.poll == Waiting then 0 else 1
  }

  lemma SentOne(handled: multiset<Msg>, queue: seq<Msg>, m: Msg)
    ensures (handled + multiset(queue + [m]))[MsgExpire] ==
            (handled + multiset(queue))[MsgExpire] + if m == MsgExpire then 1 else 0
  {
    assert multiset(queue + [m]) == multiset(queue) + multiset{m};
  }

  lemma HandledOne(handled: multiset<Msg>, queue: seq<Msg>)
    requires queue != []
    ensures (handled + multiset{queue[0]}) + multiset(queue[1..]) == handled + multiset(queue)
  {
    assert queue == [queue[0]] + queue[1..];
  }

  lemma HandleSends(s: State)
    requires s.queue != []
    ensures Expires(Handle(s)) == Expires(s) && Handle(s).poll == s.poll
  {
    HandledOne(s.handled, s.queue);
    HandleDequeues(s);
  }

  lemma HandleDequeues(s: State)
    requires s.queue != []
    ensures Handle(s).handled == s.handled + multiset{s.queue[0]} && Handle(s).queue == s.queue[1..]
    ensures Handle(s).poll == s.poll
  {}

  lemma StopSends(s: State, c: nat, o: Outcome)
    requires c in s.mTimer
    ensures Expires(DoStop(s, c, o)) == Expires(s) && DoStop(s, c, o).poll == s.poll
  {
    SentOne(s.handled, s.queue, MsgRemove(s.mTimer[c]));
  }

  lemma StopAndCallSends(s: State)
    requires s.msg.ClientRead?
    ensures Expires(StopAndCall(s)) == Expires(s) && StopAndCall(s).poll == s.poll
  {
    if CalledNow(s).Some? {
      StopSends(s.(msg := Looping(s.msg.d, s.msg.now, s.msg.topDue)), CalledNow(s).value, CalledBack);
    }
  }

  lemma StepSends(s: State, a: Action)
    requires Enabled(s, a)
    ensures Expires(Do(s, a)) == Expires(s) + if a == PollSend then 1 else 0
    ensures Awake(Do(s, a)) + (if a == PollSend then 1 else 0) == Awake(s) + if a == PollWake then 1 else 0
  {
    if a.Start? {
      SentOne(s.handled, s.queue, MsgPush(|s.started|));
    } else if a.Stop? {
      if a.c in s.mTimer { StopSends(s, a.c, Stopped); }
    } else if a == MsgStopAndCall {
      StopAndCallSends(s);
    } else if a == MsgHandle {
      HandleSends(s);
    } else if a == PollSend {
      SentOne(s.handled, s.queue, MsgExpire);
    }
  }

  /** Each Expire message was sent by one send of the poll thread, and each of those follows a wake-up. */
  lemma {:induction false} ExpiresAreSent(s: State, run: seq<Action>, s': State)
    requires Reaches(s, run, s')
    ensures Expires(s') == Expires(s) + multiset(run)[PollSend]
    ensures Awake(s') + multiset(run)[PollSend] == Awake(s) + multiset(run)[PollWake]
    decreases run
  {
    if run != [] {
      assert run == [run[0]] + run[1..];
      StepSends(s, run[0]);
      ExpiresAreSent(Do(s, run[0]), run[1..], s');
    }
  }

  /** The time is that of a timer that was started. */
  ghost predicate TimeOfTimer(time: Option<nat>, started: seq<StartRecord>) {
    time.Some? ==> exists d :: 0 <= d < |started| && started[d].due == time.value
  }

  /** The kernel is armed, or about to be, for the time of a started timer. */
  ghost predicate ArmedForTimer(s: State) {
    TimeOfTimer(s.armed, s.started) && (s.msg.SettingTime? ==> TimeOfTimer(s.msg.value, s.started))
  }

  lemma TimeStays(time: Option<nat>, started: seq<StartRecord>, more: seq<StartRecord>)
    requires TimeOfTimer(time, started)
    ensures TimeOfTimer(time, started + more)
  {
    if time.Some? {
      var d :| 0 <= d < |started| && started[d].due == time.value;
      assert (started + more)[d] == started[d];
    }
  }

  lemma StepArms(s: State, a: Action)
    requires Enabled(s, a) && ArmedForTimer(s)
    ensures ArmedForTimer(Do(s, a))
  {
    StepStarts(s, a);
    var s' := Do(s, a);
    assert s'.started == s.started + s'.started[|s.started|..];
    TimeStays(s.armed, s.started, s'.started[|s.started|..]);
    if s.msg.SettingTime? { TimeStays(s.msg.value, s.started, s'.started[|s.started|..]); }
    ArmsNext(s, a);
  }

  /** What a step does to the kernel timer and the message thread's time for it. */
  lemma ArmsNext(s: State, a: Action)
    requires Enabled(s, a)
    ensures var s' := Do(s, a);
            && (s'.armed == s.armed || s'.armed == None || (s.msg.SettingTime? && s'.armed == s.msg.value))
            && (s'.msg.SettingTime? ==>
                  || (s.msg.SettingTime? && s'.msg.value == s.msg.value) || s'.msg.value == None
                  || (s.msg.AddingPoll? && s.msg.d < |s.started| && s'.msg.value == Some(s.started[s.msg.d].due)))
  {
    if a == MsgHandle { HandleArmsNothing(s); } else if a.Stop? || a == MsgStopAndCall { StopsArmNothing(s, a); }
  }

  lemma HandleArmsNothing(s: State)
    requires s.queue != [] && s.msg == Idle
    ensures Handle(s).armed == s.armed && !Handle(s).msg.SettingTime?
  {}

  lemma StopsArmNothing(s: State, a: Action)
    requires Enabled(s, a) && (a.Stop? || a == MsgStopAndCall)
    ensures Do(s, a).armed == s.armed && (Do(s, a).msg.SettingTime? ==> Do(s, a).msg == s.msg)
  {}

  /** Along the run the poll thread wakes up only while the kernel timer is polled, armed for a timer
      that was started, and due. */
  ghost predicate WokenWhenDue(s: State, run: seq<Action>)
    requires Runs(s, run)
    decreases run
  {
    run == [] || (
      && (run[0] == PollWake ==>
            s.polled && s.armed.Some? && s.armed.value <= s.now && TimeOfTimer(s.armed, s.started))
      && WokenWhenDue(Do(s, run[0]), run[1..]))
  }

  lemma {:induction false} WakesAreDue(s: State, run: seq<Action>, s': State)
    requires ArmedForTimer(s) && Reaches(s, run, s')
    ensures Runs(s, run) && WokenWhenDue(s, run) && ArmedForTimer(s')
    decreases run
  {
    ReachedRuns(s, run, s');
    if run != [] {
      StepArms(s, run[0]);
      WakesAreDue(Do(s, run[0]), run[1..], s');
    }
  }

  /** Over every run of the service: the Expire messages are as many as the sends of the poll thread,
      those as many as its wake-ups so far, or one less while it is awake, and each wake-up found the
      kernel timer due for a timer that was started. */
  lemma {:induction false} ExpireOnlyWhenDue(now: nat, run: seq<Action>, s: State)
    requires Reaches(Init(now), run, s)
    ensures Runs(Init(now), run) && WokenWhenDue(Init(now), run)
    ensures Expires(s) == multiset(run)[PollSend]
    ensures multiset(run)[PollWake] == multiset(run)[PollSend] + Awake(s)
  {
    ExpiresAreSent(Init(now), run, s);
    WakesAreDue(Init(now), run, s);
  }
}
