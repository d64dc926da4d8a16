/** The lifetime of a thread delegate as a transition system: the parent thread that creates,
    checks, stops and releases it, and the spawned thread that runs the runnable and releases the
    delegate on its way out.  Every field access is a step of its own. */
module ThreadLifetime {

  datatype Party = Parent | Child

  /** The mutex of the delegate. */
  datatype Mutex = Free | Held(owner: Party)

  /** What create() returned. */
  datatype Report = Pending | Success | Failure

  /** destroy(): the unlocked check, the critical section, and the deletion. */
  datatype DestroyPc = DCheck | DLock | DDec | DUnlock(callDelete: bool) | DDelete | DDone

  /** The parent: in the constructor, in create()'s check, holding the delegate, in stop(), in
      destroy(). */
  datatype ParentPc =
    | PCreate | PDetach | PFail | PReport
    | PHold | PClear | PTestJoinable | PJoin
    | PDestroy(d: DestroyPc)

  /** The spawned thread: not there, or in threadMain(). */
  datatype ChildPc =
    | CNone
    | CRead | CTestPrerun | CPrerun | CTestRun | CRun | CTestPostrun | CPostrun | CClear | CDeleteRunnable
    | CDestroy(d: DestroyPc)

  /** The fields of the delegate, the two program counters, the child's local `runnable`, what
      create() returned, and what happened to the delegate and to the runnable. */
  datatype State = State(
    mRunnable: bool,
    mJoinable: bool,
    mRefCount: int,
    mutex: Mutex,
    parent: ParentPc,
    child: ChildPc,
    hasRunnable: bool,
    reported: Report,
    joined: bool,
    frees: nat,
    deletions: nat,
    touchedFreed: bool,
    calledDeleted: bool)

  datatype Action =
    | CreateOk | CreateFail
    | ClientStop | ClientBye
    | ParentStep
    | ChildStep(again: bool)

  function Init(joinable: bool): State {
    State(true, joinable, 2, Free, PCreate, CNone, false, Pending, false, 0, 0, false, false)
  }

  predicate DestroyEnabled(s: State, d: DestroyPc) {
    d != DDone && (d == DLock ==> s.mutex == Free)
  }

  predicate Enabled(s: State, a: Action) {
    match a
    case CreateOk => s.parent == PCreate
    case CreateFail => s.parent == PCreate
    case ClientStop => s.parent == PHold
    case ClientBye => s.parent == PHold
    case ParentStep =>
      && s.parent != PCreate && s.parent != PHold
      && (s.parent == PJoin ==> s.child == CDestroy(DDone))
      && (s.parent.PDestroy? ==> DestroyEnabled(s, s.parent.d))
    case ChildStep(_) =>
      && s.child != CNone
      && (s.child.CDestroy? ==> DestroyEnabled(s, s.child.d))
  }

  /** An access to the delegate. */
  function Touch(s: State): State {
    s.(touchedFreed := s.touchedFreed || s.frees > 0)
  }

  /** A call of one of the runnable's methods. */
  function Call(s: State): State {
    s.(calledDeleted := s.calledDeleted || s.deletions > 0)
  }

  /** One step of destroy(), without the move of the program counter. */
  function DestroyEffect(s: State, who: Party, d: DestroyPc): State {
    match d
    case DCheck => Touch(s)
    case DLock => Touch(s).(mutex := Held(who))
    case DDec => Touch(s).(mRefCount := s.mRefCount - 1)
    case DUnlock(_) => Touch(s).(mutex := Free)
    case DDelete => Touch(s).(frees := s.frees + 1)
    case DDone => s
  }

  function DestroyNext(s: State, d: DestroyPc): DestroyPc {
    match d
    case DCheck => if s.mRefCount > 0 then DLock else DDone
    case DLock => DDec
    case DDec => DUnlock(s.mRefCount == 1)
    case DUnlock(callDelete) => if callDelete then DDelete else DDone
    case DDelete => DDone
    case DDone => DDone
  }

  function ParentNext(s: State): State {
    match s.parent
    case PDetach => Touch(s).(parent := PReport)
    case PFail => Touch(s).(mRunnable := false, mJoinable := false, mRefCount := 1, parent := PReport)
    case PReport =>
      if s.mRunnable then Touch(s).(reported := Success, parent := PHold)
      else Touch(s).(reported := Failure, parent := PDestroy(DCheck))
    case PClear => Touch(s).(mRunnable := false, parent := PTestJoinable)
    case PTestJoinable =>
      if s.mJoinable then Touch(s).(mJoinable := false, parent := PJoin)
      else Touch(s).(parent := PDestroy(DCheck))
    case PJoin => Touch(s).(joined := true, parent := PDestroy(DCheck))
    case PDestroy(d) => DestroyEffect(s, Parent, d).(parent := PDestroy(DestroyNext(s, d)))
    case _ => s
  }

  function ChildNext(s: State, again: bool): State {
    match s.child
    case CNone => s
    case CRead => Touch(s).(hasRunnable := s.mRunnable, child := if s.mRunnable then CTestPrerun else CDestroy(DCheck))
    case CTestPrerun => Touch(s).(child := if s.mRunnable then CPrerun else CTestRun)
    case CPrerun => Call(s).(child := CTestRun)
    case CTestRun => Touch(s).(child := if s.mRunnable then CRun else CTestPostrun)
    case CRun => Call(s).(child := if again then CTestRun else CTestPostrun)
    case CTestPostrun => Touch(s).(child := if s.mRunnable then CPostrun else CClear)
    case CPostrun => Call(s).(child := CClear)
    case CClear => Touch(s).(mRunnable := false, child := CDeleteRunnable)
    case CDeleteRunnable => s.(deletions := s.deletions + 1, child := CDestroy(DCheck))
    case CDestroy(d) => DestroyEffect(s, Child, d).(child := CDestroy(DestroyNext(s, d)))
  }

  function Do(s: State, a: Action): State {
    match a
    case CreateOk => s.(child := CRead, parent := PDetach)
    case CreateFail => s.(parent := PFail)
    case ClientStop => s.(parent := PClear)
    case ClientBye => Touch(s).(parent := if s.mJoinable then PClear else PDestroy(DCheck))
    case ParentStep => ParentNext(s)
    case ChildStep(again) => ChildNext(s, again)
  }

  /** `s'` is reached from `s` by the actions `run`, each enabled when it is taken. */
  predicate Reaches(s: State, run: seq<Action>, s': State)
    decreases run
  {
    if run == [] then s' == s
    else Enabled(s, run[0]) && Reaches(Do(s, run[0]), run[1..], s')
  }

  ghost predicate Reachable(s: State) {
    exists joinable, run :: Reaches(Init(joinable), run, s)
  }

  // ---------------------------------------------------------------- the invariant

  predicate Released(d: DestroyPc) {
    d.DUnlock? || d == DDelete || d == DDone
  }

  /** Is the party still to release the delegate? */
  predicate ParentOwes(s: State) {
    !(s.parent.PDestroy? && Released(s.parent.d))
  }

  predicate ChildOwes(s: State) {
    s.child != CNone && !(s.child.CDestroy? && Released(s.child.d))
  }

  function Owed(s: State): int {
    (if ParentOwes(s) then 1 else 0) + (if ChildOwes(s) then 1 else 0)
  }

  predicate ParentDone(s: State) {
    s.parent == PDestroy(DDone)
  }

  predicate ChildDone(s: State) {
    s.child == CNone || s.child == CDestroy(DDone)
  }

  /** Is the party about to delete the delegate? */
  predicate Deleting(d: DestroyPc) {
    d == DUnlock(true) || d == DDelete
  }

  predicate CountRight(s: State) {
    && (s.parent == PCreate || s.parent == PFail ==> s.mRefCount == 2 && s.child == CNone)
    && (s.parent != PCreate && s.parent != PFail ==> s.mRefCount == Owed(s))
  }

  predicate InSection(d: DestroyPc) {
    d == DDec || d.DUnlock?
  }

  predicate MutexRight(s: State) {
    && (s.mutex == Held(Parent) <==> s.parent.PDestroy? && InSection(s.parent.d))
    && (s.mutex == Held(Child) <==> s.child.CDestroy? && InSection(s.child.d))
  }

  /** The delegate is freed once, by the last to release it, after the other is done with it. */
  predicate FreeRight(s: State) {
    && (s.parent.PDestroy? && Deleting(s.parent.d) ==> s.frees == 0 && ChildDone(s))
    && (s.child.CDestroy? && Deleting(s.child.d) ==> s.frees == 0 && ParentDone(s))
    && (s.frees > 0 ==> s.frees == 1 && ParentDone(s) && ChildDone(s))
    && (ParentDone(s) && ChildDone(s) ==> s.frees == 1)
    && (s.parent == PDestroy(DUnlock(false)) ==> ChildOwes(s))
    && (s.child == CDestroy(DUnlock(false)) ==> ParentOwes(s))
    && !s.touchedFreed
  }

  predicate Running(c: ChildPc) {
    c != CNone && c != CRead && !c.CDestroy?
  }

  /** The runnable is deleted at most once, by the spawned thread, after its last call. */
  predicate RunnableRight(s: State) {
    && (s.child == CNone || s.child == CRead ==> s.deletions == 0 && !s.hasRunnable)
    && (Running(s.child) ==> s.deletions == 0 && s.hasRunnable)
    && (s.child.CDestroy? ==> s.deletions == if s.hasRunnable then 1 else 0)
    && !s.calledDeleted
  }

  /** The parent has not yet returned from create(). */
  predicate Creating(p: ParentPc) {
    p == PCreate || p == PFail || p == PDetach || p == PReport
  }

  predicate Holding(p: ParentPc) {
    p == PHold || p == PClear || p == PTestJoinable || p == PJoin
  }

  /** The spawned thread has cleared the field on its way out. */
  predicate Finishing(s: State) {
    s.child == CDeleteRunnable || (s.child.CDestroy? && s.hasRunnable)
  }

  /** What create() found, or will find: the field is clear only if there is no thread or the
      thread has finished. */
  predicate ReportRight(s: State) {
    && (s.parent == PCreate || s.parent == PFail ==> s.mRunnable && s.child == CNone)
    && (s.parent == PDetach || Holding(s.parent) ==> s.child != CNone)
    && (s.parent == PDetach || s.parent == PReport ==> (s.mRunnable <==> s.child != CNone && !Finishing(s)))
    && (s.parent == PDetach || s.parent == PReport ==> !s.child.CDestroy? || s.hasRunnable)
    && (Creating(s.parent) <==> s.reported == Pending)
    && (Holding(s.parent) ==> s.reported == Success)
    && (s.reported == Success ==> s.child != CNone)
    && (s.reported == Failure ==> s.child == CNone || Finishing(s))
    && (s.joined ==> s.child == CDestroy(DDone))
  }

  predicate AccountsRight(s: State) {
    CountRight(s) && MutexRight(s) && FreeRight(s)
  }

  predicate Inv(s: State) {
    AccountsRight(s) && RunnableRight(s) && ReportRight(s)
  }

  /** Nothing that destroy() works with has changed. */
  predicate SameAccounts(s: State, s': State) {
    && s'.mRefCount == s.mRefCount && s'.mutex == s.mutex && s'.frees == s.frees
    && s'.touchedFreed == s.touchedFreed
  }

  /** The pc is at the entry of destroy(), or before it. */
  predicate ParentBefore(s: State) {
    s.parent != PCreate && s.parent != PFail && (s.parent.PDestroy? ==> s.parent.d == DCheck)
  }

  predicate ChildBefore(s: State) {
    s.child != CNone && (s.child.CDestroy? ==> s.child.d == DCheck)
  }

  lemma ParentAccountsKept(s: State, s': State)
    requires AccountsRight(s) && SameAccounts(s, s') && s'.child == s.child && ParentBefore(s) && ParentBefore(s')
    ensures AccountsRight(s')
  {}

  lemma ChildAccountsKept(s: State, s': State)
    requires AccountsRight(s) && SameAccounts(s, s') && s'.parent == s.parent && ChildBefore(s) && ChildBefore(s')
    ensures AccountsRight(s')
  {}

  lemma ParentUses(s: State)
    requires AccountsRight(s) && Enabled(s, ParentStep) && !s.parent.PDestroy?
    ensures AccountsRight(ParentNext(s))
  {
    if s.parent != PFail {
      assert SameAccounts(s, ParentNext(s));
      ParentAccountsKept(s, ParentNext(s));
    }
  }

  lemma ChildUses(s: State, again: bool)
    requires AccountsRight(s) && s.child != CNone && !s.child.CDestroy?
    ensures AccountsRight(ChildNext(s, again))
  {
    NotFreedYet(s);
    ChildEffects(s, again);
    ChildAccountsKept(s, ChildNext(s, again));
  }

  lemma NotFreedYet(s: State)
    requires AccountsRight(s) && ChildOwes(s)
    ensures s.frees == 0
  {}

  lemma ChildEffects(s: State, again: bool)
    requires s.frees == 0 && s.child != CNone && !s.child.CDestroy?
    ensures var s' := ChildNext(s, again);
            SameAccounts(s, s') && s'.parent == s.parent && ChildBefore(s')
  {}

  lemma ParentReleasesRight(s: State)
    requires AccountsRight(s) && s.parent.PDestroy? && DestroyEnabled(s, s.parent.d)
    ensures AccountsRight(ParentNext(s))
  {
    match s.parent.d
    case DCheck => ParentChecks(s);
    case DLock => ParentLocks(s);
    case DDec => ParentCountsDown(s);
    case DUnlock(callDelete) => ParentUnlocks(s);
    case DDelete => ParentDeletes(s);
  }

  lemma ParentChecks(s: State)
    requires AccountsRight(s) && s.parent == PDestroy(DCheck)
    ensures AccountsRight(ParentNext(s))
  {
    assert s.mRefCount > 0;
  }

  lemma ParentLocks(s: State)
    requires AccountsRight(s) && s.parent == PDestroy(DLock) && s.mutex == Free
    ensures AccountsRight(ParentNext(s))
  {
    assert ParentNext(s) == s.(mutex := Held(Parent), parent := PDestroy(DDec));
  }

  lemma ParentUnlocks(s: State)
    requires AccountsRight(s) && s.parent.PDestroy? && s.parent.d.DUnlock?
    ensures AccountsRight(ParentNext(s))
  {}

  lemma ParentDeletes(s: State)
    requires AccountsRight(s) && s.parent == PDestroy(DDelete)
    ensures AccountsRight(ParentNext(s))
  {
    assert ParentNext(s) == s.(frees := 1, parent := PDestroy(DDone));
  }

  lemma ParentCountsDown(s: State)
    requires AccountsRight(s) && s.parent == PDestroy(DDec)
    ensures AccountsRight(ParentNext(s))
  {
    assert s.mRefCount == Owed(s) && s.frees == 0;
    assert ParentNext(s) ==
      s.(mRefCount := s.mRefCount - 1, parent := PDestroy(DUnlock(s.mRefCount == 1)));
  }

  lemma ChildReleasesRight(s: State, again: bool)
    requires AccountsRight(s) && s.child.CDestroy? && DestroyEnabled(s, s.child.d)
    ensures AccountsRight(ChildNext(s, again))
  {
    match s.child.d
    case DCheck => ChildChecks(s, again);
    case DLock => ChildLocks(s, again);
    case DDec => ChildCountsDown(s, again);
    case DUnlock(callDelete) => ChildUnlocks(s, again);
    case DDelete => ChildDeletes(s, again);
  }

  lemma ChildChecks(s: State, again: bool)
    requires AccountsRight(s) && s.child == CDestroy(DCheck)
    ensures AccountsRight(ChildNext(s, again))
  {
    assert s.mRefCount > 0;
  }

  lemma ChildLocks(s: State, again: bool)
    requires AccountsRight(s) && s.child == CDestroy(DLock) && s.mutex == Free
    ensures AccountsRight(ChildNext(s, again))
  {
    assert ChildNext(s, again) == s.(mutex := Held(Child), child := CDestroy(DDec));
  }

  lemma ChildUnlocks(s: State, again: bool)
    requires AccountsRight(s) && s.child.CDestroy? && s.child.d.DUnlock?
    ensures AccountsRight(ChildNext(s, again))
  {}

  lemma ChildDeletes(s: State, again: bool)
    requires AccountsRight(s) && s.child == CDestroy(DDelete)
    ensures AccountsRight(ChildNext(s, again))
  {
    assert ChildNext(s, again) == s.(frees := 1, child := CDestroy(DDone));
  }

  lemma ChildCountsDown(s: State, again: bool)
    requires AccountsRight(s) && s.child == CDestroy(DDec)
    ensures AccountsRight(ChildNext(s, again))
  {
    assert s.mRefCount == Owed(s) && s.frees == 0;
    assert ChildNext(s, again) ==
      s.(mRefCount := s.mRefCount - 1, child := CDestroy(DUnlock(s.mRefCount == 1)));
  }

  /** destroy() changes nothing of what create() and the runnable are about. */
  predicate SameReport(s: State, s': State) {
    && s'.mRunnable == s.mRunnable && s'.hasRunnable == s.hasRunnable && s'.reported == s.reported
    && s'.joined == s.joined && s'.deletions == s.deletions && s'.calledDeleted == s.calledDeleted
  }

  lemma ParentReports(s: State)
    requires RunnableRight(s) && ReportRight(s) && Enabled(s, ParentStep)
    ensures RunnableRight(ParentNext(s)) && ReportRight(ParentNext(s))
  {
    if s.parent.PDestroy? {
      assert SameReport(s, ParentNext(s));
    } else {
      ParentStops(s);
    }
  }

  lemma ParentStops(s: State)
    requires RunnableRight(s) && ReportRight(s) && Enabled(s, ParentStep) && !s.parent.PDestroy?
    ensures RunnableRight(ParentNext(s)) && ReportRight(ParentNext(s))
  {}

  lemma ChildReports(s: State, again: bool)
    requires RunnableRight(s) && ReportRight(s) && Enabled(s, ChildStep(again))
    ensures RunnableRight(ChildNext(s, again)) && ReportRight(ChildNext(s, again))
  {
    if s.child.CDestroy? {
      assert SameReport(s, ChildNext(s, again));
    } else {
      ChildRuns(s, again);
    }
  }

  lemma ChildRuns(s: State, again: bool)
    requires RunnableRight(s) && ReportRight(s) && Enabled(s, ChildStep(again)) && !s.child.CDestroy?
    ensures RunnableRight(ChildNext(s, again)) && ReportRight(ChildNext(s, again))
  {}

  lemma ParentKeeps(s: State)
    requires Inv(s) && Enabled(s, ParentStep)
    ensures Inv(ParentNext(s))
  {
    if s.parent.PDestroy? { ParentReleasesRight(s); } else { ParentUses(s); }
    ParentReports(s);
  }

  lemma ChildKeeps(s: State, again: bool)
    requires Inv(s) && Enabled(s, ChildStep(again))
    ensures Inv(ChildNext(s, again))
  {
    if s.child.CDestroy? { ChildReleasesRight(s, again); } else { ChildUses(s, again); }
    ChildReports(s, again);
  }

  lemma StepKeeps(s: State, a: Action)
    requires Inv(s) && Enabled(s, a)
    ensures Inv(Do(s, a))
  {
    match a
    case ParentStep => ParentKeeps(s);
    case ChildStep(again) => ChildKeeps(s, again);
    case _ =>
  }

  lemma {:induction false} RunKeeps(s: State, run: seq<Action>, s': State)
    requires Inv(s) && Reaches(s, run, s')
    ensures Inv(s')
    decreases run
  {
    if run != [] {
      StepKeeps(s, run[0]);
      RunKeeps(Do(s, run[0]), run[1..], s');
    }
  }

  lemma ReachableKeeps(s: State)
    requires Reachable(s)
    ensures Inv(s)
  {
    var joinable, run :| Reaches(Init(joinable), run, s);
    RunKeeps(Init(joinable), run, s);
  }

  // ---------------------------------------------------------------- main results

  /** The count is the number of parties that are still to release the delegate. */
  lemma CountIsParties(s: State)
    requires Reachable(s) && s.parent != PCreate && s.parent != PFail
    ensures s.mRefCount == Owed(s)
  {
    ReachableKeeps(s);
  }

  /** The delegate is freed exactly when both parties are done with it, once, and never touched
      afterwards. */
  lemma FreedOnceAtTheEnd(s: State)
    requires Reachable(s)
    ensures s.frees == (if ParentDone(s) && ChildDone(s) then 1 else 0) && !s.touchedFreed
  {
    ReachableKeeps(s);
  }

  /** The check in destroy() never finds the count used up. */
  lemma ReleaseAlwaysFindsCount(s: State)
    requires Reachable(s) && (s.parent == PDestroy(DCheck) || s.child == CDestroy(DCheck))
    ensures s.mRefCount > 0
  {
    ReachableKeeps(s);
  }

  /** No interleaving blocks: as long as a party is not done, somebody can take a step. */
  lemma SomeoneCanStep(s: State)
    requires Reachable(s) && !(ParentDone(s) && ChildDone(s))
    ensures exists a :: Enabled(s, a)
  {
    ReachableKeeps(s);
    match s.mutex
    case Held(Child) => assert Enabled(s, ChildStep(false));
    case Held(Parent) => assert Enabled(s, ParentStep);
    case Free =>
      if !ChildDone(s) {
        assert Enabled(s, ChildStep(false));
      } else if s.parent == PCreate {
        assert Enabled(s, CreateOk);
      } else if s.parent == PHold {
        assert Enabled(s, ClientStop);
      } else {
        assert Enabled(s, ParentStep);
      }
  }

  /** The runnable is deleted at most once and never called afterwards; when the spawned thread is
      done, it has been deleted exactly if the thread found it when it started. */
  lemma RunnableDeletedAtMostOnce(s: State)
    requires Reachable(s)
    ensures s.deletions <= 1 && !s.calledDeleted
    ensures ChildDone(s) ==> (s.deletions == 1 <==> s.hasRunnable)
  {
    ReachableKeeps(s);
  }

  lemma JoinedChildIsOver(s: State, a: Action)
    requires Inv(s) && s.joined && Enabled(s, a)
    ensures var s' := Do(s, a);
            !a.ChildStep? && s'.joined && s'.child == s.child && s'.deletions == s.deletions
  {}

  lemma {:induction false} JoinedRun(s: State, run: seq<Action>, s': State)
    requires Inv(s) && s.joined && Reaches(s, run, s')
    ensures s'.child == s.child && s'.deletions == s.deletions && forall a :: a in run ==> !a.ChildStep?
    decreases run
  {
    if run != [] {
      JoinedChildIsOver(s, run[0]);
      StepKeeps(s, run[0]);
      JoinedRun(Do(s, run[0]), run[1..], s');
      assert run == [run[0]] + run[1..];
    }
  }

  /** When stop() has joined the thread, it is over for good: in every run from there it takes no
      step, and the runnable has been deleted exactly if the thread had found it. */
  lemma StopWaits(s: State, run: seq<Action>, s': State)
    requires Reachable(s) && s.joined && Reaches(s, run, s')
    ensures s.child == s'.child == CDestroy(DDone) && forall a :: a in run ==> !a.ChildStep?
    ensures s'.deletions == s.deletions == if s.hasRunnable then 1 else 0
  {
    ReachableKeeps(s);
    JoinedRun(s, run, s');
  }

  /** Where the parent is, whether it still has to join, and whether it has. */
  predicate JoinRight(s: State, joinable: bool) {
    match s.parent
    case PCreate => s.mJoinable == joinable && s.reported == Pending && !s.joined && s.child == CNone
    case PDetach => s.mJoinable == joinable && s.reported == Pending && !s.joined && s.child != CNone
    case PFail => s.reported == Pending && !s.joined && s.child == CNone
    case PReport =>
      s.reported == Pending && !s.joined && if s.child == CNone then !s.mRunnable else s.mJoinable == joinable
    case PJoin => s.reported == Success && joinable && !s.joined
    case PDestroy(_) => s.reported != Pending && (s.joined <==> s.reported == Success && joinable)
    case _ => s.reported == Success && s.mJoinable == joinable && !s.joined
  }

  lemma DestroyKeepsJoin(s: State, who: Party, d: DestroyPc)
    ensures DestroyEffect(s, who, d).joined == s.joined && DestroyEffect(s, who, d).mJoinable == s.mJoinable
  {}

  lemma ParentKeepsJoin(s: State, joinable: bool)
    requires JoinRight(s, joinable) && s.parent != PCreate
    ensures JoinRight(ParentNext(s), joinable)
  {
    if s.parent.PDestroy? {
      DestroyKeepsFields(s, Parent, s.parent.d);
      DestroyKeepsJoin(s, Parent, s.parent.d);
    }
  }

  lemma ChildKeepsJoin(s: State, again: bool)
    requires s.child != CNone && s.parent != PCreate
    ensures var s' := ChildNext(s, again);
            && s'.joined == s.joined && s'.mJoinable == s.mJoinable && s'.child != CNone
  {
    ChildKeepsFindings(s, again);
    if s.child.CDestroy? { DestroyKeepsJoin(s, Child, s.child.d); }
  }

  lemma StepKeepsJoin(s: State, a: Action, joinable: bool)
    requires Enabled(s, a) && JoinRight(s, joinable)
    ensures JoinRight(Do(s, a), joinable)
  {
    if a == ParentStep {
      ParentKeepsJoin(s, joinable);
    } else if a.ChildStep? {
      ChildKeepsJoin(s, a.again);
      ChildKeepsFindings(s, a.again);
    }
  }

  lemma {:induction false} RunKeepsJoin(s: State, run: seq<Action>, s': State, joinable: bool)
    requires Reaches(s, run, s') && JoinRight(s, joinable)
    ensures JoinRight(s', joinable)
    decreases run
  {
    if run != [] {
      StepKeepsJoin(s, run[0], joinable);
      RunKeepsJoin(Do(s, run[0]), run[1..], s', joinable);
    }
  }

  /** However a client gives a started thread up, by stopping it or by saying goodbye, it has joined the
      thread before it releases the delegate if and only if the thread is joinable. */
  lemma {:induction false} JoinedIffJoinable(joinable: bool, run: seq<Action>, s: State)
    requires Reaches(Init(joinable), run, s) && s.parent.PDestroy?
    ensures s.reported != Pending
    ensures s.joined <==> s.reported == Success && joinable
  {
    RunKeepsJoin(Init(joinable), run, s, joinable);
  }

  // ---------------------------------------------------------------- the calls of the runnable

  datatype Called = Prerun | Run(again: bool) | Postrun | Deleted

  /** The call of the runnable that the step makes, if any. */
  function CallBy(s: State, a: Action): seq<Called> {
    if !a.ChildStep? then []
    else
      match s.child
      case CPrerun => [Prerun]
      case CRun => [Run(a.again)]
      case CPostrun => [Postrun]
      case CDeleteRunnable => [Deleted]
      case _ => []
  }

  function CallsOf(s: State, run: seq<Action>): seq<Called>
    decreases run
  {
    if run == [] then [] else CallBy(s, run[0]) + CallsOf(Do(s, run[0]), run[1..])
  }

  /** What may be called next: the runnable is prepared before it runs, runs again only if it has asked
      to, is told when it is over, and is deleted last. */
  predicate MayFollow(x: Called, y: Called) {
    match x
    case Prerun => y != Prerun
    case Run(again) => (y.Run? && again) || y == Postrun || y == Deleted
    case Postrun => y == Deleted
    case Deleted => false
  }

  ghost predicate WellOrdered(calls: seq<Called>) {
    forall i :: 0 <= i < |calls| - 1 ==> MayFollow(calls[i], calls[i + 1])
  }

  /** Where the thread is, after the calls so far. */
  predicate ReadyAt(child: ChildPc, calls: seq<Called>) {
    match child
    case CNone => calls == []
    case CRead => calls == []
    case CTestPrerun => calls == []
    case CPrerun => calls == []
    case CTestRun => calls == [] || MayFollow(calls[|calls| - 1], Run(true))
    case CRun => calls == [] || MayFollow(calls[|calls| - 1], Run(true))
    case CTestPostrun => calls == [] || MayFollow(calls[|calls| - 1], Postrun)
    case CPostrun => calls == [] || MayFollow(calls[|calls| - 1], Postrun)
    case CClear => calls == [] || MayFollow(calls[|calls| - 1], Deleted)
    case CDeleteRunnable => calls == [] || MayFollow(calls[|calls| - 1], Deleted)
    case CDestroy(_) => true
  }

  /** The calls so far are in order, and the thread is where they have led. */
  ghost predicate Ordered(s: State, calls: seq<Called>) {
    && WellOrdered(calls) && ReadyAt(s.child, calls)
    && (s.parent == PCreate ==> s.child == CNone)
  }

  lemma {:induction false} CallKeepsOrder(s: State, a: Action, calls: seq<Called>)
    requires Enabled(s, a) && Ordered(s, calls)
    ensures Ordered(Do(s, a), calls + CallBy(s, a))
  {
    assert calls + [] == calls;
    if a == ParentStep {
      ParentKeepsFindings(s);
    } else if a.ChildStep? {
      ChildKeepsFindings(s, a.again);
      ChildCallKeepsOrder(s, a.again, calls);
    }
  }

  lemma {:induction false} ChildCallKeepsOrder(s: State, again: bool, calls: seq<Called>)
    requires s.child != CNone && WellOrdered(calls) && ReadyAt(s.child, calls)
    ensures WellOrdered(calls + CallBy(s, ChildStep(again)))
    ensures ReadyAt(ChildNext(s, again).child, calls + CallBy(s, ChildStep(again)))
  {
    var now := CallBy(s, ChildStep(again));
    ChildMoves(s, again);
    if now == [] {
      assert calls + now == calls;
    } else {
      assert (calls + now)[|calls|] == now[0] && |calls + now| == |calls| + 1;
    }
  }

  /** Where the thread goes from where it is. */
  predicate Leads(child: ChildPc, again: bool, next: ChildPc) {
    match child
    case CRead => next == CTestPrerun || next.CDestroy?
    case CTestPrerun => next == CPrerun || next == CTestRun
    case CPrerun => next == CTestRun
    case CTestRun => next == CRun || next == CTestPostrun
    case CRun => next == if again then CTestRun else CTestPostrun
    case CTestPostrun => next == CPostrun || next == CClear
    case CPostrun => next == CClear
    case CClear => next == CDeleteRunnable
    case _ => next.CDestroy?
  }

  lemma ChildMoves(s: State, again: bool)
    requires s.child != CNone
    ensures Leads(s.child, again, ChildNext(s, again).child)
  {
    if s.child.CDestroy? {
      DestroyKeepsFields(s, Child, s.child.d);
    } else {
      ChildMovesOn(s, again);
    }
  }

  lemma ChildMovesOn(s: State, again: bool)
    requires s.child != CNone && !s.child.CDestroy?
    ensures Leads(s.child, again, ChildNext(s, again).child)
  {
    match s.child
    case CRead =>
    case CTestPrerun =>
    case CPrerun =>
    case CTestRun =>
    case CRun =>
    case CTestPostrun =>
    case CPostrun =>
    case CClear =>
    case CDeleteRunnable =>
  }

  lemma {:induction false} RunIsOrdered(s: State, run: seq<Action>, s': State, calls: seq<Called>)
    requires Reaches(s, run, s') && Ordered(s, calls)
    ensures WellOrdered(calls + CallsOf(s, run))
    decreases run
  {
    if run == [] {
      assert calls + [] == calls;
    } else {
      var now, rest := CallBy(s, run[0]), CallsOf(Do(s, run[0]), run[1..]);
      CallKeepsOrder(s, run[0], calls);
      RunIsOrdered(Do(s, run[0]), run[1..], s', calls + now);
      assert calls + (now + rest) == (calls + now) + rest;
    }
  }

  /** In every interleaving the runnable is prepared at most once and first, runs again only after it has
      asked to, is told at most once that it is over, and nothing is called after its deletion. */
  lemma {:induction false} CallsAreOrdered(joinable: bool, run: seq<Action>, s: State)
    requires Reaches(Init(joinable), run, s)
    ensures WellOrdered(CallsOf(Init(joinable), run))
  {
    RunIsOrdered(Init(joinable), run, s, []);
    assert [] + CallsOf(Init(joinable), run) == CallsOf(Init(joinable), run);
  }

  lemma {:induction false} ParentLeavesChild(s: State, run: seq<Action>, s': State)
    requires Reaches(s, run, s') && s.parent != PCreate && forall a :: a in run ==> !a.ChildStep?
    ensures s'.child == s.child && s'.parent != PCreate
    decreases run
  {
    if run != [] {
      assert run[0] in run && forall a :: a in run[1..] ==> a in run;
      if run[0] == ParentStep { ParentKeepsFindings(s); }
      ParentLeavesChild(Do(s, run[0]), run[1..], s');
    }
  }

  /** After a run, whatever the parent does meanwhile, the thread's next step leads to another exactly if
      the runnable has asked for it and has not been cleared. */
  lemma RunsAgainIff(s: State, again: bool, run: seq<Action>, s': State, next: bool)
    requires s.child == CRun && s.parent != PCreate && Reaches(Do(s, ChildStep(again)), run, s')
    requires forall a :: a in run ==> !a.ChildStep?
    ensures Do(s', ChildStep(next)).child == CRun <==> again && s'.mRunnable
  {
    ChildMoves(s, again);
    ParentLeavesChild(Do(s, ChildStep(again)), run, s');
  }

  /** What LocThread.h promises of a start that is over: the runnable has been deleted exactly if
      start() returned true. */
  predicate PromiseKept(s: State) {
    s.deletions == 1 <==> s.reported == Success
  }

  /** The promise is kept exactly if a start reported as successful found the runnable before it
      was stopped, and one reported as failed did not create a thread. */
  lemma PromiseKeptIff(s: State)
    requires Reachable(s) && ParentDone(s) && ChildDone(s)
    ensures PromiseKept(s) <==>
      (s.reported == Success && s.hasRunnable) || (s.reported == Failure && s.child == CNone)
  {
    ReachableKeeps(s);
  }

  // ---------------------------------------------------------------- the promise, by the order of the steps

  /** Is `a` the step of the parent, or of the spawned thread, at this place? */
  predicate ParentAt(s: State, a: Action, p: ParentPc) {
    a == ParentStep && s.parent == p
  }

  predicate ChildAt(s: State, a: Action, c: ChildPc) {
    a.ChildStep? && s.child == c
  }

  /** The spawned thread reads the runnable before the parent, in stop(), clears it. */
  predicate ReadBeforeStop(s: State, run: seq<Action>)
    decreases run
  {
    run == [] || ChildAt(s, run[0], CRead)
    || (!ParentAt(s, run[0], PClear) && ReadBeforeStop(Do(s, run[0]), run[1..]))
  }

  /** The parent, in create(), looks at the runnable before the spawned thread, at its end, clears it. */
  predicate ReportBeforeEnd(s: State, run: seq<Action>)
    decreases run
  {
    run == [] || ParentAt(s, run[0], PReport)
    || (!ChildAt(s, run[0], CClear) && ReportBeforeEnd(Do(s, run[0]), run[1..]))
  }

  /** What the spawned thread found when it started stays, and so does what create() returned. */
  predicate FindingsKept(s: State, s': State) {
    && s'.parent != PCreate && (s'.child == CNone <==> s.child == CNone)
    && (s.child != CNone && s.child != CRead ==> s'.child != CRead && s'.hasRunnable == s.hasRunnable)
    && (!Creating(s.parent) ==> s'.reported == s.reported && !Creating(s'.parent))
    && (!s.mRunnable ==> !s'.mRunnable)
  }

  lemma DestroyKeepsFields(s: State, who: Party, d: DestroyPc)
    ensures var s' := DestroyEffect(s, who, d);
            && s'.mRunnable == s.mRunnable && s'.hasRunnable == s.hasRunnable && s'.reported == s.reported
            && s'.parent == s.parent && s'.child == s.child
  {}

  lemma ParentKeepsFindings(s: State)
    requires s.parent != PCreate
    ensures FindingsKept(s, ParentNext(s)) && ParentNext(s).child == s.child
  {
    if s.parent.PDestroy? { DestroyKeepsFields(s, Parent, s.parent.d); }
  }

  lemma ChildKeepsFindings(s: State, again: bool)
    requires s.parent != PCreate
    ensures FindingsKept(s, ChildNext(s, again)) && ChildNext(s, again).parent == s.parent
    ensures ChildNext(s, again).reported == s.reported
  {
    match s.child
    case CDestroy(d) => ChildDestroyKeepsFindings(s, again);
    case CNone =>
    case CRead =>
    case CClear =>
    case CDeleteRunnable =>
    case _ => ChildCallKeepsFields(s, again);
  }

  lemma ChildDestroyKeepsFindings(s: State, again: bool)
    requires s.child.CDestroy?
    ensures var s' := ChildNext(s, again);
            && s'.mRunnable == s.mRunnable && s'.hasRunnable == s.hasRunnable && s'.reported == s.reported
            && s'.parent == s.parent && s'.child.CDestroy?
  {
    DestroyKeepsFields(s, Child, s.child.d);
  }

  /** The steps of the spawned thread around the calls of the runnable. */
  lemma ChildCallKeepsFields(s: State, again: bool)
    requires Running(s.child) && s.child != CClear && s.child != CDeleteRunnable
    ensures var s' := ChildNext(s, again);
            && s'.mRunnable == s.mRunnable && s'.hasRunnable == s.hasRunnable && s'.reported == s.reported
            && s'.parent == s.parent && Running(s'.child)
  {
    match s.child
    case CTestPrerun => assert ChildNext(s, again).child == if s.mRunnable then CPrerun else CTestRun;
    case CPrerun => assert ChildNext(s, again).child == CTestRun;
    case CTestRun => assert ChildNext(s, again).child == if s.mRunnable then CRun else CTestPostrun;
    case CRun => assert ChildNext(s, again).child == if again then CTestRun else CTestPostrun;
    case CTestPostrun => assert ChildNext(s, again).child == if s.mRunnable then CPostrun else CClear;
    case CPostrun => assert ChildNext(s, again).child == CClear;
  }

  lemma StepKeepsFindings(s: State, a: Action)
    requires Enabled(s, a) && s.parent != PCreate
    ensures FindingsKept(s, Do(s, a))
    ensures !a.ChildStep? ==> Do(s, a).child == s.child && Do(s, a).hasRunnable == s.hasRunnable
    ensures a.ChildStep? ==> Do(s, a).parent == s.parent && Do(s, a).reported == s.reported
  {
    match a
    case ParentStep => ParentKeepsFindings(s);
    case ChildStep(again) => ChildKeepsFindings(s, again);
    case _ =>
  }

  lemma {:induction false} FoundStays(s: State, run: seq<Action>, s': State)
    requires Reaches(s, run, s') && s.child != CNone && s.child != CRead && s.parent != PCreate
    ensures s'.hasRunnable == s.hasRunnable
    decreases run
  {
    if run != [] {
      StepKeepsFindings(s, run[0]);
      FoundStays(Do(s, run[0]), run[1..], s');
    }
  }

  lemma {:induction false} ReportStays(s: State, run: seq<Action>, s': State)
    requires Reaches(s, run, s') && !Creating(s.parent)
    ensures s'.reported == s.reported
    decreases run
  {
    if run != [] {
      StepKeepsFindings(s, run[0]);
      ReportStays(Do(s, run[0]), run[1..], s');
    }
  }

  /** A runnable that is cleared before the spawned thread reads it is never found. */
  lemma {:induction false} ClearedIsNotFound(s: State, run: seq<Action>, s': State)
    requires Reaches(s, run, s') && s.child == CRead && !s.mRunnable && !s.hasRunnable && s.parent != PCreate
    ensures !s'.hasRunnable
    decreases run
  {
    if run != [] {
      StepKeepsFindings(s, run[0]);
      if run[0].ChildStep? {
        FoundStays(Do(s, run[0]), run[1..], s');
      } else {
        ClearedIsNotFound(Do(s, run[0]), run[1..], s');
      }
    }
  }

  lemma {:induction false} ClearedIsReported(s: State, run: seq<Action>, s': State)
    requires Reaches(s, run, s') && !s.mRunnable && (s.parent == PDetach || s.parent == PReport)
    requires s.reported == Pending
    ensures s'.reported != Success
    decreases run
  {
    if run != [] {
      StepKeepsFindings(s, run[0]);
      if ParentAt(s, run[0], PReport) {
        ReportStays(Do(s, run[0]), run[1..], s');
      } else {
        ClearedIsReported(Do(s, run[0]), run[1..], s');
      }
    }
  }

  /** The spawned thread finds the runnable exactly if it reads it before stop() clears it. */
  lemma {:induction false} FoundIff(s: State, run: seq<Action>, s': State)
    requires Inv(s) && Reaches(s, run, s') && s.child == CRead && s.mRunnable && ChildDone(s')
    requires s.parent != PCreate
    ensures s'.hasRunnable <==> ReadBeforeStop(s, run)
    decreases run
  {
    StepKeeps(s, run[0]);
    StepKeepsFindings(s, run[0]);
    if ChildAt(s, run[0], CRead) {
      FoundStays(Do(s, run[0]), run[1..], s');
    } else if ParentAt(s, run[0], PClear) {
      ClearedIsNotFound(Do(s, run[0]), run[1..], s');
    } else {
      FoundIff(Do(s, run[0]), run[1..], s');
    }
  }

  /** create() reports success exactly if it looks at the runnable before the spawned thread clears it. */
  lemma {:induction false} ReportedIff(s: State, run: seq<Action>, s': State)
    requires Inv(s) && Reaches(s, run, s') && (s.parent == PDetach || s.parent == PReport) && s.mRunnable
    requires ParentDone(s')
    ensures s'.reported == Success <==> ReportBeforeEnd(s, run)
    decreases run
  {
    StepKeeps(s, run[0]);
    StepKeepsFindings(s, run[0]);
    if ParentAt(s, run[0], PReport) {
      ReportStays(Do(s, run[0]), run[1..], s');
    } else if ChildAt(s, run[0], CClear) {
      ClearedIsReported(Do(s, run[0]), run[1..], s');
    } else {
      ReportedIff(Do(s, run[0]), run[1..], s');
    }
  }

  /** A complete run keeps the promise if and only if no thread was created, or the spawned thread
      read the runnable before stop() cleared it and create() looked at it before the spawned thread
      cleared it. */
  lemma PromiseKeptByOrder(joinable: bool, run: seq<Action>, s: State)
    requires Reaches(Init(joinable), run, s) && ParentDone(s) && ChildDone(s)
    ensures PromiseKept(s) <==>
            run[0] == CreateFail || (ReadBeforeStop(Init(joinable), run) && ReportBeforeEnd(Init(joinable), run))
  {
    var s0 := Init(joinable);
    var s1 := Do(s0, run[0]);
    assert Reachable(s);
    PromiseKeptIff(s);
    assert Reaches(s0, [], s0);
    ReachableKeeps(s0);
    StepKeeps(s0, run[0]);
    ReachableKeeps(s);
    ThreadStays(s1, run[1..], s);
    if run[0] == CreateOk {
      FoundIff(s1, run[1..], s);
      ReportedIff(s1, run[1..], s);
    }
  }

  lemma {:induction false} ThreadStays(s: State, run: seq<Action>, s': State)
    requires Reaches(s, run, s') && s.parent != PCreate
    ensures s'.child == CNone <==> s.child == CNone
    decreases run
  {
    if run != [] {
      StepKeepsFindings(s, run[0]);
      ThreadStays(Do(s, run[0]), run[1..], s');
    }
  }

  // ---------------------------------------------------------------- two runs that break the promise

  lemma {:induction false} ReachesOneMore(s: State, run: seq<Action>, t: State, a: Action)
    requires Reaches(s, run, t) && Enabled(t, a)
    ensures Reaches(s, run + [a], Do(t, a))
    decreases run
  {
    if run == [] {
      assert run + [a] == [a];
      assert Reaches(Do(s, a), [], Do(t, a));
    } else {
      assert (run + [a])[0] == run[0] && (run + [a])[1..] == run[1..] + [a];
      ReachesOneMore(Do(s, run[0]), run[1..], t, a);
    }
  }

  lemma Take(s: State, a: Action) returns (t: State)
    requires Reachable(s) && Enabled(s, a)
    ensures Reachable(t) && t == Do(s, a)
  {
    var joinable, run :| Reaches(Init(joinable), run, s);
    ReachesOneMore(Init(joinable), run, s, a);
    t := Do(s, a);
  }

  lemma Created(joinable: bool) returns (s: State)
    ensures Reachable(s) && s == Init(joinable).(child := CRead, parent := PDetach)
  {
    assert Reaches(Init(joinable), [], Init(joinable));
    s := Take(Init(joinable), CreateOk);
  }

  /** destroy() by the spawned thread, while the parent still holds the delegate. */
  lemma ChildReleases(s: State) returns (t: State)
    requires Reachable(s) && s.child == CDestroy(DCheck) && s.mutex == Free && s.mRefCount == 2
    requires s.frees == 0 && !s.touchedFreed
    ensures Reachable(t)
    ensures t == s.(child := CDestroy(DDone), mRefCount := 1)
  {
    t := ChildEnters(s);
    t := Take(t, ChildStep(false));
    assert t == s.(child := CDestroy(DUnlock(false)), mutex := Held(Child), mRefCount := 1);
    t := Take(t, ChildStep(false));
  }

  lemma ChildEnters(s: State) returns (t: State)
    requires Reachable(s) && s.child == CDestroy(DCheck) && s.mutex == Free && s.mRefCount == 2
    requires s.frees == 0 && !s.touchedFreed
    ensures Reachable(t) && t == s.(child := CDestroy(DDec), mutex := Held(Child))
  {
    t := Take(s, ChildStep(false));
    assert t == s.(child := CDestroy(DLock));
    t := Take(t, ChildStep(false));
  }

  /** destroy() by the parent, after the spawned thread. */
  lemma ParentReleases(s: State) returns (t: State)
    requires Reachable(s) && s.parent == PDestroy(DCheck) && s.mutex == Free && s.mRefCount == 1
    requires s.frees == 0 && !s.touchedFreed
    ensures Reachable(t)
    ensures t == s.(parent := PDestroy(DDone), mRefCount := 0, frees := 1)
  {
    t := ParentEnters(s);
    t := Take(t, ParentStep);
    assert t == s.(parent := PDestroy(DUnlock(true)), mutex := Held(Parent), mRefCount := 0);
    t := Take(t, ParentStep);
    assert t == s.(parent := PDestroy(DDelete), mRefCount := 0);
    t := Take(t, ParentStep);
  }

  lemma ParentEnters(s: State) returns (t: State)
    requires Reachable(s) && s.parent == PDestroy(DCheck) && s.mutex == Free && s.mRefCount == 1
    requires s.frees == 0 && !s.touchedFreed
    ensures Reachable(t) && t == s.(parent := PDestroy(DDec), mutex := Held(Parent))
  {
    t := Take(s, ParentStep);
    assert t == s.(parent := PDestroy(DLock));
    t := Take(t, ParentStep);
  }

  /** The parent gets the delegate from create() and stops it before the spawned thread starts. */
  lemma StoppedBeforeRead() returns (s: State)
    ensures Reachable(s)
    ensures s == Init(true).(mRunnable := false, child := CRead, parent := PTestJoinable, reported := Success)
  {
    s := Created(true);
    s := Take(s, ParentStep);
    assert s == Init(true).(child := CRead, parent := PReport);
    s := Take(s, ParentStep);
    assert s == Init(true).(child := CRead, parent := PHold, reported := Success);
    s := Take(s, ClientStop);
    s := Take(s, ParentStep);
  }

  /** A stop() before the spawned thread has read the field: start() returned true, but nobody
      deletes the runnable. */
  lemma StoppedTooEarly()
    ensures exists s :: Reachable(s) && ParentDone(s) && ChildDone(s) && s.reported == Success && s.deletions == 0
  {
    var s := StoppedBeforeRead();
    var s0 := s;
    s := Take(s, ChildStep(false));
    assert s == s0.(child := CDestroy(DCheck));
    s := ChildReleases(s);
    s := Take(s, ParentStep);
    s := Take(s, ParentStep);
    assert s == s0.(child := CDestroy(DDone), mRefCount := 1, mJoinable := false, joined := true,
                    parent := PDestroy(DCheck));
    s := ParentReleases(s);
  }

  /** The spawned thread runs its runnable once and deletes it. */
  lemma RunsOnce(s: State) returns (t: State)
    requires Reachable(s) && s == Init(true).(child := CRead, parent := PDetach)
    ensures Reachable(t)
    ensures t == s.(hasRunnable := true, mRunnable := false, deletions := 1, child := CDestroy(DCheck))
  {
    t := Take(s, ChildStep(false));
    t := Take(t, ChildStep(false));
    assert t == s.(hasRunnable := true, child := CPrerun);
    t := Take(t, ChildStep(false));
    t := Take(t, ChildStep(false));
    assert t == s.(hasRunnable := true, child := CRun);
    t := Finishes(t);
  }

  lemma Finishes(s: State) returns (t: State)
    requires Reachable(s) && s.child == CRun && s.mRunnable && s.frees == 0 && s.deletions == 0
    requires !s.touchedFreed && !s.calledDeleted
    ensures Reachable(t)
    ensures t == s.(mRunnable := false, deletions := 1, child := CDestroy(DCheck))
  {
    t := Take(s, ChildStep(false));
    t := Take(t, ChildStep(false));
    assert t == s.(child := CPostrun);
    t := Take(t, ChildStep(false));
    t := Take(t, ChildStep(false));
    assert t == s.(mRunnable := false, child := CDeleteRunnable);
    t := Take(t, ChildStep(false));
  }

  /** A runnable that finishes before create() looks: start() returns false, but the thread has
      run and deleted the runnable. */
  lemma FinishedTooEarly()
    ensures exists s :: Reachable(s) && ParentDone(s) && ChildDone(s) && s.reported == Failure && s.deletions == 1
  {
    var s := Created(true);
    s := RunsOnce(s);
    s := ChildReleases(s);
    var s0 := s;
    s := Take(s, ParentStep);
    assert s == s0.(parent := PReport);
    s := Take(s, ParentStep);
    assert s == s0.(parent := PDestroy(DCheck), reported := Failure);
    s := ParentReleases(s);
  }
}
