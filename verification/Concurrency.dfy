/**
 Several processes on one target: lock steps, file-system states and crashes interleave freely. As long as lock
 recoveries spare live owners, what they do to the files is what some sequence of runs does one after the other.
 */
module Concurrency {
  import opened Wrappers
  import opened FileSystem
  import opened SafeReplace
  import opened Executor
  import opened Acceptance
  import opened Server
  import opened History
  import opened Durability
  import Lock

  /** A run that a process is making: the states it is to put the files through, and how far it has got. */
  datatype Work = Work(trail: Trail, at: nat)

  /** The lock, the target's files, the runs under way, and the version that the server has reached. */
  datatype World = World(lock: Lock.State, files: Files, works: map<Lock.Pid, Work>, served: nat)

  datatype Action =
    | LockStep(step: Lock.Step)
    | Begin(pid: Lock.Pid, event: Event)
    | Advance(pid: Lock.Pid, torn: Files)

  /**
   One action of one process. The lock is held from before the run begins until it has ended. A process that does
   not find the files as it left them, because another one has been at them, may leave them in any state.
   */
  ghost predicate Acts(sv: Versions, w: World, action: Action, u: World) {
    match action
    case LockStep(step) =>
      && Lock.Next(w.lock, step) == Some(u.lock)
      && (step.BeginRelease? && step.pid in w.works ==> HasEnded(w.works[step.pid]))
      && u.works == (if step.BeginRelease? || step.Crash? then w.works - {step.pid} else w.works)
      && u.files == w.files && u.served == w.served
    case Begin(p, e) =>
      && Lock.InPhase(w.lock, p, Lock.Holding) && p !in w.works
      && !e.lockBusy && CompliantEvent(sv, w.served, w.files, e)
      && u == w.(works := w.works[p := Work(EventTrail(w.files, e), 0)], served := e.upto)
    case Advance(p, torn) =>
      && p in w.works && !HasEnded(w.works[p])
      && var k := w.works[p];
         u == w.(works := w.works[p := k.(at := k.at + 1)],
                 files := if w.files == k.trail[k.at] then k.trail[k.at + 1] else torn)
  }

  predicate HasEnded(k: Work) {
    k.at + 1 >= |k.trail|
  }

  ghost predicate IsJointRun(sv: Versions, worlds: seq<World>, actions: seq<Action>) {
    && |worlds| == |actions| + 1
    && forall i | 0 <= i < |actions| :: Acts(sv, worlds[i], actions[i], worlds[i + 1])
  }

  /** The condition that Lock.MutualExclusion asks for, in a joint run. */
  ghost predicate SparesLiveOwners(worlds: seq<World>, actions: seq<Action>)
    requires |worlds| == |actions| + 1
  {
    forall i | 0 <= i < |actions| && actions[i].LockStep? && Lock.Clears(worlds[i].lock, actions[i].step) ::
      !Lock.HasLiveOwner(worlds[i].lock)
  }

  ghost predicate Initial(f: Files, w: World) {
    Lock.Initial(w.lock) && w.files == f && w.works == map[] && w.served == 0
  }

  // ----- the runs so far as a history

  ghost predicate AllWellFormed(es: seq<Event>) {
    forall i | 0 <= i < |es| :: WellFormed(es[i])
  }

  /** The history of finished runs, and the run under way or ended last, stopped where it is now. */
  ghost predicate Serial(sv: Versions, f: Files, w: World, done: seq<Event>, last: Option<Event>) {
    && Lock.OwnersInPlace(w.lock)
    && (forall p | p in w.works :: Lock.InPhase(w.lock, p, Lock.Holding))
    && AllWellFormed(done) && CompliantHistory(sv, 0, f, done)
    && match last
       case None => w.works == map[] && w.served == VersionReached(0, done) && w.files == DiskAfter(f, done)
       case Some(e) =>
         && CompliantEvent(sv, VersionReached(0, done), DiskAfter(f, done), e) && !e.lockBusy
         && w.served == e.upto && w.files == AfterEvent(DiskAfter(f, done), e)
         && (forall p | p in w.works :: IsAt(w.works[p], EventTrail(DiskAfter(f, done), e), e.crash))
  }

  ghost predicate IsAt(k: Work, t: Trail, at: Option<nat>) {
    k.trail == t && at == Some(k.at) && k.at < |t|
  }

  lemma {:induction false} HistoryAppends(sv: Versions, cur: nat, f: Files, es: seq<Event>, e: Event)
    requires AllWellFormed(es) && CompliantHistory(sv, cur, f, es)
    requires CompliantEvent(sv, VersionReached(cur, es), DiskAfter(f, es), e)
    ensures AllWellFormed(es + [e]) && CompliantHistory(sv, cur, f, es + [e])
    ensures DiskAfter(f, es + [e]) == AfterEvent(DiskAfter(f, es), e)
    ensures VersionReached(cur, es + [e]) == e.upto
    decreases |es|
  {
    hide CompliantEvent, AfterEvent, WellFormed;
    CompliantIsWellFormed(sv, VersionReached(cur, es), DiskAfter(f, es), e);
    if es == [] {
      assert [e][1..] == [];
    } else {
      assert VersionReached(es[0].upto, es[1..]) == VersionReached(cur, es);
      assert forall i | 0 <= i < |es[1..]| :: es[1..][i] == es[i + 1];
      HistoryAppends(sv, es[0].upto, AfterEvent(f, es[0]), es[1..], e);
      assert (es + [e])[1..] == es[1..] + [e];
    }
  }

  lemma TrailBeginsHere(f: Files, e: Event)
    requires WellFormed(e)
    ensures EventTrail(f, e)[0] == f
  {
    hide RunFrom, EveryAttemptAccepts;
    if !e.lockBusy {
      RunFromAccepts(e.cfg, [f], e.envs, 1);
    }
  }

  /** A history together with the last run is a history. */
  lemma SerialIsHistory(sv: Versions, f: Files, w: World, done: seq<Event>, last: Option<Event>)
    returns (es: seq<Event>)
    requires Serial(sv, f, w, done, last)
    ensures LeavesWorld(sv, f, es, w)
  {
    hide CompliantHistory, CompliantEvent, DiskAfter, AfterEvent, WellFormed;
    es := done;
    if last.Some? {
      HistoryAppends(sv, 0, f, done, last.value);
      es := done + [last.value];
    }
  }

  /** The world's files are those that the history leaves, one run after the other. */
  ghost predicate LeavesWorld(sv: Versions, f: Files, es: seq<Event>, w: World) {
    && AllWellFormed(es) && CompliantHistory(sv, 0, f, es)
    && w.files == DiskAfter(f, es) && w.served == VersionReached(0, es)
  }

  // ----- every action keeps the files serial

  lemma LockStepStaysSerial(
    sv: Versions, f: Files, w: World, step: Lock.Step, u: World, done: seq<Event>, last: Option<Event>)
    requires Serial(sv, f, w, done, last) && Acts(sv, w, LockStep(step), u)
    requires Lock.Clears(w.lock, step) ==> !Lock.HasLiveOwner(w.lock)
    ensures Serial(sv, f, u, done, last)
  {
    hide CompliantHistory, CompliantEvent, DiskAfter, AfterEvent, WellFormed, EventTrail, Lock.OwnersInPlace;
    Lock.StepKeepsOwners(w.lock, step);
  }

  /** A process that holds the lock and has not begun its run is alone. */
  lemma HolderIsAlone(sv: Versions, f: Files, w: World, p: Lock.Pid, done: seq<Event>, last: Option<Event>)
    requires Serial(sv, f, w, done, last) && Lock.InPhase(w.lock, p, Lock.Holding)
    ensures forall q | q in w.works :: q == p
  {
    hide CompliantHistory, CompliantEvent, DiskAfter, AfterEvent, WellFormed, EventTrail;
    Lock.OwnersInPlaceExcludes(w.lock);
  }

  lemma BeginStaysSerial(
    sv: Versions, f: Files, w: World, p: Lock.Pid, e: Event, u: World, done: seq<Event>, last: Option<Event>)
    returns (done': seq<Event>, last': Option<Event>)
    requires Serial(sv, f, w, done, last) && Acts(sv, w, Begin(p, e), u)
    ensures Serial(sv, f, u, done', last')
  {
    hide CompliantHistory, CompliantFrom, DiskAfter, WellFormed, EventTrail, Lock.OwnersInPlace;
    done' := SerialIsHistory(sv, f, w, done, last);
    last' := Some(e.(crash := Some(0)));
    HolderIsAlone(sv, f, w, p, done, last);
    StoppedEventComplies(sv, w.served, w.files, e, 0);
    TrailBeginsHere(w.files, e);
  }

  /** Where a run is stopped changes neither what it does before nor whether the server complied. */
  lemma StoppedEventComplies(sv: Versions, cur: nat, f: Files, e: Event, at: nat)
    requires CompliantEvent(sv, cur, f, e)
    ensures WellFormed(e) && CompliantEvent(sv, cur, f, e.(crash := Some(at)))
    ensures EventTrail(f, e.(crash := Some(at))) == EventTrail(f, e)
    ensures at < |EventTrail(f, e)| ==> AfterEvent(f, e.(crash := Some(at))) == EventTrail(f, e)[at]
  {
    hide CompliantFrom, RunTarget;
  }

  /** A run that goes on finds the files as it left them, and the history stops it one state later. */
  lemma AdvanceStaysSerial(
    sv: Versions, f: Files, w: World, p: Lock.Pid, torn: Files, u: World, done: seq<Event>, last: Option<Event>)
    returns (last': Option<Event>)
    requires Serial(sv, f, w, done, last) && Acts(sv, w, Advance(p, torn), u)
    ensures Serial(sv, f, u, done, last')
    ensures w.files == w.works[p].trail[w.works[p].at]
  {
    hide CompliantHistory, CompliantEvent, DiskAfter, WellFormed, EventTrail, AfterEvent, Lock.OwnersInPlace;
    var e, k, base := last.value, w.works[p], DiskAfter(f, done);
    HolderIsAlone(sv, f, w, p, done, last);
    StoppedEventComplies(sv, VersionReached(0, done), base, e, k.at);
    StoppedEventComplies(sv, VersionReached(0, done), base, e, k.at + 1);
    assert e.(crash := Some(k.at)) == e;
    last' := Some(e.(crash := Some(k.at + 1)));
  }

  lemma InitialIsSerial(sv: Versions, f: Files, w: World)
    requires Initial(f, w)
    ensures Serial(sv, f, w, [], None)
  {
    Lock.InitialInv(w.lock);
  }

  lemma {:induction false} JointRunIsSerial(sv: Versions, f: Files, worlds: seq<World>, actions: seq<Action>, i: nat)
    returns (done: seq<Event>, last: Option<Event>)
    requires |sv| > 0
    requires IsJointRun(sv, worlds, actions) && SparesLiveOwners(worlds, actions) && Initial(f, worlds[0])
    requires i < |worlds|
    ensures Serial(sv, f, worlds[i], done, last)
    decreases i
  {
    hide Serial, Acts, Initial, Lock.Clears, Lock.HasLiveOwner, CompliantEvent, EventTrail;
    if i == 0 {
      InitialIsSerial(sv, f, worlds[0]);
      return [], None;
    }
    done, last := JointRunIsSerial(sv, f, worlds, actions, i - 1);
    var w, u := worlds[i - 1], worlds[i];
    assert Acts(sv, w, actions[i - 1], u);
    match actions[i - 1]
    case LockStep(step) => LockStepStaysSerial(sv, f, w, step, u, done, last);
    case Begin(p, e) => done, last := BeginStaysSerial(sv, f, w, p, e, u, done, last);
    case Advance(p, torn) => last := AdvanceStaysSerial(sv, f, w, p, torn, u, done, last);
  }

  // ----- a condition the processes can check

  lemma {:induction false} OwnersStayInPlace(sv: Versions, worlds: seq<World>, actions: seq<Action>, i: nat)
    requires IsJointRun(sv, worlds, actions) && Lock.Initial(worlds[0].lock) && i < |worlds|
    requires forall k | 0 <= k < i && actions[k].LockStep? && Lock.Clears(worlds[k].lock, actions[k].step) ::
               !Lock.HasLiveOwner(worlds[k].lock)
    ensures Lock.OwnersInPlace(worlds[i].lock)
    decreases i
  {
    hide Lock.OwnersInPlace, Lock.Next, Lock.HasLiveOwner, CompliantEvent, EventTrail;
    if i == 0 {
      Lock.InitialInv(worlds[0].lock);
    } else {
      OwnersStayInPlace(sv, worlds, actions, i - 1);
      assert Acts(sv, worlds[i - 1], actions[i - 1], worlds[i]);
      if actions[i - 1].LockStep? {
        Lock.StepKeepsOwners(worlds[i - 1].lock, actions[i - 1].step);
      }
    }
  }

  /** If whoever clears the lock path has just inspected it again, truthfully, live owners are spared. */
  lemma RecheckedJointRunSpares(sv: Versions, worlds: seq<World>, actions: seq<Action>)
    requires IsJointRun(sv, worlds, actions) && Lock.Initial(worlds[0].lock)
    requires forall i | 0 <= i < |actions| && actions[i].LockStep? :: Lock.RecheckedAt(worlds[i].lock, actions[i].step)
    ensures SparesLiveOwners(worlds, actions)
  {
    hide Acts, Lock.RecheckedAt, Lock.HasLiveOwner, Lock.Clears;
    forall i | 0 <= i < |actions| && actions[i].LockStep? && Lock.Clears(worlds[i].lock, actions[i].step)
      ensures !Lock.HasLiveOwner(worlds[i].lock)
    {
      RecheckedClearingSpares(sv, worlds, actions, i);
    }
  }

  lemma {:induction false} RecheckedClearingSpares(sv: Versions, worlds: seq<World>, actions: seq<Action>, i: nat)
    requires IsJointRun(sv, worlds, actions) && Lock.Initial(worlds[0].lock)
    requires forall k | 0 <= k < |actions| && actions[k].LockStep? :: Lock.RecheckedAt(worlds[k].lock, actions[k].step)
    requires i < |actions| && actions[i].LockStep? && Lock.Clears(worlds[i].lock, actions[i].step)
    ensures !Lock.HasLiveOwner(worlds[i].lock)
    decreases i
  {
    hide Lock.HasLiveOwner, Lock.OwnersInPlace, Lock.Truthful, CompliantEvent, EventTrail;
    forall k | 0 <= k < i && actions[k].LockStep? && Lock.Clears(worlds[k].lock, actions[k].step)
      ensures !Lock.HasLiveOwner(worlds[k].lock)
    {
      RecheckedClearingSpares(sv, worlds, actions, k);
    }
    OwnersStayInPlace(sv, worlds, actions, i);
    var lock, step := worlds[i].lock, actions[i].step;
    assert Acts(sv, worlds[i], actions[i], worlds[i + 1]) && Lock.RecheckedAt(lock, step);
    if Lock.HasLiveOwner(lock) {
      var a: Lock.Answers :|
        Lock.Truthful(lock, Lock.Inspect(step.pid, a)) && Lock.Inspected(lock.dir, a) != Lock.Refused;
      Lock.InspectionSparesLiveOwner(lock, step.pid, a);
    }
  }

  // ----- the theorems

  /** In every state of every joint run, the files are those that some compliant history of single runs leaves. */
  lemma ConcurrentRunsAreSerial(sv: Versions, f: Files, worlds: seq<World>, actions: seq<Action>, i: nat)
    returns (es: seq<Event>)
    requires |sv| > 0
    requires IsJointRun(sv, worlds, actions) && SparesLiveOwners(worlds, actions) && Initial(f, worlds[0])
    requires i < |worlds|
    ensures LeavesWorld(sv, f, es, worlds[i])
  {
    hide Serial, Acts, Initial;
    var done, last := JointRunIsSerial(sv, f, worlds, actions, i);
    es := SerialIsHistory(sv, f, worlds[i], done, last);
  }

  /** No process ever finds the files other than it left them. */
  lemma RunsAreNotDisturbed(sv: Versions, f: Files, worlds: seq<World>, actions: seq<Action>, i: nat)
    requires |sv| > 0
    requires IsJointRun(sv, worlds, actions) && SparesLiveOwners(worlds, actions) && Initial(f, worlds[0])
    requires i < |actions| && actions[i].Advance?
    ensures var w := worlds[i];
            actions[i].pid in w.works && !HasEnded(w.works[actions[i].pid])
            && w.files == w.works[actions[i].pid].trail[w.works[actions[i].pid].at]
  {
    hide Serial, Initial;
    var done, last := JointRunIsSerial(sv, f, worlds, actions, i);
    assert Acts(sv, worlds[i], actions[i], worlds[i + 1]);
    var last' := AdvanceStaysSerial(sv, f, worlds[i], actions[i].pid, actions[i].torn, worlds[i + 1], done, last);
  }

  /** Single-version integrity and durability of any number of processes, whatever they do at the same time. */
  lemma ConcurrentIntegrity(sv: Versions, f: Files, worlds: seq<World>, actions: seq<Action>, i: nat)
    requires |sv| > 0 && NeverReusesValidators(sv) && Clean(f)
    requires IsJointRun(sv, worlds, actions) && SparesLiveOwners(worlds, actions) && Initial(f, worlds[0])
    requires i < |worlds|
    ensures var g := worlds[i].files;
            && (Output in g ==> g[Output] in FoundAtStart(f) || exists v: nat :: v < |sv| && g[Output] == sv[v].content)
            && (Output in f ==> Settled(g, Contents(sv) + {f[Output]}))
  {
    hide IsJointRun, SparesLiveOwners, Initial, NeverReusesValidators, CompliantHistory, DiskAfter, WellFormed, Settled;
    var es := ConcurrentRunsAreSerial(sv, f, worlds, actions, i);
    SingleVersionIntegrity(sv, f, es);
    if Output in f {
      OutputIsNeverLost(sv, f, es);
    }
  }
}
