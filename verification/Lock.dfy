/**
 The lock of a target (download_lock.cpp) as a protocol between processes whose steps interleave freely. Creating,
 writing and removing are one file-system call each. An inspection bundles what the recovery of a lock directory
 or of a legacy lock file reads before it decides: the kind of the path, the owner file and the three probes, or
 the kind of the path and the flock attempt.
 */
module Lock {
  import opened Wrappers

  type Pid = int

  /** Where a process stands in acquiring or releasing the lock. */
  datatype Phase =
    | Idle
    | Removing(inspected: nat)
    | Recovered
    | Unlinking
    | Ready
    | Created
    | Holding
    | Releasing
    | Refused

  /**
   What is at the lock path: nothing, a lock file left by an older release, or a lock directory, with the process
   that made it, as how many-eth directory, and the pid in its owner file.
   */
  datatype LockPath = Absent | LegacyFile | Present(maker: Pid, serial: nat, owner: Option<Pid>)

  datatype State = State(live: map<Pid, Phase>, dir: LockPath, created: nat)

  /** What process_is_alive, path_was_touched_recently and has_running_peer_process answer. */
  datatype Answers = Answers(ownerAlive: bool, recent: bool, peer: bool)

  /** GiveUp stands for a removal that fails, or finds the path taken again by the time it looks. */
  datatype Step =
    | Start(pid: Pid)
    | Inspect(pid: Pid, answers: Answers)
    | Remove(pid: Pid)
    | InspectFile(pid: Pid, locked: bool)
    | Unlink(pid: Pid)
    | GiveUp(pid: Pid)
    | Create(pid: Pid)
    | WriteOwner(pid: Pid, fails: bool)
    | BeginRelease(pid: Pid)
    | EndRelease(pid: Pid)
    | Crash(pid: Pid)

  predicate InPhase(s: State, p: Pid, phase: Phase) {
    p in s.live && s.live[p] == phase
  }

  function Move(s: State, p: Pid, phase: Phase): State {
    s.(live := s.live[p := phase])
  }

  function WithOwner(d: LockPath, owner: Option<Pid>): LockPath {
    if d.Present? then d.(owner := owner) else d
  }

  /** recover_existing_lock_directory up to the removal: what the inspection concludes. */
  function Inspected(dir: LockPath, a: Answers): Phase {
    match dir
    case Absent => Recovered
    case LegacyFile => Recovered
    case Present(_, serial, owner) =>
      if owner.Some? && a.ownerAlive then Refused
      else if owner.None? && a.recent && a.peer then Refused
      else Removing(serial)
  }

  /** recover_legacy_lock_file up to the removal: a file that is flocked belongs to a running older release. */
  function FileInspected(dir: LockPath, locked: bool): Phase {
    if !dir.LegacyFile? then Ready else if locked then Refused else Unlinking
  }

  /** A directory with an owner file in it: remove refuses it, while remove_all takes it away. */
  predicate Occupied(dir: LockPath) {
    dir.Present? && dir.owner.Some?
  }

  /** One step of one process, or nothing when the process is not at that point. */
  function Next(s: State, step: Step): Option<State> {
    var p := step.pid;
    match step
    case Start(_) => if p in s.live then None else Some(Move(s, p, Idle))
    case Inspect(_, answers) => if !InPhase(s, p, Idle) then None else Some(Move(s, p, Inspected(s.dir, answers)))
    case Remove(_) =>
      if p !in s.live || !s.live[p].Removing? then None else Some(Move(s, p, Recovered).(dir := Absent))
    case InspectFile(_, locked) =>
      if !InPhase(s, p, Recovered) then None else Some(Move(s, p, FileInspected(s.dir, locked)))
    case Unlink(_) =>
      if !InPhase(s, p, Unlinking) then None
      else if Occupied(s.dir) then Some(Move(s, p, Refused))
      else Some(Move(s, p, Ready).(dir := Absent))
    case GiveUp(_) =>
      if !InPhase(s, p, Recovered) && !InPhase(s, p, Ready) then None else Some(Move(s, p, Refused))
    case Create(_) =>
      if !InPhase(s, p, Ready) then None
      else if !s.dir.Absent? then Some(Move(s, p, Refused))
      else Some(Move(s, p, Created).(dir := Present(p, s.created, None), created := s.created + 1))
    case WriteOwner(_, fails) =>
      if !InPhase(s, p, Created) then None
      else if fails || !s.dir.Present? then Some(Move(s, p, Refused).(dir := Absent))
      else Some(Move(s, p, Holding).(dir := WithOwner(s.dir, Some(p))))
    case BeginRelease(_) =>
      if !InPhase(s, p, Holding) then None else Some(Move(s, p, Releasing).(dir := WithOwner(s.dir, None)))
    case EndRelease(_) =>
      if !InPhase(s, p, Releasing) then None else Some(Move(s, p, Idle).(dir := Absent))
    case Crash(_) => if p !in s.live then None else Some(s.(live := s.live - {p}))
  }

  /** The steps of a recovery that leave nothing at the lock path. */
  predicate Clears(s: State, step: Step) {
    step.Remove? || (step.Unlink? && !Occupied(s.dir))
  }

  /** From creating the directory until it is gone again, a process relies on having it to itself. */
  predicate Owns(phase: Phase) {
    phase.Created? || phase.Holding? || phase.Releasing?
  }

  ghost predicate HasLiveOwner(s: State) {
    exists p | p in s.live :: Owns(s.live[p])
  }

  ghost predicate AtMostOneOwner(s: State) {
    forall p, q | p in s.live && q in s.live && Owns(s.live[p]) && Owns(s.live[q]) :: p == q
  }

  // ----- assumptions on the environment

  /**
   One-sided truth of the probes: a live owner is seen alive, another live process counts as a running peer, and
   a directory whose live maker has not yet written, or has just removed, its owner file still looks recent.
   */
  ghost predicate Truthful(s: State, step: Step) {
    step.Inspect? ==>
      && (s.dir.Present? && s.dir.owner.Some? && s.dir.owner.value in s.live ==> step.answers.ownerAlive)
      && ((exists q | q in s.live :: q != step.pid) ==> step.answers.peer)
      && (s.dir.Present? && s.dir.owner.None? && s.dir.maker in s.live && Owns(s.live[s.dir.maker]) ==>
            step.answers.recent)
  }

  /** A removal does not find a lock directory, or finds the one that was inspected. */
  ghost predicate HitsInspected(s: State, step: Step) {
    s.dir.Present? ==>
      && !step.Unlink?
      && (step.Remove? && step.pid in s.live && s.live[step.pid].Removing? ==>
            s.dir.serial == s.live[step.pid].inspected)
  }

  // ----- the invariants

  /** Every live owner has the directory that it made, with its own pid in it while it holds the lock. */
  ghost predicate OwnersInPlace(s: State) {
    && (s.dir.Present? ==> s.dir.serial < s.created)
    && (forall p | p in s.live && Owns(s.live[p]) ::
          && s.dir.Present? && s.dir.maker == p
          && s.dir.owner == (if s.live[p].Holding? then Some(p) else None))
  }

  /** The directory that a process has condemned is not, or no longer, that of a live owner. */
  ghost predicate CondemnedAreStale(s: State) {
    forall p | p in s.live && s.live[p].Removing? ::
      && s.live[p].inspected < s.created
      && (s.dir.Present? && s.dir.serial == s.live[p].inspected ==>
            !(s.dir.maker in s.live && Owns(s.live[s.dir.maker])))
  }

  ghost predicate Inv(s: State) {
    OwnersInPlace(s) && CondemnedAreStale(s)
  }

  lemma OwnersInPlaceExcludes(s: State)
    requires OwnersInPlace(s)
    ensures AtMostOneOwner(s)
  {
  }

  /** Whatever the probes answer, only a recovery can take a live owner's directory away. */
  lemma StepKeepsOwners(s: State, step: Step)
    requires OwnersInPlace(s) && Next(s, step).Some?
    requires Clears(s, step) ==> !HasLiveOwner(s)
    ensures OwnersInPlace(Next(s, step).value)
  {
  }

  /** A process that has just cleared the lock path creates its directory before anyone else moves. */
  function CreatedNext(s: State, p: Pid): State
    requires s.dir.Absent? && (InPhase(s, p, Recovered) || InPhase(s, p, Ready))
  {
    var ready := if InPhase(s, p, Recovered) then Next(s, InspectFile(p, false)).value else s;
    Next(ready, Create(p)).value
  }

  /**
   The exact condition for one removal: the process that removed goes on to create, and then there is at most
   one owner if and only if no live process owned the directory at the removal.
   */
  lemma RemovalKeepsExclusionIff(s: State, step: Step)
    requires OwnersInPlace(s) && Next(s, step).Some? && Clears(s, step)
    ensures AtMostOneOwner(CreatedNext(Next(s, step).value, step.pid)) <==> !HasLiveOwner(s)
  {
    var p, u := step.pid, CreatedNext(Next(s, step).value, step.pid);
    assert p in u.live && Owns(u.live[p]);
    if HasLiveOwner(s) {
      var q :| q in s.live && Owns(s.live[q]);
      assert q != p && q in u.live && Owns(u.live[q]);
    }
  }

  /** A truthful inspection refuses a live owner's directory, whichever other process makes it and when. */
  lemma InspectionSparesLiveOwner(s: State, p: Pid, a: Answers)
    requires OwnersInPlace(s) && p in s.live && !Owns(s.live[p]) && Truthful(s, Inspect(p, a))
    requires HasLiveOwner(s)
    ensures Inspected(s.dir, a) == Refused
  {
    var q :| q in s.live && Owns(s.live[q]);
    assert q != p;
  }

  lemma InspectKeepsCondemned(s: State, p: Pid, a: Answers)
    requires Inv(s) && InPhase(s, p, Idle) && Truthful(s, Inspect(p, a))
    ensures CondemnedAreStale(Move(s, p, Inspected(s.dir, a)))
  {
    if HasLiveOwner(s) {
      InspectionSparesLiveOwner(s, p, a);
    } else {
      assert s.dir.Present? && s.dir.maker in s.live ==> !Owns(s.live[s.dir.maker]);
    }
  }

  lemma StepKeepsCondemned(s: State, step: Step)
    requires Inv(s) && Next(s, step).Some? && Truthful(s, step)
    ensures CondemnedAreStale(Next(s, step).value)
  {
    if step.Inspect? {
      InspectKeepsCondemned(s, step.pid, step.answers);
    }
  }

  /** A removal that hits what was inspected hits nobody's directory. */
  lemma HittingSpares(s: State, step: Step)
    requires Inv(s) && Next(s, step).Some? && Clears(s, step) && HitsInspected(s, step)
    ensures !HasLiveOwner(s)
  {
  }

  // ----- runs

  ghost predicate IsRun(states: seq<State>, steps: seq<Step>) {
    && |states| == |steps| + 1
    && forall i | 0 <= i < |steps| :: Next(states[i], steps[i]) == Some(states[i + 1])
  }

  ghost predicate TruthfulRun(states: seq<State>, steps: seq<Step>)
    requires IsRun(states, steps)
  {
    forall i | 0 <= i < |steps| :: Truthful(states[i], steps[i])
  }

  ghost predicate UndisturbedRun(states: seq<State>, steps: seq<Step>)
    requires IsRun(states, steps)
  {
    forall i | 0 <= i < |steps| :: HitsInspected(states[i], steps[i])
  }

  /** Recoveries clear the lock path only while no live process owns a directory there. */
  ghost predicate SparesLiveOwners(states: seq<State>, steps: seq<Step>)
    requires IsRun(states, steps)
  {
    forall i | 0 <= i < |steps| && Clears(states[i], steps[i]) :: !HasLiveOwner(states[i])
  }

  /** Before anyone runs there may be a directory left by a process that died, or an older release's file. */
  ghost predicate Initial(s: State) {
    s.live == map[] && (s.dir.Present? ==> s.dir.serial < s.created)
  }

  lemma InitialInv(s: State)
    requires Initial(s)
    ensures Inv(s)
  {
  }

  lemma {:induction false} RunKeepsOwners(states: seq<State>, steps: seq<Step>, i: nat)
    requires IsRun(states, steps) && Initial(states[0]) && i < |states|
    requires forall k | 0 <= k < i && Clears(states[k], steps[k]) :: !HasLiveOwner(states[k])
    ensures OwnersInPlace(states[i])
    decreases i
  {
    hide OwnersInPlace, HasLiveOwner, Next;
    if i == 0 {
      InitialInv(states[0]);
    } else {
      RunKeepsOwners(states, steps, i - 1);
      assert Next(states[i - 1], steps[i - 1]) == Some(states[i]);
      StepKeepsOwners(states[i - 1], steps[i - 1]);
    }
  }

  /**
   Mutual exclusion in every interleaving of starting, inspecting, recovering, creating, releasing and crashing
   processes whose removals spare live owners, whatever the probes answer.
   */
  lemma MutualExclusion(states: seq<State>, steps: seq<Step>)
    requires IsRun(states, steps) && Initial(states[0]) && SparesLiveOwners(states, steps)
    ensures forall i | 0 <= i < |states| :: AtMostOneOwner(states[i])
  {
    hide OwnersInPlace, HasLiveOwner, AtMostOneOwner, Next;
    forall i | 0 <= i < |states|
      ensures AtMostOneOwner(states[i])
    {
      RunKeepsOwners(states, steps, i);
      OwnersInPlaceExcludes(states[i]);
    }
  }

  /** Whoever removes a directory in the run could create one next without there being two owners. */
  ghost predicate CreatingStaysExclusive(states: seq<State>, steps: seq<Step>)
    requires IsRun(states, steps)
  {
    forall i | 0 <= i < |steps| && Clears(states[i], steps[i]) ::
      && Next(states[i], steps[i]) == Some(states[i + 1])
      && AtMostOneOwner(CreatedNext(states[i + 1], steps[i].pid))
  }

  /** Sparing live owners is exactly what exclusion needs: a removal that does not can be continued to two owners. */
  lemma ExclusionIffOwnersSpared(states: seq<State>, steps: seq<Step>)
    requires IsRun(states, steps) && Initial(states[0])
    ensures SparesLiveOwners(states, steps) <==> CreatingStaysExclusive(states, steps)
  {
    hide OwnersInPlace, HasLiveOwner, AtMostOneOwner;
    if SparesLiveOwners(states, steps) {
      forall i | 0 <= i < |steps| && Clears(states[i], steps[i])
        ensures Next(states[i], steps[i]) == Some(states[i + 1])
        ensures AtMostOneOwner(CreatedNext(states[i + 1], steps[i].pid))
      {
        RunKeepsOwners(states, steps, i);
        assert Next(states[i], steps[i]) == Some(states[i + 1]);
        RemovalKeepsExclusionIff(states[i], steps[i]);
      }
    } else {
      var i :| 0 <= i < |steps| && Clears(states[i], steps[i]) && HasLiveOwner(states[i]);
      FirstBadRemoval(states, steps, i);
    }
  }

  lemma {:induction false} FirstBadRemoval(states: seq<State>, steps: seq<Step>, i: nat)
    requires IsRun(states, steps) && Initial(states[0])
    requires i < |steps| && Clears(states[i], steps[i]) && HasLiveOwner(states[i])
    ensures !CreatingStaysExclusive(states, steps)
    decreases i
  {
    hide OwnersInPlace, HasLiveOwner, AtMostOneOwner;
    if k :| 0 <= k < i && Clears(states[k], steps[k]) && HasLiveOwner(states[k]) {
      FirstBadRemoval(states, steps, k);
    } else {
      RunKeepsOwners(states, steps, i);
      assert Next(states[i], steps[i]) == Some(states[i + 1]);
      RemovalKeepsExclusionIff(states[i], steps[i]);
    }
  }

  // ----- when removals spare live owners: they hit what was inspected

  lemma {:induction false} UndisturbedRunKeepsInv(states: seq<State>, steps: seq<Step>, i: nat)
    requires IsRun(states, steps) && TruthfulRun(states, steps) && UndisturbedRun(states, steps)
    requires Initial(states[0]) && i < |states|
    ensures Inv(states[i])
    decreases i
  {
    hide OwnersInPlace, CondemnedAreStale, Truthful, HitsInspected, Next;
    if i == 0 {
      InitialInv(states[0]);
    } else {
      UndisturbedRunKeepsInv(states, steps, i - 1);
      assert Truthful(states[i - 1], steps[i - 1]) && HitsInspected(states[i - 1], steps[i - 1]);
      assert Next(states[i - 1], steps[i - 1]) == Some(states[i]);
      if Clears(states[i - 1], steps[i - 1]) {
        HittingSpares(states[i - 1], steps[i - 1]);
      }
      StepKeepsOwners(states[i - 1], steps[i - 1]);
      StepKeepsCondemned(states[i - 1], steps[i - 1]);
    }
  }

  /** Truthful probes and removals that hit the directory that was inspected are enough. */
  lemma UndisturbedRecoveryExcludes(states: seq<State>, steps: seq<Step>)
    requires IsRun(states, steps) && TruthfulRun(states, steps) && UndisturbedRun(states, steps)
    requires Initial(states[0])
    ensures SparesLiveOwners(states, steps)
    ensures forall i | 0 <= i < |states| :: AtMostOneOwner(states[i])
  {
    hide Inv, Truthful, HitsInspected, HasLiveOwner, AtMostOneOwner, Next;
    forall i | 0 <= i < |steps| && Clears(states[i], steps[i])
      ensures !HasLiveOwner(states[i])
    {
      UndisturbedRunKeepsInv(states, steps, i);
      assert HitsInspected(states[i], steps[i]);
      assert Next(states[i], steps[i]) == Some(states[i + 1]);
      HittingSpares(states[i], steps[i]);
    }
    MutualExclusion(states, steps);
  }

  // ----- or inspection and removal are one step

  /** A process that condemns what it found removes it before anyone else moves. */
  ghost predicate AtomicRecovery(states: seq<State>, steps: seq<Step>)
    requires IsRun(states, steps)
  {
    forall i | 0 <= i < |steps| :: Condemns(states[i + 1], steps[i]) && i + 1 < |steps| ==>
      steps[i + 1] == if steps[i].Inspect? then Remove(steps[i].pid) else Unlink(steps[i].pid)
  }

  /** An inspection that leaves its process about to remove. */
  predicate Condemns(after: State, step: Step) {
    (step.Inspect? || step.InspectFile?) && step.pid in after.live && AboutToRemove(after.live[step.pid])
  }

  predicate AboutToRemove(phase: Phase) {
    phase.Removing? || phase.Unlinking?
  }

  /** In an atomic run, only the process that moved last can be about to remove. */
  lemma {:induction false} OnlyLastMoverRemoves(states: seq<State>, steps: seq<Step>, i: nat, p: Pid)
    requires IsRun(states, steps) && AtomicRecovery(states, steps) && states[0].live == map[]
    requires i < |states| && p in states[i].live && AboutToRemove(states[i].live[p])
    ensures i > 0 && steps[i - 1].pid == p && Condemns(states[i], steps[i - 1])
    ensures states[i].live[p].Removing? ==>
              states[i].dir.Present? && states[i].live[p].inspected == states[i].dir.serial
    ensures states[i].live[p].Unlinking? ==> states[i].dir.LegacyFile?
    decreases i
  {
    if i > 0 {
      assert Next(states[i - 1], steps[i - 1]) == Some(states[i]);
      if !(steps[i - 1].pid == p && Condemns(states[i], steps[i - 1])) {
        assert p in states[i - 1].live && AboutToRemove(states[i - 1].live[p]);
        OnlyLastMoverRemoves(states, steps, i - 1, p);
        assert false;
      }
    }
  }

  /** Taking inspect-and-remove as one step is enough for mutual exclusion. */
  lemma AtomicRecoveryExcludes(states: seq<State>, steps: seq<Step>)
    requires IsRun(states, steps) && TruthfulRun(states, steps) && AtomicRecovery(states, steps)
    requires Initial(states[0])
    ensures SparesLiveOwners(states, steps)
    ensures forall i | 0 <= i < |states| :: AtMostOneOwner(states[i])
  {
    hide Truthful, AtMostOneOwner, HasLiveOwner, AtomicRecovery;
    forall i | 0 <= i < |steps|
      ensures HitsInspected(states[i], steps[i])
    {
      var p := steps[i].pid;
      assert Next(states[i], steps[i]) == Some(states[i + 1]);
      if (steps[i].Remove? || steps[i].Unlink?) && p in states[i].live && AboutToRemove(states[i].live[p]) {
        OnlyLastMoverRemoves(states, steps, i, p);
      }
    }
    UndisturbedRecoveryExcludes(states, steps);
  }

  // ----- or the remover looks again

  /** What a process can check: at the moment of removal, a truthful inspection of its own does not refuse. */
  ghost predicate RecheckedAt(s: State, step: Step) {
    Clears(s, step) ==>
      exists a: Answers :: Truthful(s, Inspect(step.pid, a)) && Inspected(s.dir, a) != Refused
  }

  /** Removing only after such a second look excludes, however stale the first inspection has become. */
  lemma RecheckedRecoveryExcludes(states: seq<State>, steps: seq<Step>)
    requires IsRun(states, steps) && Initial(states[0])
    requires forall i | 0 <= i < |steps| :: RecheckedAt(states[i], steps[i])
    ensures SparesLiveOwners(states, steps)
    ensures forall i | 0 <= i < |states| :: AtMostOneOwner(states[i])
  {
    hide AtMostOneOwner, HasLiveOwner, RecheckedAt;
    forall i | 0 <= i < |steps| && Clears(states[i], steps[i])
      ensures !HasLiveOwner(states[i])
    {
      RecheckedRunSpares(states, steps, i);
    }
    MutualExclusion(states, steps);
  }

  lemma {:induction false} RecheckedRunSpares(states: seq<State>, steps: seq<Step>, i: nat)
    requires IsRun(states, steps) && Initial(states[0])
    requires forall k | 0 <= k < |steps| :: RecheckedAt(states[k], steps[k])
    requires i < |steps| && Clears(states[i], steps[i])
    ensures !HasLiveOwner(states[i])
    decreases i
  {
    hide HasLiveOwner, OwnersInPlace, Truthful;
    forall k | 0 <= k < i && Clears(states[k], steps[k])
      ensures !HasLiveOwner(states[k])
    {
      RecheckedRunSpares(states, steps, k);
    }
    RunKeepsOwners(states, steps, i);
    assert RecheckedAt(states[i], steps[i]);
    assert Next(states[i], steps[i]) == Some(states[i + 1]);
    if HasLiveOwner(states[i]) {
      var a: Answers :| Truthful(states[i], Inspect(steps[i].pid, a)) && Inspected(states[i].dir, a) != Refused;
      InspectionSparesLiveOwner(states[i], steps[i].pid, a);
    }
  }

  // ----- the condition is needed

  const STALE := Present(1, 0, Some(1))
  const NOBODY := Answers(false, false, true)

  ghost predicate RunsTo(states: seq<State>, steps: seq<Step>, last: State) {
    IsRun(states, steps) && TruthfulRun(states, steps) && Initial(states[0]) && states[|steps|] == last
  }

  /** Two processes condemn the directory of a process that died. */
  lemma BothCondemn() returns (states: seq<State>, steps: seq<Step>)
    ensures RunsTo(states, steps, State(map[2 := Removing(0), 3 := Removing(0)], STALE, 1))
    ensures |steps| == 4
  {
    hide RunsTo;
    var s0 := State(map[], STALE, 1);
    var s1 := State(map[2 := Idle], STALE, 1);
    var s2 := State(map[2 := Idle, 3 := Idle], STALE, 1);
    var s3 := State(map[2 := Removing(0), 3 := Idle], STALE, 1);
    var s4 := State(map[2 := Removing(0), 3 := Removing(0)], STALE, 1);
    states, steps := [s0], [];
    StartsHere(s0);
    states, steps := Extended(states, steps, s0, Start(2), s1);
    states, steps := Extended(states, steps, s1, Start(3), s2);
    states, steps := Extended(states, steps, s2, Inspect(2, NOBODY), s3);
    states, steps := Extended(states, steps, s3, Inspect(3, NOBODY), s4);
  }

  /** The first of them has replaced it by its own; the second has still to remove. */
  lemma SecondRemovalPending() returns (states: seq<State>, steps: seq<Step>)
    ensures RunsTo(states, steps, State(map[2 := Holding, 3 := Removing(0)], Present(2, 1, Some(2)), 2))
    ensures |steps| == 8
  {
    hide RunsTo;
    var s4 := State(map[2 := Removing(0), 3 := Removing(0)], STALE, 1);
    var r5 := State(map[2 := Recovered, 3 := Removing(0)], Absent, 1);
    var s5 := State(map[2 := Ready, 3 := Removing(0)], Absent, 1);
    var s6 := State(map[2 := Created, 3 := Removing(0)], Present(2, 1, None), 2);
    var s7 := State(map[2 := Holding, 3 := Removing(0)], Present(2, 1, Some(2)), 2);
    states, steps := BothCondemn();
    states, steps := Extended(states, steps, s4, Remove(2), r5);
    states, steps := Extended(states, steps, r5, InspectFile(2, false), s5);
    states, steps := Extended(states, steps, s5, Create(2), s6);
    states, steps := Extended(states, steps, s6, WriteOwner(2, false), s7);
  }

  lemma StartsHere(s: State)
    requires Initial(s)
    ensures RunsTo([s], [], s)
  {
  }

  lemma Extended(states: seq<State>, steps: seq<Step>, last: State, step: Step, next: State)
    returns (states': seq<State>, steps': seq<Step>)
    requires RunsTo(states, steps, last) && Truthful(last, step)
    requires var n := Next(last, step);
             n.Some? && n.value.live == next.live && n.value.dir == next.dir && n.value.created == next.created
    ensures RunsTo(states', steps', next) && states' == states + [next] && steps' == steps + [step]
  {
    hide Next, Truthful;
    states', steps' := states + [next], steps + [step];
  }

  /**
   As the calls really are, two file-system operations apart, truthful probes alone do not exclude two holders:
   the second removal hits the first process's new directory.
   */
  lemma TwoHoldersWithoutAtomicity() returns (states: seq<State>, steps: seq<Step>)
    ensures IsRun(states, steps) && TruthfulRun(states, steps) && Initial(states[0]) && |states| == 13
    ensures InPhase(states[12], 2, Holding) && InPhase(states[12], 3, Holding)
    ensures steps[8] == Remove(3) && InPhase(states[8], 2, Holding) && !HitsInspected(states[8], steps[8])
    ensures !AtMostOneOwner(states[11]) && !SparesLiveOwners(states, steps)
  {
    states, steps := SecondRemovalPending();
    var s7 := states[8];
    var r8 := State(map[2 := Holding, 3 := Recovered], Absent, 2);
    var s8 := State(map[2 := Holding, 3 := Ready], Absent, 2);
    var s9 := State(map[2 := Holding, 3 := Created], Present(3, 2, None), 3);
    var s10 := State(map[2 := Holding, 3 := Holding], Present(3, 2, Some(3)), 3);
    states, steps := Extended(states, steps, s7, Remove(3), r8);
    states, steps := Extended(states, steps, r8, InspectFile(3, false), s8);
    states, steps := Extended(states, steps, s8, Create(3), s9);
    states, steps := Extended(states, steps, s9, WriteOwner(3, false), s10);
  }

  /** Two processes condemn an older release's lock file. */
  lemma BothCondemnFile() returns (states: seq<State>, steps: seq<Step>)
    ensures RunsTo(states, steps, State(map[2 := Unlinking, 3 := Unlinking], LegacyFile, 1))
    ensures |steps| == 6
  {
    hide RunsTo;
    var s0 := State(map[], LegacyFile, 1);
    var s1 := State(map[2 := Idle], LegacyFile, 1);
    var s2 := State(map[2 := Idle, 3 := Idle], LegacyFile, 1);
    var s3 := State(map[2 := Recovered, 3 := Idle], LegacyFile, 1);
    var s4 := State(map[2 := Recovered, 3 := Recovered], LegacyFile, 1);
    var s5 := State(map[2 := Unlinking, 3 := Recovered], LegacyFile, 1);
    var s6 := State(map[2 := Unlinking, 3 := Unlinking], LegacyFile, 1);
    states, steps := [s0], [];
    StartsHere(s0);
    states, steps := Extended(states, steps, s0, Start(2), s1);
    states, steps := Extended(states, steps, s1, Start(3), s2);
    states, steps := Extended(states, steps, s2, Inspect(2, NOBODY), s3);
    states, steps := Extended(states, steps, s3, Inspect(3, NOBODY), s4);
    states, steps := Extended(states, steps, s4, InspectFile(2, false), s5);
    states, steps := Extended(states, steps, s5, InspectFile(3, false), s6);
  }

  /** The removal meant for the file is about to hit the first process's directory, empty as yet. */
  lemma SecondUnlinkPending() returns (states: seq<State>, steps: seq<Step>)
    ensures RunsTo(states, steps, State(map[2 := Created, 3 := Unlinking], Present(2, 1, None), 2))
    ensures |steps| == 8
  {
    hide RunsTo;
    var s6 := State(map[2 := Unlinking, 3 := Unlinking], LegacyFile, 1);
    var s7 := State(map[2 := Ready, 3 := Unlinking], Absent, 1);
    var s8 := State(map[2 := Created, 3 := Unlinking], Present(2, 1, None), 2);
    states, steps := BothCondemnFile();
    states, steps := Extended(states, steps, s6, Unlink(2), s7);
    states, steps := Extended(states, steps, s7, Create(2), s8);
  }

  lemma BothCreated() returns (states: seq<State>, steps: seq<Step>)
    ensures RunsTo(states, steps, State(map[2 := Created, 3 := Created], Present(3, 2, None), 3))
    ensures |steps| == 10 && |states| == 11 && steps[8] == Unlink(3) && InPhase(states[8], 2, Created)
  {
    var s8 := State(map[2 := Created, 3 := Unlinking], Present(2, 1, None), 2);
    states, steps := SecondUnlinkPending();
    assert states[8] == s8 && |states| == 9;
    hide RunsTo;
    var s9 := State(map[2 := Created, 3 := Ready], Absent, 2);
    var s10 := State(map[2 := Created, 3 := Created], Present(3, 2, None), 3);
    states, steps := Extended(states, steps, s8, Unlink(3), s9);
    states, steps := Extended(states, steps, s9, Create(3), s10);
  }

  lemma BothWriteTheirPid() returns (states: seq<State>, steps: seq<Step>)
    ensures RunsTo(states, steps, State(map[2 := Holding, 3 := Holding], Present(3, 2, Some(3)), 3))
    ensures |steps| == 12 && |states| == 13 && steps[8] == Unlink(3) && InPhase(states[8], 2, Created)
  {
    hide RunsTo;
    var s10 := State(map[2 := Created, 3 := Created], Present(3, 2, None), 3);
    var s11 := State(map[2 := Holding, 3 := Created], Present(3, 2, Some(2)), 3);
    var s12 := State(map[2 := Holding, 3 := Holding], Present(3, 2, Some(3)), 3);
    states, steps := BothCreated();
    states, steps := Extended(states, steps, s10, WriteOwner(2, false), s11);
    states, steps := Extended(states, steps, s11, WriteOwner(3, false), s12);
  }

  /**
   The same through an older release's lock file: the second removal takes the first process's directory away
   while it is still empty, and both write their pid into the second one's.
   */
  lemma TwoHoldersThroughLegacyFile() returns (states: seq<State>, steps: seq<Step>)
    ensures IsRun(states, steps) && TruthfulRun(states, steps) && Initial(states[0]) && |states| == 13
    ensures InPhase(states[12], 2, Holding) && InPhase(states[12], 3, Holding)
    ensures steps[8] == Unlink(3) && InPhase(states[8], 2, Created)
  {
    states, steps := BothWriteTheirPid();
  }

  // ----- recovery gets through

  /** recover_existing_lock_directory by one process without interruption. */
  function DirectoryRecovered(s: State, p: Pid, a: Answers): (t: State)
    requires InPhase(s, p, Idle)
    ensures InPhase(t, p, Refused) || InPhase(t, p, Recovered)
  {
    var s1 := Next(s, Inspect(p, a)).value;
    if s1.live[p].Removing? then Next(s1, Remove(p)).value else s1
  }

  /** recover_legacy_lock_file by one process without interruption. */
  function FileRecovered(s: State, p: Pid, locked: bool): (t: State)
    requires InPhase(s, p, Recovered)
    ensures InPhase(t, p, Refused) || InPhase(t, p, Ready)
  {
    var s1 := Next(s, InspectFile(p, locked)).value;
    if s1.live[p].Unlinking? then Next(s1, Unlink(p)).value else s1
  }

  function CreatedAndWritten(s: State, p: Pid, writeFails: bool): State
    requires InPhase(s, p, Ready)
  {
    var s1 := Next(s, Create(p)).value;
    if s1.live[p].Refused? then s1 else Next(s1, WriteOwner(p, writeFails)).value
  }

  /** The constructor run by one process without interruption, ending where it stops. */
  function AcquireAlone(s: State, p: Pid, a: Answers, locked: bool, writeFails: bool): State
    requires InPhase(s, p, Idle)
  {
    var s1 := DirectoryRecovered(s, p, a);
    if s1.live[p].Refused? then s1
    else
      var s2 := FileRecovered(s1, p, locked);
      if s2.live[p].Refused? then s2 else CreatedAndWritten(s2, p, writeFails)
  }

  /** Only p has moved. */
  ghost predicate OthersUnmoved(s: State, t: State, p: Pid) {
    forall q | q != p :: (q in t.live <==> q in s.live) && (q in s.live ==> t.live[q] == s.live[q])
  }

  /** What keeps an undisturbed process out: a live owner, a recent ownerless directory with peers, a flocked file. */
  predicate TurnsAway(dir: LockPath, a: Answers, locked: bool) {
    match dir
    case Absent => false
    case LegacyFile => locked
    case Present(_, _, owner) => if owner.Some? then a.ownerAlive else a.recent && a.peer
  }

  lemma RecoveringAlone(s: State, p: Pid, a: Answers, locked: bool)
    requires InPhase(s, p, Idle)
    ensures var s1 := DirectoryRecovered(s, p, a);
            && OthersUnmoved(s, s1, p) && s1.created == s.created
            && (s1.live[p].Refused? ==> TurnsAway(s.dir, a, locked) && s1.dir == s.dir)
            && (!s1.live[p].Refused? ==> if s.dir.LegacyFile? then s1.dir.LegacyFile? else s1.dir.Absent?)
            && (!s1.live[p].Refused? ==> (TurnsAway(s.dir, a, locked) <==> s.dir.LegacyFile? && locked))
  {
  }

  lemma RecoveringFileAlone(s: State, p: Pid, locked: bool)
    requires InPhase(s, p, Recovered) && !s.dir.Present?
    ensures var s1 := FileRecovered(s, p, locked);
            && OthersUnmoved(s, s1, p) && s1.created == s.created
            && (s1.live[p].Refused? <==> s.dir.LegacyFile? && locked)
            && s1.dir == if s1.live[p].Refused? then s.dir else Absent
  {
  }

  lemma CreatingAlone(s: State, p: Pid, writeFails: bool)
    requires InPhase(s, p, Ready) && s.dir.Absent?
    ensures var s1 := CreatedAndWritten(s, p, writeFails);
            && OthersUnmoved(s, s1, p)
            && InPhase(s1, p, if writeFails then Refused else Holding)
            && s1.dir == if writeFails then Absent else Present(p, s.created, Some(p))
  {
  }

  /**
   Alone, a process acquires the lock exactly when nothing there turns it away and the owner file can be written:
   a directory whose owner is dead, an ownerless one that is old or without running peers, and an unlocked legacy
   file are recovered.
   */
  lemma AcquireAloneIff(s: State, p: Pid, a: Answers, locked: bool, writeFails: bool)
    requires InPhase(s, p, Idle)
    ensures var t := AcquireAlone(s, p, a, locked, writeFails);
            && (InPhase(t, p, Holding) <==> !writeFails && !TurnsAway(s.dir, a, locked))
            && (InPhase(t, p, Holding) ==> t.dir == Present(p, s.created, Some(p)))
            && (TurnsAway(s.dir, a, locked) ==> t.dir == s.dir)
            && (!TurnsAway(s.dir, a, locked) && writeFails ==> t.dir.Absent?)
            && OthersUnmoved(s, t, p)
  {
    hide DirectoryRecovered, FileRecovered, CreatedAndWritten, TurnsAway;
    var s1 := DirectoryRecovered(s, p, a);
    RecoveringAlone(s, p, a, locked);
    if !s1.live[p].Refused? {
      var s2 := FileRecovered(s1, p, locked);
      RecoveringFileAlone(s1, p, locked);
      if !s2.live[p].Refused? {
        CreatingAlone(s2, p, writeFails);
      }
    }
  }

  /** The file system as one process sees it between two of its own calls. */
  class LockWorld {
    var state: State

    constructor (state: State)
      ensures this.state == state
    {
      this.state := state;
    }
  }

  class TargetFileLock {
    const world: LockWorld
    const pid: Pid
    var acquired: bool

    constructor (world: LockWorld, pid: Pid)
      ensures this.world == world && this.pid == pid && !acquired
    {
      this.world, this.pid, acquired := world, pid, false;
    }

    /** recover_existing_lock_directory; false stands for the exception. */
    method RecoverDirectory(a: Answers) returns (ok: bool)
      requires InPhase(world.state, pid, Idle)
      modifies world
      ensures world.state == DirectoryRecovered(old(world.state), pid, a)
      ensures ok == !InPhase(world.state, pid, Refused)
    {
      world.state := Next(world.state, Inspect(pid, a)).value;
      if world.state.live[pid].Refused? {
        return false;
      }
      if world.state.live[pid].Removing? {
        world.state := Next(world.state, Remove(pid)).value;
      }
      return true;
    }

    /** recover_legacy_lock_file */
    method RecoverFile(locked: bool) returns (ok: bool)
      requires InPhase(world.state, pid, Recovered)
      modifies world
      ensures world.state == FileRecovered(old(world.state), pid, locked)
      ensures ok == !InPhase(world.state, pid, Refused)
    {
      world.state := Next(world.state, InspectFile(pid, locked)).value;
      if world.state.live[pid].Refused? {
        return false;
      }
      if world.state.live[pid].Unlinking? {
        world.state := Next(world.state, Unlink(pid)).value;
      }
      return !world.state.live[pid].Refused?;
    }

    /** The lock's constructor body; false stands for the exception. */
    method Acquire(a: Answers, locked: bool, writeFails: bool) returns (ok: bool)
      requires InPhase(world.state, pid, Idle) && !acquired
      modifies this, world
      ensures world.state == AcquireAlone(old(world.state), pid, a, locked, writeFails)
      ensures ok == acquired == InPhase(world.state, pid, Holding)
    {
      hide DirectoryRecovered, FileRecovered;
      var directoryRecovered := RecoverDirectory(a);
      if !directoryRecovered {
        return false;
      }
      var fileRecovered := RecoverFile(locked);
      if !fileRecovered {
        return false;
      }
      world.state := Next(world.state, Create(pid)).value;
      if world.state.live[pid].Refused? {
        return false;
      }
      world.state := Next(world.state, WriteOwner(pid, writeFails)).value;
      acquired := world.state.live[pid].Holding?;
      return acquired;
    }

    /** The destructor body: a lock that was never acquired removes nothing. */
    method Release()
      requires acquired ==> InPhase(world.state, pid, Holding)
      modifies this, world
      ensures !old(acquired) ==> world.state == old(world.state)
      ensures old(acquired) ==> world.state == Move(old(world.state), pid, Idle).(dir := Absent)
      ensures !acquired
    {
      if !acquired {
        return;
      }
      world.state := Next(world.state, BeginRelease(pid)).value;
      world.state := Next(world.state, EndRelease(pid)).value;
      acquired := false;
    }
  }
}
