/**
 Putting a finished ".part" in place of the output (safe_replace_file in utils.cpp).
 */
module SafeReplace {
  import opened FileSystem

  /** Which rename throws, and whether the rename that rolls back then fails as well. */
  datatype RenameFault =
    | RenamesWork
    | FirstRenameThrows
    | SecondRenameThrows(rollbackFails: bool)

  /** What fails: a rename, or without a word the removal of an older backup or of the one just made. */
  datatype Fault = Fault(rename: RenameFault, keepsStale: bool, keepsOld: bool)

  const NO_FAULT := Fault(RenamesWork, false, false)

  predicate RollbackFails(fault: Fault) {
    fault.rename.SecondRenameThrows? && fault.rename.rollbackFails
  }

  /** The trail after safe_replace_file(part, output), and whether it threw. */
  function Replaced(t: Trail, fault: Fault): (Trail, bool) {
    if Output !in Now(t) then
      if fault.rename.FirstRenameThrows? || Part !in Now(t) then (t, true)
      else (Renamed(t, Part, Output), false)
    else
      var noBackup := RemovedUnless(t, Backup, fault.keepsStale);
      if fault.rename.FirstRenameThrows? then (noBackup, true)
      else
        var moved := Renamed(noBackup, Output, Backup);
        if fault.rename.SecondRenameThrows? || Part !in Now(t) then
          if RollbackFails(fault) then (moved, true)
          else (Removed(Renamed(moved, Backup, Output), Backup), true)
        else (RemovedUnless(Renamed(moved, Part, Output), Backup, fault.keepsOld), false)
  }

  method SafeReplaceFile(disk: Disk, fault: Fault) returns (threw: bool)
    requires disk.Valid()
    modifies disk
    ensures disk.Valid()
    ensures (disk.trail, threw) == Replaced(old(disk.trail), fault)
  {
    if Output !in disk.files {
      if fault.rename.FirstRenameThrows? || Part !in disk.files {
        return true;
      }
      disk.Rename(Part, Output);
      return false;
    }
    disk.Remove(Backup, fault.keepsStale);
    if fault.rename.FirstRenameThrows? {
      return true;
    }
    disk.Rename(Output, Backup);
    if fault.rename.SecondRenameThrows? || Part !in disk.files {
      var restored := false;
      if Output !in disk.files && !RollbackFails(fault) {
        disk.Rename(Backup, Output);
        restored := true;
      }
      if restored {
        disk.Remove(Backup, false);
      }
      return true;
    }
    disk.Rename(Part, Output);
    disk.Remove(Backup, fault.keepsOld);
    return false;
  }

  /** A complete file is at the destination or, failing that, at its backup. */
  ghost predicate Available(f: Files, complete: set<Bytes>) {
    (Output in f && f[Output] in complete) || (Backup in f && f[Backup] in complete)
  }

  /** The same, with an incomplete destination ruled out: what replacement relies on. */
  ghost predicate Settled(f: Files, complete: set<Bytes>) {
    if Output in f then f[Output] in complete else Backup in f && f[Backup] in complete
  }

  /** One step of replacement never gives up a complete file, at whatever point it stops. */
  lemma ReplaceStaysSettled(t: Trail, fault: Fault, complete: set<Bytes>)
    requires Settled(Now(t), complete)
    requires Part in Now(t) ==> Now(t)[Part] in complete
    ensures var r := Replaced(t, fault).0;
            t <= r && forall i | |t| <= i < |r| :: Settled(r[i], complete)
  {
  }

  /**
   Starting with a complete file somewhere, every state of a replacement has one exactly when the destination
   does not hold an incomplete file, or nothing is moved at all: the backup is removed, or at the latest replaced,
   before the new bytes arrive.
   */
  lemma ReplaceNeverLosesIff(t: Trail, fault: Fault, complete: set<Bytes>)
    requires Available(Now(t), complete)
    requires Part in Now(t) && Now(t)[Part] in complete
    ensures (forall i | |t| <= i < |Replaced(t, fault).0| :: Available(Replaced(t, fault).0[i], complete)) <==>
            || (Output in Now(t) ==> Now(t)[Output] in complete)
            || (fault.keepsStale && fault.rename.FirstRenameThrows?)
  {
    var r := Replaced(t, fault).0;
    if Output in Now(t) ==> Now(t)[Output] in complete {
      ReplaceStaysSettled(t, fault, complete);
    } else if !fault.keepsStale {
      assert r[|t|] == Now(t) - {Backup};
      assert !Available(r[|t|], complete);
    } else if !fault.rename.FirstRenameThrows? {
      assert r[|t|] == (Now(t) - {Output})[Backup := Now(t)[Output]];
      assert !Available(r[|t|], complete);
    }
  }

  /** The failing case is real: a stale good backup beside a bad destination is dropped before the rename. */
  lemma BadDestinationLosesBackup()
    ensures var f := map[Output := "torn", Backup := "whole", Part := "whole"];
            Available(f, {"whole"}) && !Available(Replaced([f], NO_FAULT).0[1], {"whole"})
  {
  }

  /** What a replacement that returns has done; it leaves the old bytes as backup if removing them fails. */
  lemma ReplaceSucceeds(t: Trail, fault: Fault)
    requires !Replaced(t, fault).1
    ensures Part in Now(t)
    ensures var f, g := Now(t), Now(Replaced(t, fault).0);
            && Output in g && g[Output] == f[Part] && Part !in g
            && (Meta in g <==> Meta in f) && (Meta in f ==> g[Meta] == f[Meta])
            && (Output in f ==> if fault.keepsOld then Backup in g && g[Backup] == f[Output] else Backup !in g)
            && (Output !in f ==> (Backup in g <==> Backup in f) && (Backup in f ==> g[Backup] == f[Backup]))
  {
  }

  /** A replacement that throws leaves the old bytes in place and the new ones in ".part", unless rolling back fails. */
  lemma ReplaceFailureRestores(t: Trail, fault: Fault)
    requires Replaced(t, fault).1
    ensures var f, g := Now(t), Now(Replaced(t, fault).0);
            && g - {Output, Backup} == f - {Output, Backup}
            && (if Output in f && RollbackFails(fault)
                then Output !in g && Backup in g && g[Backup] == f[Output]
                else (Output in g <==> Output in f) && (Output in f ==> g[Output] == f[Output]))
  {
  }

  // ----- repeated replacement with crashes

  /** A later download leaves new content in ".part", replacement starts, and may stop at any state it reached. */
  datatype Round = Round(content: Bytes, fault: Fault, stop: nat)

  function AfterRound(f: Files, round: Round): Files {
    var trail := Replaced([f[Part := round.content]], round.fault).0;
    if round.stop < |trail| then trail[round.stop] else Now(trail)
  }

  function AfterRounds(f: Files, rounds: seq<Round>): Files
    decreases |rounds|
  {
    if rounds == [] then f else AfterRounds(AfterRound(f, rounds[0]), rounds[1..])
  }

  /** However often replacement is repeated, interrupted or made to throw, a complete file stays available. */
  lemma {:induction false} RoundsNeverLoseTheFile(f: Files, rounds: seq<Round>, complete: set<Bytes>)
    requires Settled(f, complete)
    requires forall i | 0 <= i < |rounds| :: rounds[i].content in complete
    ensures Settled(AfterRounds(f, rounds), complete) && Available(AfterRounds(f, rounds), complete)
    decreases |rounds|
  {
    if rounds != [] {
      var start := f[Part := rounds[0].content];
      ReplaceStaysSettled([start], rounds[0].fault, complete);
      RoundsNeverLoseTheFile(AfterRound(f, rounds[0]), rounds[1..], complete);
    }
  }
}
