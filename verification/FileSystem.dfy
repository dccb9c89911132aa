/**
 The files of one download target, and the trail of states the disk passes through.

 A crash can leave any state of the trail behind, so what has to survive a crash is proved of every state
 in it. A write adds one state for every byte that reaches the disk.
 */
module FileSystem {
  /**
   The four files a run reads or writes for a target: the finished file, its ".part", its ".part.meta" and
   its ".replace-backup". Targets.PathsNeverCollide shows that these are different paths.
   */
  datatype Slot = Output | Part | Meta | Backup

  type Bytes = string
  type Files = map<Slot, Bytes>

  /** Every state of the disk so far, the current one last. */
  type Trail = t: seq<Files> | t != [] witness [map[]]

  function Now(t: Trail): Files {
    t[|t| - 1]
  }

  function Removed(t: Trail, s: Slot): Trail {
    t + [Now(t) - {s}]
  }

  function Renamed(t: Trail, from: Slot, to: Slot): Trail
    requires from in Now(t)
  {
    t + [(Now(t) - {from})[to := Now(t)[from]]]
  }

  /** Opening for writing from the start. */
  function Truncated(t: Trail, s: Slot): Trail {
    t + [Now(t)[s := ""]]
  }

  /** Opening for appending. */
  function OpenedAtEnd(t: Trail, s: Slot): Trail {
    if s in Now(t) then t else Truncated(t, s)
  }

  function Appended(t: Trail, s: Slot, b: Bytes): (r: Trail)
    requires s in Now(t)
    ensures |r| == |t| + |b| && t <= r
    ensures forall i | |t| <= i < |r| :: r[i] == Now(t)[s := Now(t)[s] + b[..i - |t| + 1]]
    ensures Now(r) == Now(t)[s := Now(t)[s] + b]
  {
    var f := Now(t);
    var r := t + seq(|b|, k requires 0 <= k < |b| => f[s := f[s] + b[..k + 1]]);
    assert b != "" ==> b[..|b| - 1 + 1] == b;
    assert b == "" ==> f[s] + b == f[s] && f[s := f[s] + b] == f;
    r
  }

  /** Losing the tail of a file: what a failed flush does to bytes that were only buffered. */
  function Shortened(t: Trail, s: Slot, size: nat): Trail
    requires s in Now(t) && size <= |Now(t)[s]|
  {
    t + [Now(t)[s := Now(t)[s][..size]]]
  }

  /** safe_remove, which fails without a word: then the file stays. */
  function RemovedUnless(t: Trail, s: Slot, kept: bool): Trail {
    if kept then t else Removed(t, s)
  }

  /** Which of its two files a removal of the partial state leaves behind. */
  datatype Kept = Kept(part: bool, meta: bool)

  const NOTHING_KEPT := Kept(false, false)

  /** remove_partial_state: first the data, then the record that describes it. */
  function PartialRemoved(t: Trail, kept: Kept): Trail {
    RemovedUnless(RemovedUnless(t, Part, kept.part), Meta, kept.meta)
  }

  /** The record is never missing while the data it describes is still there, unless the data could not be removed. */
  lemma DataGoesFirst(t: Trail, kept: Kept)
    requires Meta in Now(t) && !kept.part
    ensures var r := PartialRemoved(t, kept);
            t <= r && forall i | |t| <= i < |r| && Part in r[i] :: Meta in r[i]
    ensures Now(PartialRemoved(t, NOTHING_KEPT)) == Now(t) - {Part, Meta}
  {
    assert Now(t) - {Part} - {Meta} == Now(t) - {Part, Meta};
  }

  /** The disk as the program updates it. */
  class Disk {
    var files: Files
    ghost var trail: Trail

    ghost predicate Valid()
      reads this
    {
      files == Now(trail)
    }

    constructor (initial: Files)
      ensures Valid() && trail == [initial]
    {
      files := initial;
      trail := [initial];
    }

    /** safe_remove */
    method Remove(s: Slot, kept: bool)
      requires Valid()
      modifies this
      ensures Valid() && trail == RemovedUnless(old(trail), s, kept)
    {
      if !kept {
        files := files - {s};
        trail := Removed(trail, s);
      }
    }

    method Rename(from: Slot, to: Slot)
      requires Valid() && from in files
      modifies this
      ensures Valid() && trail == Renamed(old(trail), from, to)
    {
      files := (files - {from})[to := files[from]];
      trail := Renamed(trail, from, to);
    }

    method Truncate(s: Slot)
      requires Valid()
      modifies this
      ensures Valid() && trail == Truncated(old(trail), s)
    {
      files := files[s := ""];
      trail := Truncated(trail, s);
    }

    method OpenAtEnd(s: Slot)
      requires Valid()
      modifies this
      ensures Valid() && trail == OpenedAtEnd(old(trail), s)
    {
      if s !in files {
        Truncate(s);
      }
    }

    method Append(s: Slot, b: Bytes)
      requires Valid() && s in files
      modifies this
      ensures Valid() && trail == Appended(old(trail), s, b)
    {
      files := files[s := files[s] + b];
      trail := Appended(trail, s, b);
    }

    method Shorten(s: Slot, size: nat)
      requires Valid() && s in files && size <= |files[s]|
      modifies this
      ensures Valid() && trail == Shortened(old(trail), s, size)
    {
      files := files[s := files[s][..size]];
      trail := Shortened(trail, s, size);
    }

    method RemovePartialState(kept: Kept)
      requires Valid()
      modifies this
      ensures Valid() && trail == PartialRemoved(old(trail), kept)
    {
      Remove(Part, kept.part);
      Remove(Meta, kept.meta);
    }
  }
}
