/**
 * What a sequence of writes and rotations does to the log as a whole:
 * nothing written is lost or duplicated across a rotation. Every byte
 * written ends up, in write order, in the archives the rotations made
 * followed by the current log file.
 */
module RotationLog {
  import opened Wrappers
  import opened FileSystem
  import opened RotateWriter

  /** A call on the writer, taken to succeed. */
  datatype Event = Wrote(data: seq<Byte>) | Rotated(timestamp: string)

  /** The handle the writer holds on `filename` between rotations. */
  function OpenHandle(filename: Path): (h: Option<Handle>) {
    Some(Handle(filename, false))
  }

  /** The files after one successful call. */
  function Step(filename: Path, files: Files, e: Event): (r: Files)
    requires filename in files
    ensures filename in r
  {
    match e
    case Wrote(d) => WriteSpec(OpenHandle(filename), files, d, NoWriteFault).files
    case Rotated(t) => RotateSpec(OpenHandle(filename), filename, files, t, NoFaults).files
  }

  /** The files after `trace`, starting with `filename` open and no call failing. */
  function Replay(filename: Path, files: Files, trace: seq<Event>): (r: Files)
    requires filename in files
    ensures filename in r
    decreases |trace|
  {
    if trace == [] then files
    else Replay(filename, Step(filename, files, trace[0]), trace[1..])
  }

  /** All bytes written in `trace`, in order. */
  function Written(trace: seq<Event>): (w: seq<Byte>)
    decreases |trace|
  {
    if trace == [] then []
    else (if trace[0].Wrote? then trace[0].data else []) + Written(trace[1..])
  }

  /** The archive name each rotation in `trace` uses, in order. */
  function ArchiveNames(filename: Path, trace: seq<Event>): (r: seq<Path>)
    ensures forall i :: 0 <= i < |r| ==> |r[i]| > |filename|
    decreases |trace|
  {
    if trace == [] then []
    else (if trace[0].Rotated? then [BackupName(filename, trace[0].timestamp)] else []) + ArchiveNames(filename, trace[1..])
  }

  /** The contents of `p`, or nothing when it is absent. */
  function Content(files: Files, p: Path): (c: seq<Byte>) {
    if p in files then files[p] else []
  }

  /** The contents of the files named in `names`, in order. */
  function Archived(files: Files, names: seq<Path>): (a: seq<Byte>)
    decreases |names|
  {
    if names == [] then [] else Content(files, names[0]) + Archived(files, names[1..])
  }

  /** Archived only looks at the named paths. */
  lemma {:induction false} ArchivedFrame(a: Files, b: Files, names: seq<Path>)
    requires forall i :: 0 <= i < |names| ==> Agree(a, b, names[i])
    ensures Archived(a, names) == Archived(b, names)
    decreases |names|
  {
    if names != [] {
      assert Agree(a, b, names[0]);
      ArchivedFrame(a, b, names[1..]);
    }
  }

  /** A replay touches only the log file and the archive names its rotations use. */
  lemma {:induction false} ReplayFrame(filename: Path, files: Files, trace: seq<Event>, p: Path)
    requires filename in files
    requires p != filename && p !in ArchiveNames(filename, trace)
    ensures Agree(files, Replay(filename, files, trace), p)
    decreases |trace|
  {
    if trace != [] {
      var next := Step(filename, files, trace[0]);
      assert ArchiveNames(filename, trace) ==
        (if trace[0].Rotated? then [BackupName(filename, trace[0].timestamp)] else []) + ArchiveNames(filename, trace[1..]);
      assert Agree(files, next, p);
      ReplayFrame(filename, next, trace[1..], p);
    }
  }

  /** The archive names are pairwise distinct and none exists at the start. */
  predicate FreshNames(files: Files, names: seq<Path>) {
    && (forall i, j :: 0 <= i < j < |names| ==> names[i] != names[j])
    && (forall i :: 0 <= i < |names| ==> names[i] !in files)
  }

  /** A write keeps the archive names fresh and appends to the log file. */
  lemma WroteStep(filename: Path, files: Files, d: seq<Byte>, names: seq<Path>)
    requires filename in files
    requires FreshNames(files, names)
    requires forall i :: 0 <= i < |names| ==> |names[i]| > |filename|
    ensures var next := Step(filename, files, Wrote(d));
      FreshNames(next, names) && next[filename] == files[filename] + d
  {
  }

  /**
   * A rotation under a fresh archive name keeps the other names fresh,
   * empties the log file, and leaves the old contents under the archive
   * name, or nothing there when the log file was empty.
   */
  lemma RotatedStep(filename: Path, files: Files, t: string, names: seq<Path>)
    requires filename in files
    requires FreshNames(files, [BackupName(filename, t)] + names)
    requires forall i :: 0 <= i < |names| ==> |names[i]| > |filename|
    ensures var next := Step(filename, files, Rotated(t));
      && FreshNames(next, names) && next[filename] == []
      && BackupName(filename, t) !in names
      && Content(next, BackupName(filename, t)) == files[filename]
  {
    var b := BackupName(filename, t);
    var all := [b] + names;
    var next := Step(filename, files, Rotated(t));
    forall i | 0 <= i < |names|
      ensures names[i] !in next && names[i] != b
    {
      assert all[i + 1] == names[i] && all[0] == b;
      assert Agree(files, next, names[i]);
    }
    assert forall i, j :: 0 <= i < j < |names| ==> all[i + 1] == names[i] && all[j + 1] == names[j];
    assert all[0] == b;
    if !Archives(filename, files, false) {
      assert Agree(files, next, b);
    }
  }

  /** The claim of NothingLost for `trace`. */
  predicate Conserved(filename: Path, files: Files, trace: seq<Event>)
    requires filename in files
  {
    var after := Replay(filename, files, trace);
    Archived(after, ArchiveNames(filename, trace)) + after[filename] == files[filename] + Written(trace)
  }

  /** Prepending the archive `b` to the names prepends its contents to what is archived. */
  lemma ArchivedCons(after: Files, filename: Path, b: Path, names: seq<Path>, x: seq<Byte>, w: seq<Byte>)
    requires filename in after
    requires Content(after, b) == x
    requires Archived(after, names) + after[filename] == w
    ensures Archived(after, [b] + names) + after[filename] == x + w
  {
  }

  /** A write in front of a trace that conserves the log keeps it conserved. */
  lemma ConservedWrote(filename: Path, files: Files, d: seq<Byte>, rest: seq<Event>)
    requires filename in files
    requires Conserved(filename, Step(filename, files, Wrote(d)), rest)
    ensures Conserved(filename, files, [Wrote(d)] + rest)
  {
    var trace := [Wrote(d)] + rest;
    assert trace[1..] == rest;
    assert ArchiveNames(filename, trace) == ArchiveNames(filename, rest);
    assert Written(trace) == d + Written(rest);
  }

  /** A rotation under a fresh name in front of a trace that conserves the log keeps it conserved. */
  lemma ConservedRotated(filename: Path, files: Files, t: string, rest: seq<Event>)
    requires filename in files
    requires FreshNames(files, [BackupName(filename, t)] + ArchiveNames(filename, rest))
    requires Conserved(filename, Step(filename, files, Rotated(t)), rest)
    ensures Conserved(filename, files, [Rotated(t)] + rest)
  {
    var trace := [Rotated(t)] + rest;
    var b := BackupName(filename, t);
    var restNames := ArchiveNames(filename, rest);
    var next := Step(filename, files, Rotated(t));
    var after := Replay(filename, next, rest);
    assert trace[1..] == rest;
    assert ArchiveNames(filename, trace) == [b] + restNames;
    assert Written(trace) == Written(rest);
    assert after == Replay(filename, files, trace);
    RotatedStep(filename, files, t, restNames);
    ReplayFrame(filename, next, rest, b);
    ArchivedCons(after, filename, b, restNames, files[filename], Written(rest));
  }

  /**
   * With distinct archive names, the archives followed by the current log
   * file hold exactly what the log file held at the start followed by
   * everything written.
   */
  lemma {:induction false} NothingLost(filename: Path, files: Files, trace: seq<Event>)
    requires filename in files
    requires FreshNames(files, ArchiveNames(filename, trace))
    ensures var after := Replay(filename, files, trace);
      Archived(after, ArchiveNames(filename, trace)) + after[filename] == files[filename] + Written(trace)
    decreases |trace|
  {
    if trace == [] {
      return;
    }
    var rest := trace[1..];
    var restNames := ArchiveNames(filename, rest);
    var next := Step(filename, files, trace[0]);
    assert trace == [trace[0]] + rest;
    match trace[0]
    case Wrote(d) =>
      assert ArchiveNames(filename, trace) == restNames;
      WroteStep(filename, files, d, restNames);
      NothingLost(filename, next, rest);
      ConservedWrote(filename, files, d, rest);
    case Rotated(t) =>
      assert ArchiveNames(filename, trace) == [BackupName(filename, t)] + restNames;
      RotatedStep(filename, files, t, restNames);
      NothingLost(filename, next, rest);
      ConservedRotated(filename, files, t, rest);
  }

  /**
   * The repository's test: after constructing a writer on any filesystem and
   * writing a message, the log file holds exactly that message.
   */
  lemma ReadBackAfterConstruction(filename: Path, files: Files, timestamp: string, msg: seq<Byte>)
    ensures var created := RotateSpec(None, filename, files, timestamp, NoFaults);
      && created.err.None?
      && var written := WriteSpec(created.fp, created.files, msg, NoWriteFault);
      && written.err.None? && written.n == |msg|
      && written.files[filename] == msg
  {
  }
}
