/**
 * The rotating log writer: its target filename, the rotation action, writes,
 * one iteration of the background monitor, construction and Close.
 *
 * Each operation is a pure function over the abstract filesystem (`RotateSpec`,
 * `WriteSpec`, `TickSpec`) that states what the operation promises, and a
 * method of `RotateWriter` that performs the same steps as the Go code on the
 * writer's fields and a `Disk`, proved to end in the state the function gives.
 */
module RotateWriter {
  import opened Wrappers
  import opened Int64
  import opened Config
  import opened FileSystem

  const Separator: char := '/'

  /** `filepath.Join(dir, name)`, without the cleaning of `.` and `..` elements. */
  function Join(dir: Path, name: Path): (r: Path)
    ensures |r| == |dir| + 1 + |name|
    ensures r[..|dir|] == dir && r[|dir|] == Separator && r[|dir| + 1..] == name
  {
    dir + [Separator] + name
  }

  /** The log file a configuration designates: `<Path>/<Module>.log`. */
  function LogFilename(s: Settings): (r: Path)
    ensures |r| > |s.path| + 4 && r[..|s.path|] == s.path && r[|s.path|] == Separator
    ensures r[|s.path| + 1..] == s.moduleName + ".log" && r[|r| - 4..] == ".log"
  {
    Join(s.path, s.moduleName + ".log")
  }

  /** The log files the two constructions of the repository's tests target. */
  lemma TestTargets()
    ensures LogFilename(DefaultSettings) == "./test.log"
    ensures LogFilename(Fulfilled(Settings("kitty", ".", 10, true))) == "./kitty.log"
  {
  }

  /** The name an archived log file gets: `<filename>.<timestamp>`. */
  function BackupName(filename: Path, timestamp: string): (r: Path)
    ensures |r| > |filename|
    ensures r[..|filename|] == filename && r[|filename|] == '.' && r[|filename| + 1..] == timestamp
  {
    filename + "." + timestamp
  }

  /** Distinct timestamps give distinct archive names. */
  lemma BackupNameInjective(filename: Path, t: string, u: string)
    requires BackupName(filename, t) == BackupName(filename, u)
    ensures t == u
  {
  }

  /** Which of the rotation's operating-system calls fail. */
  datatype RotateFaults = RotateFaults(closeFails: bool, statFails: bool, renameFails: bool, createFails: bool)

  const NoFaults: RotateFaults := RotateFaults(false, false, false, false)

  datatype RotateResult = RotateResult(fp: Option<Handle>, files: Files, err: Option<IOError>)

  /** The error closing the current handle gives, if there is a handle. */
  function CloseStep(fp: Option<Handle>, closeFails: bool): (r: Option<IOError>)
    ensures r.None? <==> fp.None? || (!fp.value.closed && !closeFails)
    ensures fp.Some? && fp.value.closed ==> r == Some(AlreadyClosed)
    ensures fp.Some? && !fp.value.closed && closeFails ==> r == Some(CloseFailed)
  {
    if fp.Some? then CloseError(fp.value, closeFails) else None
  }

  /** The rotation's stat succeeds and finds a non-empty file, so it renames it. */
  predicate Archives(filename: Path, files: Files, statFails: bool) {
    filename in files && !statFails && |files[filename]| > 0
  }

  /**
   * `rotate`: close the current handle, archive a non-empty log file under
   * `BackupName(filename, timestamp)`, and create an empty log file.
   */
  function RotateSpec(fp: Option<Handle>, filename: Path, files: Files, timestamp: string, f: RotateFaults): (r: RotateResult)
    // Any failure leaves the writer without a handle.
    ensures r.err.Some? ==> r.fp == None
    // It succeeds exactly when no step that is reached fails.
    ensures r.err.None? <==>
      CloseStep(fp, f.closeFails).None? && !(Archives(filename, files, f.statFails) && f.renameFails) && !f.createFails
    // Success: a fresh open handle on an empty log file ...
    ensures r.err.None? ==> r.fp == Some(Handle(filename, false)) && filename in r.files && r.files[filename] == []
    // ... and the old contents, if there were any, under the archive name.
    ensures r.err.None? && Archives(filename, files, f.statFails) ==>
      BackupName(filename, timestamp) in r.files && r.files[BackupName(filename, timestamp)] == files[filename]
    // No archive is made of an absent or empty log file.
    ensures !Archives(filename, files, f.statFails) ==> forall p :: p != filename ==> Agree(files, r.files, p)
    // No other path changes.
    ensures forall p :: p != filename && p != BackupName(filename, timestamp) ==> Agree(files, r.files, p)
    // A failed close stops everything before the filesystem is touched.
    ensures CloseStep(fp, f.closeFails).Some? ==> r == RotateResult(None, files, CloseStep(fp, f.closeFails))
    // A failed rename leaves the filesystem as it was.
    ensures CloseStep(fp, f.closeFails).None? && Archives(filename, files, f.statFails) && f.renameFails ==>
      r == RotateResult(None, files, Some(RenameFailed))
    // A failed create leaves the archive made, and no log file.
    ensures CloseStep(fp, f.closeFails).None? && Archives(filename, files, f.statFails) && !f.renameFails && f.createFails ==>
      r == RotateResult(None, Renamed(files, filename, BackupName(filename, timestamp)), Some(CreateFailed))
    // A failed create with nothing archived leaves the filesystem as it was.
    ensures CloseStep(fp, f.closeFails).None? && !Archives(filename, files, f.statFails) && f.createFails ==>
      r == RotateResult(None, files, Some(CreateFailed))
  {
    var closeErr := CloseStep(fp, f.closeFails);
    if closeErr.Some? then RotateResult(None, files, closeErr)
    else if Archives(filename, files, f.statFails) && f.renameFails then RotateResult(None, files, Some(RenameFailed))
    else
      var moved := if Archives(filename, files, f.statFails) then Renamed(files, filename, BackupName(filename, timestamp)) else files;
      if f.createFails then RotateResult(None, moved, Some(CreateFailed))
      else RotateResult(Some(Handle(filename, false)), moved[filename := []], None)
  }

  /**
   * A log file removed behind the writer's back is not archived: the next
   * rotation closes the stale handle and starts a new, empty log file.
   */
  lemma RotateAfterRemoval(filename: Path, files: Files, timestamp: string)
    requires filename !in files
    ensures RotateSpec(Some(Handle(filename, false)), filename, files, timestamp, NoFaults)
      == RotateResult(Some(Handle(filename, false)), files[filename := []], None)
  {
  }

  /** An open handle belongs to the log file, which then exists. */
  predicate Consistent(fp: Option<Handle>, filename: Path, files: Files) {
    fp.Some? ==> fp.value.name == filename && (!fp.value.closed ==> filename in files)
  }

  /** `Write`: forward the bytes to the current handle. */
  function WriteSpec(fp: Option<Handle>, files: Files, output: seq<Byte>, fault: WriteFault): (r: WriteResult)
    requires fp.Some? && !fp.value.closed ==> fp.value.name in files
    ensures r.n <= |output|
    ensures fp.None? ==> r == WriteResult(files, 0, Some(InvalidHandle))
    ensures fp.Some? && fp.value.closed ==> r == WriteResult(files, 0, Some(AlreadyClosed))
    ensures fp.Some? && !fp.value.closed ==>
      fp.value.name in r.files && r.files[fp.value.name] == files[fp.value.name] + output[..r.n]
    ensures fp.Some? && !fp.value.closed && fault.ShortWrite? ==>
      r.err == Some(WriteFailed) && r.n == (if fault.accepted < |output| then fault.accepted else |output|)
    ensures r.err.None? <==> fp.Some? && !fp.value.closed && fault.NoWriteFault?
    ensures r.err.None? ==> r.n == |output| && r.files == files[fp.value.name := files[fp.value.name] + output]
    ensures fp.Some? ==> forall p :: p != fp.value.name ==> Agree(files, r.files, p)
  {
    if fp.None? then WriteResult(files, 0, Some(InvalidHandle))
    else FileWrite(files, fp.value, output, fault)
  }

  /** What one tick of the monitor did. `NilStatPanic`: Go calls `Size()` on the nil result of a failed stat. */
  datatype TickAction = SizeRotation | DailyRotation | NoRotation | NilStatPanic

  datatype TickResult = TickResult(action: TickAction, fp: Option<Handle>, files: Files, currDate: string, err: Option<IOError>)

  /**
   * One `ticker.C` case of `autoRotate`, with `today` the date the clock gives.
   * The size threshold in bytes is Go's `MaxSize*1024*1024` on int64, `TimesMebi`.
   */
  function TickSpec(s: Settings, currDate: string, today: string, fp: Option<Handle>, filename: Path,
                    files: Files, timestamp: string, statFails: bool, f: RotateFaults): (r: TickResult)
    ensures r.action == SizeRotation <==>
      filename in files && !statFails && |files[filename]| >= TimesMebi(s.maxSize)
    ensures r.action == DailyRotation <==>
      filename in files && !statFails && |files[filename]| < TimesMebi(s.maxSize) &&
      s.rotateDaily && today != currDate && |files[filename]| > 0
    ensures r.action == NilStatPanic <==>
      !(filename in files && !statFails) && s.rotateDaily && today != currDate
    ensures r.action in {SizeRotation, DailyRotation} ==>
      RotateResult(r.fp, r.files, r.err) == RotateSpec(fp, filename, files, timestamp, f)
    ensures r.action in {NoRotation, NilStatPanic} ==> r.fp == fp && r.files == files && r.err == None
    // The recorded date moves only with a successful daily rotation, and then to today.
    ensures r.currDate == (if r.action == DailyRotation && r.err.None? then today else currDate)
  {
    var statOk := filename in files && !statFails;
    if statOk && |files[filename]| >= TimesMebi(s.maxSize) then
      var rr := RotateSpec(fp, filename, files, timestamp, f);
      TickResult(SizeRotation, rr.fp, rr.files, currDate, rr.err)
    else if s.rotateDaily && today != currDate then
      if !statOk then TickResult(NilStatPanic, fp, files, currDate, None)
      else if |files[filename]| > 0 then
        var rr := RotateSpec(fp, filename, files, timestamp, f);
        TickResult(DailyRotation, rr.fp, rr.files, if rr.err.None? then today else currDate, rr.err)
      else TickResult(NoRotation, fp, files, currDate, None)
    else TickResult(NoRotation, fp, files, currDate, None)
  }

  /**
   * The stale-date case: with daily rotation on and the date turned, a tick
   * on an empty log file below the size threshold rotates nothing and keeps
   * the old date, so the next tick compares against it again.
   */
  lemma EmptyFileKeepsStaleDate(s: Settings, currDate: string, today: string, fp: Option<Handle>, filename: Path,
                                files: Files, timestamp: string, f: RotateFaults)
    requires s.rotateDaily && today != currDate
    requires filename in files && files[filename] == [] && 0 < TimesMebi(s.maxSize)
    ensures var r := TickSpec(s, currDate, today, fp, filename, files, timestamp, false, f);
      r.action == NoRotation && r.currDate == currDate && r.files == files
  {
  }

  /** A negative MaxSize of small magnitude makes every tick whose stat succeeds rotate, even on an empty file. */
  lemma NegativeMaxSizeRotatesEveryTick(s: Settings, currDate: string, today: string, fp: Option<Handle>, filename: Path,
                                        files: Files, timestamp: string, f: RotateFaults)
    requires -0x800_0000_0000 <= s.maxSize < 0
    requires filename in files
    ensures TickSpec(s, currDate, today, fp, filename, files, timestamp, false, f).action == SizeRotation
  {
    TimesMebiExact(s.maxSize);
  }

  /** The state of the `quit` channel: not made yet, open, or closed by Close. */
  datatype Quit = NoChannel | Running | Stopped

  /** What Close did. `Panicked`: Go's `close` of an already closed channel. */
  datatype CloseOutcome = Closed(err: Option<IOError>) | Panicked

  class RotateWriter {
    const cfg: Config
    const disk: Disk
    const filename: Path
    var currDate: string
    var fp: Option<Handle>
    var quit: Quit

    ghost predicate Valid()
      reads this, disk
    {
      Consistent(fp, filename, disk.files)
    }

    /** `&RotateWriter{cfg: cfg}` followed by the assignment of `filename`. */
    constructor (cfg: Config, disk: Disk)
      ensures this.cfg == cfg && this.disk == disk
      ensures filename == LogFilename(cfg.View())
      ensures fp == None && currDate == "" && quit == NoChannel
      ensures Valid()
    {
      this.cfg := cfg;
      this.disk := disk;
      filename := Join(cfg.path, cfg.moduleName + ".log");
      fp := None;
      currDate := "";
      quit := NoChannel;
    }

    method Rotate(timestamp: string, faults: RotateFaults) returns (err: Option<IOError>)
      modifies this, disk
      ensures Valid()
      ensures RotateResult(fp, disk.files, err) == RotateSpec(old(fp), filename, old(disk.files), timestamp, faults)
      ensures currDate == old(currDate) && quit == old(quit)
    {
      if fp.Some? {
        err := CloseError(fp.value, faults.closeFails);
        fp := None;
        if err.Some? {
          return;
        }
      }
      var size := disk.Stat(filename, faults.statFails);
      if size.Some? && size.value > 0 {
        err := disk.Rename(filename, BackupName(filename, timestamp), faults.renameFails);
        if err.Some? {
          return;
        }
      }
      fp, err := disk.Create(filename, faults.createFails);
    }

    method Write(output: seq<Byte>, fault: WriteFault) returns (n: nat, err: Option<IOError>)
      requires Valid()
      modifies disk
      ensures Valid()
      ensures WriteResult(disk.files, n, err) == WriteSpec(fp, old(disk.files), output, fault)
    {
      if fp.None? {
        return 0, Some(InvalidHandle);
      }
      n, err := disk.Write(fp.value, output, fault);
    }

    /** One `ticker.C` case of `autoRotate`. */
    method Tick(today: string, timestamp: string, statFails: bool, faults: RotateFaults) returns (action: TickAction, err: Option<IOError>)
      requires Valid()
      modifies this, disk
      ensures Valid() && quit == old(quit)
      ensures TickResult(action, fp, disk.files, currDate, err) ==
        TickSpec(cfg.View(), old(currDate), today, old(fp), filename, old(disk.files), timestamp, statFails, faults)
    {
      var size := disk.Stat(filename, statFails);
      if size.Some? && size.value >= TimesMebi(cfg.maxSize) {
        action := SizeRotation;
        err := Rotate(timestamp, faults);
        return;
      }
      action, err := NoRotation, None;
      if cfg.rotateDaily {
        var date := today;
        if date != currDate {
          if size.None? {
            action := NilStatPanic;
            return;
          }
          if size.value > 0 {
            action := DailyRotation;
            err := Rotate(timestamp, faults);
            if err.None? {
              currDate := date;
            }
          }
        }
      }
    }

    method Close(closeFails: bool) returns (outcome: CloseOutcome)
      requires Valid()
      modifies this
      ensures Valid() && currDate == old(currDate)
      ensures old(quit) == Stopped ==> outcome == Panicked && fp == old(fp) && quit == Stopped
      ensures old(quit) != Stopped ==>
        && quit == (if old(quit) == NoChannel then NoChannel else Stopped)
        && outcome == Closed(CloseStep(old(fp), closeFails))
        && fp == (if old(fp).None? then None else Some(Handle(filename, true)))
    {
      if quit == Stopped {
        return Panicked;
      }
      if quit == Running {
        quit := Stopped;
      }
      if fp.Some? {
        var err := CloseError(fp.value, closeFails);
        fp := Some(fp.value.(closed := true));
        return Closed(err);
      }
      outcome := Closed(None);
    }
  }

  /**
   * `NewRotateWriter`: default the configuration (in place when one is
   * given), open the log file by a rotation, record today's date and start
   * the monitor. A failed rotation yields no writer, though what it did to
   * the filesystem remains.
   */
  method NewRotateWriter(cfg: Config?, disk: Disk, today: string, timestamp: string, faults: RotateFaults)
    returns (w: RotateWriter?, err: Option<IOError>)
    modifies cfg, disk
    ensures var s := if cfg == null then DefaultSettings else Fulfilled(old(cfg.View()));
      var r := RotateSpec(None, LogFilename(s), old(disk.files), timestamp, faults);
      && disk.files == r.files && err == r.err
      && (w == null <==> err.Some?)
      && (w != null ==>
            && fresh(w) && w.Valid() && w.disk == disk && w.cfg.View() == s
            && w.filename == LogFilename(s) && w.fp == r.fp && w.currDate == today && w.quit == Running)
    ensures cfg != null ==> cfg.View() == Fulfilled(old(cfg.View())) && (w != null ==> w.cfg == cfg)
  {
    var c := FulfilConfig(cfg);
    var writer := new RotateWriter(c, disk);
    err := writer.Rotate(timestamp, faults);
    if err.Some? {
      return null, err;
    }
    writer.currDate := today;
    writer.quit := Running;
    w := writer;
  }
}
