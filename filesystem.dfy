/**
 * An abstract filesystem standing in for the operating-system calls the
 * writer makes (`os.Stat`, `os.Rename`, `os.Create`, `File.Write`,
 * `File.Close`). Paths map to byte contents; every call that can fail in
 * the real system takes a caller-chosen flag saying whether it fails.
 */
module FileSystem {
  import opened Wrappers

  newtype Byte = b: int | 0 <= b < 256

  type Path = string
  type Files = map<Path, seq<Byte>>

  /** The failures the writer can see, one per operating-system call that reports them. */
  datatype IOError =
    | CloseFailed     // File.Close reported an error
    | AlreadyClosed   // the handle was closed before (os.ErrClosed)
    | InvalidHandle   // the handle is nil (os.ErrInvalid)
    | RenameFailed    // os.Rename reported an error
    | CreateFailed    // os.Create reported an error
    | WriteFailed     // File.Write reported an error, possibly after accepting some bytes

  /** An `*os.File`: the path it was opened at and whether Close was called on it. */
  datatype Handle = Handle(name: Path, closed: bool)

  /** How a write goes: completely, or the OS accepts only a prefix and reports an error. */
  datatype WriteFault = NoWriteFault | ShortWrite(accepted: nat)

  datatype WriteResult = WriteResult(files: Files, n: nat, err: Option<IOError>)

  /** `p` is absent from both maps or present in both with equal contents. */
  predicate Agree(a: Files, b: Files, p: Path) {
    (p in a <==> p in b) && (p in a ==> a[p] == b[p])
  }

  /** The error `File.Close` returns on `h`. */
  function CloseError(h: Handle, fails: bool): (r: Option<IOError>)
    ensures r.None? <==> !h.closed && !fails
    ensures h.closed ==> r == Some(AlreadyClosed)
  {
    if h.closed then Some(AlreadyClosed)
    else if fails then Some(CloseFailed)
    else None
  }

  /** The files after renaming `from` to `to` (an existing `to` is replaced). */
  function Renamed(files: Files, from: Path, to: Path): (r: Files)
    requires from in files
    ensures to in r && r[to] == files[from]
    ensures from != to ==> from !in r
    ensures forall p :: p != from && p != to ==> Agree(files, r, p)
  {
    if from == to then files else files[to := files[from]] - {from}
  }

  /** The files after `File.Write(data)` on an open handle. */
  function FileWrite(files: Files, h: Handle, data: seq<Byte>, fault: WriteFault): (r: WriteResult)
    requires !h.closed ==> h.name in files
    ensures r.n <= |data|
    ensures r.err.None? <==> !h.closed && fault.NoWriteFault?
    ensures r.err.None? ==> r.n == |data| && r.files == files[h.name := files[h.name] + data]
    ensures h.closed ==> r == WriteResult(files, 0, Some(AlreadyClosed))
    ensures !h.closed && fault.ShortWrite? ==>
      r.err == Some(WriteFailed) && r.n == (if fault.accepted < |data| then fault.accepted else |data|)
    ensures !h.closed ==> h.name in r.files && r.files[h.name] == files[h.name] + data[..r.n]
    ensures forall p :: p != h.name ==> Agree(files, r.files, p)
  {
    if h.closed then WriteResult(files, 0, Some(AlreadyClosed))
    else
      match fault
      case NoWriteFault => WriteResult(files[h.name := files[h.name] + data], |data|, None)
      case ShortWrite(k) =>
        var n := if k < |data| then k else |data|;
        WriteResult(files[h.name := files[h.name] + data[..n]], n, Some(WriteFailed))
  }

  /** The filesystem the writer works on, shared with whoever reads the log files. */
  class Disk {
    var files: Files

    constructor (files: Files)
      ensures this.files == files
    {
      this.files := files;
    }

    /** `os.Stat`: the size of the file at `path`, or nothing when the call fails. */
    method Stat(path: Path, fails: bool) returns (size: Option<nat>)
      ensures size.Some? <==> path in files && !fails
      ensures size.Some? ==> size.value == |files[path]|
    {
      if path in files && !fails {
        size := Some(|files[path]|);
      } else {
        size := None;
      }
    }

    /** `os.Rename`: fails when asked to or when `from` does not exist. */
    method Rename(from: Path, to: Path, fails: bool) returns (err: Option<IOError>)
      modifies this
      ensures err.None? <==> from in old(files) && !fails
      ensures err.None? ==> files == Renamed(old(files), from, to)
      ensures err.Some? ==> files == old(files) && err == Some(RenameFailed)
    {
      if from !in files || fails {
        return Some(RenameFailed);
      }
      files := Renamed(files, from, to);
      err := None;
    }

    /** `os.Create`: an empty file at `path`, truncating whatever was there. */
    method Create(path: Path, fails: bool) returns (h: Option<Handle>, err: Option<IOError>)
      modifies this
      ensures err.None? <==> !fails
      ensures err.None? ==> h == Some(Handle(path, false)) && files == old(files)[path := []]
      ensures err.Some? ==> h == None && files == old(files) && err == Some(CreateFailed)
    {
      if fails {
        return None, Some(CreateFailed);
      }
      files := files[path := []];
      h, err := Some(Handle(path, false)), None;
    }

    /** `File.Write` on handle `h`. */
    method Write(h: Handle, data: seq<Byte>, fault: WriteFault) returns (n: nat, err: Option<IOError>)
      requires !h.closed ==> h.name in files
      modifies this
      ensures WriteResult(files, n, err) == FileWrite(old(files), h, data, fault)
    {
      var r := FileWrite(files, h, data, fault);
      files, n, err := r.files, r.n, r.err;
    }
  }
}
