# rwriter: a rotating log writer, modelled in Dafny

`rwriter` is a Go `io.Writer` that appends log output to `<Path>/<Module>.log`
and rotates that file. A rotation closes the current handle, renames a
non-empty log file to `<file>.<timestamp>`, and creates a fresh empty log
file. A background monitor wakes once a minute. It rotates when the file has
reached `MaxSize` megabytes. With `RotateDaily` set, it also rotates when the
calendar date has changed since construction or the last successful daily
rotation, and the file is not empty.

This project models the writer as a sequential state machine over an
abstract filesystem:

- `wrappers.dfy`: `Option`, used for Go's nil-able handles and `error` results.
- `int64.dfy`: Go's `int64` and its wrap-around, for the size threshold
  `MaxSize*1024*1024`.
- `config.dfy`: the `Config` class, whose fields `fulfilConfig` overwrites in
  place. Also the `Settings` value and the defaulting rules.
- `filesystem.dfy`: a `Disk` holding a map from path to bytes. Its methods
  stand in for `os.Stat`, `os.Rename`, `os.Create` and `File.Write`. Each call
  that can fail takes a flag chosen by the caller that says whether it fails.
- `rotate_writer.dfy`: the `RotateWriter` class, with fields `filename`,
  `currDate`, `fp` and `quit`. Its methods are `Rotate`, `Write`, one monitor
  `Tick`, and `Close`. `NewRotateWriter` is the constructor. `Rotate`,
  `Write` and `Tick` perform the Go code's steps and are proved to end in the
  state given by a pure function (`RotateSpec`, `WriteSpec`, `TickSpec`).
  `Close` states its new state directly. The contracts of
  those functions state what the operation promises.
- `rotation_log.dfy`: runs of several writes and rotations. The main lemma
  says no byte written is lost or duplicated across a rotation.
- `scenarios.dfy`: the two constructions from the repository's tests, written
  as client methods.

The clock is replaced by parameters: the current date (`today`) and the
archive timestamp (`timestamp`) are passed in as strings. Failures of the
operating system are passed in too: `RotateFaults`, a stat-failure flag,
`WriteFault`, and a close-failure flag.

Behaviour that follows the code and may be unexpected:

- A stat error inside a tick does not skip the tick. When `RotateDaily` is
  set and the date has changed, Go calls `Size()` on the nil result and
  panics. The model returns this as the outcome `NilStatPanic`.
- `Close` closes the `quit` channel each time it is called, so a second call
  panics. The model returns `Panicked`. Close also keeps the closed handle in
  `fp`. A later `Write` or rotation on it fails with `AlreadyClosed`.
- `Write` on a nil handle (left by a failed rotation) returns 0 and
  `os.ErrInvalid`. The model returns `InvalidHandle`.
- In `rotate`, any stat error counts as "no file", not only a missing file.
  `os.Create` then truncates an existing log file without archiving it.
- The threshold `MaxSize*1024*1024` is computed on `int64`. A `MaxSize` of
  2^43 or more wraps around, to the most negative value at exactly 2^43. A
  negative `MaxSize` is kept by the defaulting. For `-2^43 <= MaxSize < 0`
  the threshold is negative, so every tick whose stat succeeds rotates, even
  on an empty file. Below `-2^43` the threshold is `MaxSize * 2^20` wrapped
  to int64, which can be positive, zero or negative: `2^63 - 2^20` at
  `-2^43 - 1`, and `0` at `-2^44` (`Int64.TimesMebiBelowRange`).
- With no configuration the log file is `./test.log`. This is because `Join`
  is modelled as concatenation. Go's `filepath.Join` cleans the path to
  `test.log`, which names the same file.

## Model

| member | source | states |
|---|---|---|
| `Int64.Wrap` | rwriter.go:26 | The int64 result is congruent to the exact value modulo 2^64, and equals it when it is in range. |
| `Int64.WrapUnique` | rwriter.go:26 | Any int64 congruent to a value modulo 2^64 is its wrapped value. |
| `Int64.Mul` | rwriter.go:144 | Go's int64 product is the wrapped mathematical product. |
| `Int64.MebiProductWraps` | rwriter.go:144 | `MaxSize*1024*1024`, evaluated left to right and wrapping at each step, equals the single wrap of `MaxSize * 2^20`. |
| `Int64.TimesMebi` | rwriter.go:144 | Go's `MaxSize*1024*1024` on int64, wrapping at each product: the size threshold the monitor compares against. Its value is the single wrap of `MaxSize * 2^20`. |
| `Int64.TimesMebiExact` | rwriter.go:144 | For `-2^43 <= MaxSize < 2^43`, the threshold is exactly `MaxSize * 1048576` bytes. |
| `Int64.TimesMebiOverflows` | rwriter.go:144 | A `MaxSize` of 2^43 gives the most negative int64 as the threshold. |
| `Int64.TimesMebiBelowRange` | rwriter.go:144 | Below `-2^43` the threshold wraps to values of every sign: `2^63 - 2^20` at `-2^43 - 1`, `0` at `-2^44`, and the most negative int64 at `-2^44 - 2^43`. |
| `Config.Fulfilled` | rwriter.go:71-80 | The result is resolved: module and path are non-empty and the size is non-zero. Each empty/zero field is replaced by its default and every other field is kept, negative sizes included. `RotateDaily` is unchanged. The result equals the input exactly when the input was already resolved. |
| `Config.FulfilledIdempotent` | rwriter.go:71-80 | Defaulting twice equals defaulting once. |
| `Config.FulfilConfig` | rwriter.go:60-81 | A nil config becomes a fresh `{test, ., 100, false}`. A non-nil config is returned itself, with its fields overwritten in place to `Fulfilled` of their old values. |
| `FileSystem.CloseError` | rwriter.go:107-113 | Closing succeeds exactly when the handle is still open and the OS reports no error. A closed handle gives `AlreadyClosed`. |
| `FileSystem.Renamed` | rwriter.go:120 | After a rename, the target holds the source's bytes, the source is gone, and every other path is unchanged. |
| `FileSystem.FileWrite` | rwriter.go:98 | A write on an open handle appends exactly the accepted prefix and returns its length. It succeeds, with the whole input appended, exactly when no fault is injected. A short write that accepts `k` bytes reports `WriteFailed` with a count of `k`, capped at the input length. A closed handle changes nothing. Other paths are untouched. |
| `FileSystem.Disk.Stat` | rwriter.go:116 | The size is reported exactly when the path exists and the stat does not fail, and it is the file's length. |
| `FileSystem.Disk.Rename` | rwriter.go:120 | The rename succeeds exactly when the source exists and no fault is injected. It then gives `Renamed`; on failure nothing changes. |
| `FileSystem.Disk.Create` | rwriter.go:128 | On success, an open handle on an empty file at the path, truncating any old file. On failure, a nil handle and no change. |
| `FileSystem.Disk.Write` | rwriter.go:98 | The new files, count and error are those of `FileWrite`. |
| `RotateWriter.Join` | rwriter.go:47 | The joined path is the directory, one separator, then the name. |
| `RotateWriter.LogFilename` | rwriter.go:47 | The target is the configured path, a separator, then the module name followed by `.log`; it always ends in `.log`. |
| `RotateWriter.TestTargets` | rwriter_test.go:16-39 | No config targets `./test.log`. The test's `kitty` config targets `./kitty.log`. |
| `RotateWriter.BackupName` | rwriter.go:119 | The archive name is the log filename, a dot, then the timestamp. So it is always longer than, and different from, the log filename. |
| `RotateWriter.BackupNameInjective` | rwriter.go:119 | Different timestamps give different archive names. |
| `RotateWriter.CloseStep` | rwriter.go:107-108 | Closing the current handle succeeds exactly when there is none, or it is open and the OS reports no error; a closed handle gives `AlreadyClosed`, a failing close `CloseFailed`. |
| `RotateWriter.RotateSpec` | rwriter.go:102-130 | Rotation succeeds exactly when no step that is reached fails. On success: a fresh open handle, an empty log file, and the old non-empty contents at `<filename>.<timestamp>`. An absent or empty file makes no archive. No other path changes. A failed close or a failed rename leaves the filesystem unchanged with `fp` nil. A failed create after an archive was made leaves that archive, no log file, and `fp` nil. A failed create with nothing archived leaves the filesystem unchanged, `fp` nil and `CreateFailed`. |
| `RotateWriter.RotateAfterRemoval` | rwriter.go:115-128 | When the log file no longer exists under an open handle, a fault-free rotation archives nothing and leaves a new, empty log file with an open handle. |
| `RotateWriter.WriteSpec` | rwriter.go:95-99 | A nil handle gives `InvalidHandle` and a closed handle `AlreadyClosed`, both with no change and a count of 0. Success happens exactly when the handle is open and no fault is injected. Then exactly the given bytes are appended to the handle's file and their count is returned. On an open handle, the file always gains exactly the first `n` bytes of the input. A short write that accepts `k` bytes reports `WriteFailed` with a count of `k`, capped at the input length. Other paths never change. |
| `RotateWriter.TickSpec` | rwriter.go:140-171 | A size rotation happens exactly when the stat succeeds and size >= threshold. A daily rotation happens exactly when the stat succeeds, size < threshold, `RotateDaily` is set, the date differs and size > 0. A panic happens exactly when the stat fails with `RotateDaily` set and the date changed. Rotations act as `RotateSpec`; otherwise nothing changes. `currDate` becomes today only after a successful daily rotation. |
| `RotateWriter.EmptyFileKeepsStaleDate` | rwriter.go:156-170 | A tick on an empty file after the date turned rotates nothing and keeps the stale date. |
| `RotateWriter.NegativeMaxSizeRotatesEveryTick` | rwriter.go:144 | A small negative `MaxSize` makes every tick whose stat succeeds rotate. |
| `RotateWriter.RotateWriter.constructor` | rwriter.go:45-47 | The new writer keeps the config pointer, targets `LogFilename` of the config, has no handle and no quit channel. |
| `RotateWriter.RotateWriter.Rotate` | rwriter.go:102-130 | Closes, stats, renames and creates step by step, ending in exactly the handle, files and error of `RotateSpec`. It needs no invariant beforehand and leaves the writer invariant holding. |
| `RotateWriter.RotateWriter.Write` | rwriter.go:95-99 | Ends in exactly the files, count and error of `WriteSpec`. |
| `RotateWriter.RotateWriter.Tick` | rwriter.go:139-171 | One `ticker.C` case ends in exactly the action, handle, files, date and error of `TickSpec` for the live configuration. |
| `RotateWriter.RotateWriter.Close` | rwriter.go:84-92 | The first call stops the monitor channel, closes the handle if there is one, and returns that close's error. If the channel was already closed, the call panics and nothing else happens. |
| `RotateWriter.NewRotateWriter` | rwriter.go:41-58 | Defaults the config (in place when given) and does the initial rotation. It returns a writer exactly when that rotation succeeds: open on an empty log file, with today's date and a running monitor. Otherwise it returns nil and the rotation's error. Either way the filesystem is what the rotation left. |
| `RotationLog.NothingLost` | rwriter.go:95-130 | After any run of fault-free writes and rotations with fresh archive names: the archives, in rotation order, followed by the log file hold the initial contents followed by every byte written, in order. |
| `RotationLog.ReadBackAfterConstruction` | rwriter_test.go:42-53 | After the initial rotation and one write of a message, the log file holds exactly that message. |
| `WriterScenarios.WithoutConfig` | rwriter_test.go:12-22 | `NewRotateWriter(nil)` and one write leave the message as the whole of `./test.log`. |
| `WriterScenarios.WithConfig` | rwriter_test.go:24-40 | The `kitty` config and one write leave the message as the whole of `./kitty.log`. |

## Left out

- The monitor goroutine, its ticker loop, the mutex and the `select` on the `quit` channel are concurrency. Each public method is treated as atomic, and one tick is modelled (`Tick`), not the loop. For the same reason, the property that two concurrent writes both appear is not stated; the sequential version is `RotationLog.NothingLost`.
- `time.Now().Format(...)`: the date and the archive timestamp are parameters.
- `fmt.Printf` logging of rotation failures and of quitting.
- `filepath.Join`'s path cleaning: the join is plain concatenation with `/`. Under Go's cleaning, different module names can name the same file (with path `.`, both `a/../b` and `b` give `b.log`); the model's concatenation keeps them apart.
- Real operating-system calls: the filesystem is a map and failures are caller-chosen flags. A handle is identified by the path it was opened at, not by an inode. The model assumes that only the writer renames or removes the log file: the writer invariant requires the file of an open handle to exist, and only `Write` needs it, since a path-keyed map has nowhere to append once the file is gone. `Rotate` does not need it: on a removed log file it starts a new, empty one without archiving (`RotateWriter.RotateAfterRemoval`), as Go does. In Go, a log file moved or unlinked by someone else (the repository's test removes it while the handle is open) keeps receiving the writes under its new name or as an unlinked file, and the next rotation then creates a new log file without archiving anything.
- `FileSystem.Disk.Rename`: replaces an existing target, as POSIX does. Two rotations in the same second then lose the earlier archive. Other systems may refuse such a rename instead.
- `RotationLog.NothingLost`: covers only runs in which no call fails and every archive name is new and distinct; with a failure or a name collision, bytes can be lost.
- Writes after `Close` in a real program may race with a last tick; only the sequential outcomes are modelled.
