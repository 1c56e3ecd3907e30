/** The repository's tests, as clients of the writer's methods. */
module WriterScenarios {
  import opened Config
  import opened FileSystem
  import opened RotateWriter

  /** `NewRotateWriter(nil)` then one write: the message is the whole of `./test.log`. */
  method WithoutConfig(disk: Disk, today: string, timestamp: string, msg: seq<Byte>) returns (w: RotateWriter)
    modifies disk
    ensures w.filename == "./test.log" && "./test.log" in disk.files && disk.files["./test.log"] == msg
  {
    var writer, err := NewRotateWriter(null, disk, today, timestamp, NoFaults);
    TestTargets();
    var n, werr := writer.Write(msg, NoWriteFault);
    w := writer;
  }

  /** The test's `kitty` configuration, defaulted in place, then one write to `./kitty.log`. */
  method WithConfig(disk: Disk, today: string, timestamp: string, msg: seq<Byte>) returns (w: RotateWriter)
    modifies disk
    ensures w.filename == "./kitty.log" && w.cfg.View() == Settings("kitty", ".", 10, true)
    ensures "./kitty.log" in disk.files && disk.files["./kitty.log"] == msg
  {
    var cfg := new Config("kitty", ".", 10, true);
    var writer, err := NewRotateWriter(cfg, disk, today, timestamp, NoFaults);
    TestTargets();
    var n, werr := writer.Write(msg, NoWriteFault);
    w := writer;
  }
}
