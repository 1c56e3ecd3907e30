/**
 * The writer's configuration and its defaulting rules (`fulfilConfig`).
 * `Config` is a class because the Go code receives a `*Config` and overwrites
 * the caller's fields in place; `Settings` is the value those fields hold.
 */
module Config {
  import opened Int64

  const LogFileBaseName: string := "test"
  const LogFileMaxSize: int64 := 100
  const LogFilePath: string := "."

  /** The four fields of a configuration, as a value. `maxSize` is in megabytes. */
  datatype Settings = Settings(moduleName: string, path: string, maxSize: int64, rotateDaily: bool)

  /** The configuration used when none is given. */
  const DefaultSettings: Settings := Settings(LogFileBaseName, LogFilePath, LogFileMaxSize, false)

  /** Every field that has a default is set to something other than its "unset" value. */
  predicate Resolved(s: Settings) {
    s.moduleName != "" && s.path != "" && s.maxSize != 0
  }

  /** The settings a non-nil configuration holds after defaulting. */
  function Fulfilled(s: Settings): (r: Settings)
    ensures Resolved(r)
    ensures Resolved(s) <==> r == s
    ensures r.moduleName == (if s.moduleName == "" then LogFileBaseName else s.moduleName)
    ensures r.path == (if s.path == "" then LogFilePath else s.path)
    ensures r.maxSize == (if s.maxSize == 0 then LogFileMaxSize else s.maxSize)
    ensures r.rotateDaily == s.rotateDaily
  {
    var m := if s.moduleName == "" then LogFileBaseName else s.moduleName;
    var p := if s.path == "" then LogFilePath else s.path;
    var n := if s.maxSize == 0 then LogFileMaxSize else s.maxSize;
    Settings(m, p, n, s.rotateDaily)
  }

  /** Defaulting twice gives the same settings as defaulting once. */
  lemma FulfilledIdempotent(s: Settings)
    ensures Fulfilled(Fulfilled(s)) == Fulfilled(s)
  {
  }

  class Config {
    var moduleName: string
    var path: string
    var maxSize: int64
    var rotateDaily: bool

    constructor (moduleName: string, path: string, maxSize: int64, rotateDaily: bool)
      ensures View() == Settings(moduleName, path, maxSize, rotateDaily)
    {
      this.moduleName := moduleName;
      this.path := path;
      this.maxSize := maxSize;
      this.rotateDaily := rotateDaily;
    }

    function View(): Settings
      reads this
    {
      Settings(moduleName, path, maxSize, rotateDaily)
    }
  }

  /**
   * A nil configuration is replaced by a fresh one holding the defaults;
   * a non-nil one has its empty or zero fields overwritten in place and is
   * returned itself.
   */
  method FulfilConfig(cfg: Config?) returns (r: Config)
    modifies cfg
    ensures cfg == null ==> fresh(r) && r.View() == Settings("test", ".", 100, false)
    ensures cfg != null ==> r == cfg && r.View() == Fulfilled(old(cfg.View()))
  {
    if cfg == null {
      r := new Config(LogFileBaseName, LogFilePath, LogFileMaxSize, false);
      return;
    }
    if cfg.moduleName == "" {
      cfg.moduleName := LogFileBaseName;
    }
    if cfg.path == "" {
      cfg.path := LogFilePath;
    }
    if cfg.maxSize == 0 {
      cfg.maxSize := LogFileMaxSize;
    }
    r := cfg;
  }
}
