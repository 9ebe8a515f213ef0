/**
  The catalog client as an explicit state record, and the operations of the
  client that read or change one part of it: loading the stored compile time,
  the freshness decision, the configuration timeout, splay, the catalog cache
  file, the class file, the cached-catalog fallback, and the run lock.

  The persistent storage is the `:configuration` section of the state file;
  the file system is a map from paths to contents.  What the server, the YAML
  loader and catalog construction return enters as values or functions.
 */
module ClientState {
  import opened Wrappers
  import opened Text
  import opened Numerals
  import opened ClientFacts

  /** The `:configuration` entries of the persistent state. */
  datatype Storage = Storage(
    facts: Option<map<string, string>>,
    compileTime: Option<int>,
    splayTime: Option<int>)

  /** A catalog: its content (opaque here) and the two flags the client sets. */
  datatype Catalog = Catalog(content: string, fromCache: bool, hostConfig: bool)

  /** What `YAML.load` gives back: the class list and what `to_catalog`
      builds from. */
  datatype Compiled = Compiled(classes: Option<seq<string>>, content: string)

  /** The run lock: free, taken anonymously by `disable`, or held by a run. */
  datatype Lock = Unlocked | DisabledLock | RunLock

  datatype Client = Client(
    storage: Storage,
    compileTime: Option<int>,        // @compile_time
    catalog: Option<Catalog>,        // @catalog
    files: map<string, string>,
    lock: Lock,
    restart: bool)                   // @restart

  /** A setting that may be an Integer, a String or anything else. */
  datatype ConfigValue = CInt(i: int) | CStr(s: Line) | COther

  datatype Settings = Settings(
    ignoreCache: bool,
    useCacheOnFailure: bool,
    local: bool,
    splay: bool,
    splayLimit: int,
    configTimeout: ConfigValue,
    dynamicFacts: string,
    localConfig: string,
    classFile: string)

  /** A client that has not run yet. */
  function NewClient(storage: Storage, files: map<string, string>, lock: Lock): (c: Client)
    ensures c.catalog.None? && c.compileTime.None? && !c.restart
  {
    Client(storage, None, None, files, lock, false)
  }

  /** `dostorage`: the compile time in memory, else the stored one. */
  function DoStorage(c: Client): (r: Client)
    ensures c.compileTime.Some? ==> r.compileTime == c.compileTime
    ensures c.compileTime.None? ==> r.compileTime == c.storage.compileTime
    ensures r.(compileTime := c.compileTime) == c
  {
    c.(compileTime := if c.compileTime.Some? then c.compileTime else c.storage.compileTime)
  }

  /** Loading storage twice is the same as loading it once. */
  lemma DoStorageIdempotent(c: Client)
    ensures DoStorage(DoStorage(c)) == DoStorage(c)
  {
  }

  /** `fresh?`: is the catalog the client holds still current?  The server's
      compile time (`freshness`, which may fail) is consulted only when the
      cache is not ignored, a compile time is known and the facts have not
      changed; the catalog is then fresh when the server's time is less than
      one second after the client's. */
  function Fresh(c: Client, s: Settings, facts: map<string, string>, freshness: Result<int>)
    : (r: Result<bool>)
    ensures r == Ok(true) <==>
              && !s.ignoreCache && c.compileTime.Some?
              && !FactsChanged(c.storage.facts, facts, DynamicFacts(s.dynamicFacts))
              && freshness.Ok? && freshness.value <= c.compileTime.value
    ensures r.Err? <==>
              && !s.ignoreCache && c.compileTime.Some?
              && !FactsChanged(c.storage.facts, facts, DynamicFacts(s.dynamicFacts))
              && freshness.Err?
    ensures r.Err? ==> r == Err(freshness.error)
  {
    if s.ignoreCache then Ok(false)
    else if c.compileTime.None? then Ok(false)
    else if FactsChanged(c.storage.facts, facts, DynamicFacts(s.dynamicFacts)) then Ok(false)
    else
      match freshness
      case Err(e) => Err(e)
      case Ok(newcompile) => Ok(newcompile - c.compileTime.value < 1)
  }

  /** The server is not asked when any of the three local checks already
      decides that the catalog is stale. */
  lemma FreshShortCircuits(c: Client, s: Settings, facts: map<string, string>,
                           x: Result<int>, y: Result<int>)
    requires s.ignoreCache || c.compileTime.None? ||
             FactsChanged(c.storage.facts, facts, DynamicFacts(s.dynamicFacts))
    ensures Fresh(c, s, facts, x) == Fresh(c, s, facts, y) == Ok(false)
  {
  }

  /** A server compile time earlier than the client's counts as fresh; one
      second later does not. */
  lemma FreshDrift(c: Client, s: Settings, facts: map<string, string>, t: int)
    requires !s.ignoreCache && c.compileTime.Some?
    requires !FactsChanged(c.storage.facts, facts, DynamicFacts(s.dynamicFacts))
    ensures Fresh(c, s, facts, Ok(c.compileTime.value - 5)) == Ok(true)
    ensures Fresh(c, s, facts, Ok(c.compileTime.value)) == Ok(true)
    ensures Fresh(c, s, facts, Ok(c.compileTime.value + 1)) == Ok(false)
  {
  }

  /** `timeout`: an Integer setting as it is, an all-digit String through
      `Integer()` (so a leading 0 means octal), anything else an
      ArgumentError. */
  function Timeout(v: ConfigValue): (r: Result<int>)
    ensures v.CInt? ==> r == Ok(v.i)
    ensures v.COther? ==> r.Err? && r.error.kind == ArgumentError
    ensures v.CStr? && !AllDigits(v.s) ==> r.Err? && r.error.kind == ArgumentError
    ensures r.Err? ==> r.error.kind == ArgumentError
    ensures r.Ok? ==> v.CInt? || r.value >= 0
    ensures v.CStr? && AllDigits(v.s) ==>
              && (r.Ok? <==> IntegerOfDigits(v.s).Ok?)
              && (r.Ok? ==> r.value == IntegerOfDigits(v.s).value)
  {
    match v
    case CInt(i) => Ok(i)
    case CStr(s) =>
      if AllDigits(s) then
        match IntegerOfDigits(s)
        case Ok(n) => Ok(n)
        case Err(e) => Err(e)
      else Err(Error(ArgumentError, "Configuration timeout must be an integer"))
    case COther => Err(Error(ArgumentError, "Configuration timeout must be an integer"))
  }

  lemma DecimalTextIsLine(n: nat)
    ensures '\n' !in DecimalText(n)
  {
    var t := DecimalText(n);
    assert forall i :: 0 <= i < |t| ==> IsDigit(t[i]);
  }

  /** A setting such as "50" reads as its number. */
  lemma TimeoutOfDecimalText(n: nat)
    ensures Timeout(CStr(DecimalTextLine(n))) == Ok(n)
  {
    IntegerOfPrintedNumbers(n);
  }

  /** With a leading zero the digits are read as octal, so "010" is eight,
      and "09" is refused. */
  lemma TimeoutOctalText()
    ensures Timeout(CStr("010")) == Ok(8)
    ensures Timeout(CStr("09")).Err?
  {
    var octal: Line := "010";
    var bad: Line := "09";
    assert AllDigits(octal) && AllOctalDigits(octal);
    assert octal[..1][..0] == [] && OctalValue(octal[..1]) == 0;
    assert octal[..2][..1] == octal[..1] && OctalValue(octal[..2]) == 1;
    assert octal[..2] == octal[..|octal| - 1];
    assert bad[1] == '9';
    assert AllDigits(bad);
  }

  /** `n.to_s` as a single-line string. */
  function DecimalTextLine(n: nat): (s: Line)
    ensures s == DecimalText(n)
  {
    DecimalTextIsLine(n);
    DecimalText(n)
  }

  /** `splay`: with splay off, nothing happens.  Otherwise the stored splay
      time is slept again if there is one (a stored 0 included); if not, a time
      is drawn from `rand(limit)` and stored before sleeping.  `draw` is the
      random number; `rand` takes the limit's absolute value, and the model
      draws 0 for a limit of 0.  The result is the new client and the time
      slept, if any. */
  function Splay(c: Client, s: Settings, draw: nat): (r: (Client, Option<int>))
    ensures !s.splay ==> r == (c, None)
    ensures s.splay && c.storage.splayTime.Some? ==> r == (c, c.storage.splayTime)
    ensures s.splay && c.storage.splayTime.None? ==>
              && r.1.Some?
              && 0 <= r.1.value && (s.splayLimit != 0 ==> r.1.value < Abs(s.splayLimit))
              && r.0 == c.(storage := c.storage.(splayTime := r.1))
  {
    if !s.splay then (c, None)
    else
      match c.storage.splayTime
      case Some(t) => (c, Some(t))
      case None =>
        var t := if s.splayLimit == 0 then 0 else draw % Abs(s.splayLimit);
        (c.(storage := c.storage.(splayTime := Some(t))), Some(t))
  }

  function Abs(i: int): nat { if i < 0 then -i else i }

  /** Once a splay time has been chosen, every later splay sleeps exactly
      that long, whatever is drawn. */
  lemma SplayStable(c: Client, s: Settings, d1: nat, d2: nat)
    requires s.splay
    ensures var (c1, t1) := Splay(c, s, d1);
            var (c2, t2) := Splay(c1, s, d2);
            t2 == t1 && c2 == c1
  {
  }

  // ---------------------------------------------------------------------
  // The catalog cache and the class file

  /** `cachefile`: the `localconfig` setting with ".yaml" appended. */
  function CacheFile(s: Settings): (path: string)
    ensures |path| == |s.localConfig| + 5 && s.localConfig <= path
    ensures path[|s.localConfig|..] == ".yaml"
  {
    s.localConfig + ".yaml"
  }

  function TmpFile(s: Settings): (path: string)
    ensures CacheFile(s) <= path && path != CacheFile(s)
  {
    CacheFile(s) + ".tmp"
  }

  /** Renaming an existing file: the target takes its content, the source is
      gone, every other path is unchanged. */
  function Rename(files: map<string, string>, from: string, to: string): (r: map<string, string>)
    requires from in files && from != to
    ensures to in r && r[to] == files[from] && from !in r
    ensures forall p :: p != from && p != to ==> (p in r <==> p in files) && (p in r ==> r[p] == files[p])
  {
    (files - {from})[to := files[from]]
  }

  /** `cache(text)`: write the text to the temporary file, then rename it over
      the cache file, so the cache file always holds a whole catalog.  This is
      the successful write; a write that fails is modelled where `getconfig`
      calls it (`ClientRun.Install`). */
  function Cache(files: map<string, string>, s: Settings, text: string): (r: map<string, string>)
    ensures CacheFile(s) in r && r[CacheFile(s)] == text
    ensures TmpFile(s) !in r
    ensures forall p :: p != CacheFile(s) && p != TmpFile(s) ==>
              (p in r <==> p in files) && (p in r ==> r[p] == files[p])
  {
    var written := files[TmpFile(s) := text];
    Rename(written, TmpFile(s), CacheFile(s))
  }

  /** `retrievecache`: the cache file's text, if the file exists. */
  function RetrieveCache(files: map<string, string>, s: Settings): (r: Option<string>)
    ensures r.Some? <==> CacheFile(s) in files
    ensures r.Some? ==> r.value == files[CacheFile(s)]
  {
    if CacheFile(s) in files then Some(files[CacheFile(s)]) else None
  }

  /** What is cached is what is read back. */
  lemma CacheRetrieve(files: map<string, string>, s: Settings, text: string)
    ensures RetrieveCache(Cache(files, s, text), s) == Some(text)
  {
  }

  /** Ruby's `puts`: a line break is added unless the text already ends with
      one. */
  function Puts(text: string): (r: string)
    ensures |r| > 0 && r[|r| - 1] == '\n'
    ensures text <= r && |r| <= |text| + 1
  {
    if |text| > 0 && text[|text| - 1] == '\n' then text else text + "\n"
  }

  /** `setclasses(classes)`: a networked client with a non-empty class list
      writes the classes one per line to the class file; a local client, a
      missing or empty list, or a file that cannot be opened leaves every file
      as it was (the failure is only logged). */
  function SetClasses(c: Client, s: Settings, classes: Option<seq<string>>, writable: bool)
    : (r: Client)
    ensures r.(files := c.files) == c
    ensures s.local || classes.None? || |classes.value| == 0 || !writable ==> r == c
    ensures !s.local && classes.Some? && |classes.value| > 0 && writable ==>
              r.files == c.files[s.classFile := Puts(Join(classes.value, '\n'))]
  {
    if s.local then c
    else if classes.None? || |classes.value| == 0 then c
    else if !writable then c
    else c.(files := c.files[s.classFile := Puts(Join(classes.value, '\n'))])
  }

  /** The class file, read line by line, gives back the class list when no
      class name is empty or contains a line break. */
  lemma {:induction false} ClassFileRoundTrip(c: Client, s: Settings, classes: seq<string>)
    requires !s.local && |classes| > 0
    requires forall i :: 0 <= i < |classes| ==> |classes[i]| > 0 && '\n' !in classes[i]
    ensures var content := SetClasses(c, s, Some(classes), true).files[s.classFile];
            |content| > 0 && Split(content[..|content| - 1], '\n') == classes
  {
    var joined := Join(classes, '\n');
    JoinEndsWithLastPart(classes, '\n');
    var last := classes[|classes| - 1];
    assert joined[|joined| - 1] == last[|last| - 1];
    assert Puts(joined) == joined + "\n";
    assert (joined + "\n")[..|joined|] == joined;
    SplitJoin(classes, '\n');
  }

  lemma {:induction false} JoinEndsWithLastPart(parts: seq<string>, sep: char)
    requires |parts| > 0
    ensures var j := Join(parts, sep);
            |j| >= |parts[|parts| - 1]| && j[|j| - |parts[|parts| - 1]|..] == parts[|parts| - 1]
    decreases |parts|
  {
    if |parts| > 1 {
      JoinEndsWithLastPart(parts[1..], sep);
      var rest := Join(parts[1..], sep);
      var j := Join(parts, sep);
      assert j == parts[0] + [sep] + rest;
      assert j[|j| - |rest|..] == rest;
    }
  }

  /** `clear`: drop the in-memory catalog. */
  function Clear(c: Client): (r: Client)
    ensures r.catalog.None? && r.(catalog := c.catalog) == c
  {
    c.(catalog := None)
  }

  // ---------------------------------------------------------------------
  // The cached-catalog fallback

  /** Whether the cache file holds a catalog that loads and instantiates. */
  predicate CacheLoads(c: Client, s: Settings, parse: string -> Option<Compiled>,
                       instantiate: Compiled -> Option<Catalog>)
  {
    && CacheFile(s) in c.files
    && parse(c.files[CacheFile(s)]).Some?
    && instantiate(parse(c.files[CacheFile(s)]).value).Some?
  }

  /** `use_cached_config(because_of_failure)`: keep a catalog already in
      memory; after a failure with `usecacheonfailure` off, use nothing;
      otherwise load the cache file, marking the catalog as coming from the
      cache and as the host's configuration.  A missing file gives false; a
      file that does not load clears the client and gives false. */
  function UseCachedConfig(c: Client, s: Settings, failure: bool,
                           parse: string -> Option<Compiled>,
                           instantiate: Compiled -> Option<Catalog>)
    : (r: (Client, bool))
    ensures r.1 <==> r.0.catalog.Some?
    ensures r.1 <==> c.catalog.Some? || (!(failure && !s.useCacheOnFailure) && CacheLoads(c, s, parse, instantiate))
    ensures r.0.(catalog := c.catalog) == c
    ensures c.catalog.Some? ==> r.0 == c
    ensures r.1 && c.catalog.None? ==>
              var cat := instantiate(parse(c.files[CacheFile(s)]).value).value;
              r.0.catalog == Some(cat.(fromCache := true, hostConfig := true))
  {
    if c.catalog.Some? then (c, true)
    else if failure && !s.useCacheOnFailure then (c.(catalog := None), false)
    else
      match RetrieveCache(c.files, s)
      case None => (c, false)
      case Some(oldtext) =>
        match parse(oldtext)
        case None => (Clear(c), false)
        case Some(objects) =>
          match instantiate(objects)
          case None => (Clear(c), false)
          case Some(cat) => (c.(catalog := Some(cat.(fromCache := true, hostConfig := true))), true)
  }

  /** A catalog the fallback installs always comes from the cache and is
      marked as the host's configuration. */
  lemma CachedCatalogFlags(c: Client, s: Settings, failure: bool,
                           parse: string -> Option<Compiled>,
                           instantiate: Compiled -> Option<Catalog>)
    requires c.catalog.None?
    ensures var (r, used) := UseCachedConfig(c, s, failure, parse, instantiate);
            used ==> r.catalog.value.fromCache && r.catalog.value.hostConfig
  {
  }

  // ---------------------------------------------------------------------
  // Lock and restart

  /** `disable`: take the lock anonymously, if it is free. */
  function Disable(c: Client): (r: Client)
    ensures r.(lock := c.lock) == c
    ensures c.lock == Unlocked ==> r.lock == DisabledLock
    ensures c.lock != Unlocked ==> r.lock == c.lock
  {
    if c.lock == Unlocked then c.(lock := DisabledLock) else c
  }

  /** `enable`: an anonymous unlock, which removes any lock. */
  function Enable(c: Client): (r: Client)
    ensures r.lock == Unlocked && r.(lock := c.lock) == c
  {
    c.(lock := Unlocked)
  }

  /** Enabling undoes disabling. */
  lemma EnableUndoesDisable(c: Client)
    requires c.lock == Unlocked
    ensures Enable(Disable(c)) == c
  {
  }

  /** `restart`: mark that the process should restart after the run. */
  function Restart(c: Client): (r: Client)
    ensures r.restart && r.(restart := c.restart) == c
  {
    c.(restart := true)
  }

  /** `restart?`: false until `restart` has been called. */
  function IsRestartRequested(c: Client): bool {
    c.restart
  }

  lemma RestartRequested(storage: Storage, files: map<string, string>, lock: Lock)
    ensures !IsRestartRequested(NewClient(storage, files, lock))
    ensures IsRestartRequested(Restart(NewClient(storage, files, lock)))
  {
  }
}
