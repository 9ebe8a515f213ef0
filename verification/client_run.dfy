/**
  Retrieving a catalog and running it: `get_remote_config`,
  `get_actual_config`, the fallback pipeline of `getconfig`, and the
  splay / lock / clear protocol of `run`.

  The outside world of one retrieval (the server's freshness answer, the
  result of the remote fetch, the clock, the YAML loader, catalog construction
  and whether the class file and the cache file can be written) is a `World`
  value.
 */
module ClientRun {
  import opened Wrappers
  import opened ClientState
  import opened ClientFacts

  /** What the remote fetch inside the configuration timeout gives: the
      timeout fired, the driver raised, or the unescaped text. */
  datatype Fetch = TimedOut | FetchFailed | Fetched(text: string)

  datatype World = World(
    freshness: Result<int>,
    fetch: Fetch,
    now: int,
    parse: string -> Option<Compiled>,
    instantiate: Compiled -> Option<Catalog>,
    classFileWritable: bool,
    cacheWritable: bool)

  /** Whether a path has the same entry in two file maps. */
  predicate SameEntry(a: map<string, string>, b: map<string, string>, p: string) {
    (p in a <==> p in b) && (p in a ==> a[p] == b[p])
  }

  /** Whether the fetch produced catalog text. */
  predicate FetchedText(f: Fetch) { f.Fetched? && f.text != "" }

  /** `get_remote_config`: a failed fetch or empty text gives nil and changes
      nothing; otherwise the compile time becomes now, and the facts and
      compile time are stored, all before the text is loaded. */
  function GetRemoteConfig(c: Client, facts: map<string, string>, fetch: Fetch, now: int)
    : (r: (Client, Option<string>))
    requires !fetch.TimedOut?
    ensures r.1.Some? <==> FetchedText(fetch)
    ensures r.1.None? ==> r.0 == c
    ensures r.1.Some? ==>
              && r.1.value == fetch.text
              && r.0 == c.(compileTime := Some(now),
                           storage := c.storage.(facts := Some(facts), compileTime := Some(now)))
  {
    match fetch
    case FetchFailed => (c, None)
    case Fetched(text) =>
      if text == "" then (c, None)
      else
        var stored := c.storage.(facts := Some(facts), compileTime := Some(now));
        (c.(compileTime := Some(now), storage := stored), Some(text))
  }

  /** After a successful fetch the catalog counts as fresh for the facts that
      were sent, until the server compiles again. */
  lemma RemoteConfigMakesFresh(c: Client, s: Settings, facts: map<string, string>, text: string,
                               now: int, t: int)
    requires text != "" && !s.ignoreCache && t <= now
    ensures var c' := GetRemoteConfig(c, facts, Fetched(text), now).0;
            Fresh(c', s, facts, Ok(t)) == Ok(true)
  {
    var c' := GetRemoteConfig(c, facts, Fetched(text), now).0;
    assert !FactsChanged(c'.storage.facts, facts, DynamicFacts(s.dynamicFacts));
  }

  /** `get_actual_config`: reads the configuration timeout (whose
      ArgumentError is not rescued here), then fetches; a timeout gives nil. */
  function GetActualConfig(c: Client, s: Settings, facts: map<string, string>, w: World)
    : (r: Result<(Client, Option<string>)>)
    ensures r.Err? <==> Timeout(s.configTimeout).Err?
    ensures r.Err? ==> r.error == Timeout(s.configTimeout).error
    ensures r.Ok? && w.fetch.TimedOut? ==> r.value == (c, None)
    ensures r.Ok? && !w.fetch.TimedOut? ==> r.value == GetRemoteConfig(c, facts, w.fetch, w.now)
  {
    match Timeout(s.configTimeout)
    case Err(e) => Err(e)
    case Ok(_) =>
      if w.fetch.TimedOut? then Ok((c, None))
      else Ok(GetRemoteConfig(c, facts, w.fetch, w.now))
  }

  /** The fallback after a failed retrieval: `use_cached_config(true)`, whose
      answer only decides a log message. */
  function FallBack(c: Client, s: Settings, w: World): (r: Client)
    ensures r.(catalog := c.catalog) == c
    ensures c.catalog.Some? ==> r == c
    ensures c.catalog.None? ==>
              (r.catalog.Some? <==> s.useCacheOnFailure && CacheLoads(c, s, w.parse, w.instantiate))
    ensures c.catalog.None? && r.catalog.Some? ==>
              r.catalog.value.fromCache && r.catalog.value.hostConfig
  {
    UseCachedConfig(c, s, true, w.parse, w.instantiate).0
  }

  /** Whether fetched text builds a catalog that `getconfig` then tries and
      fails to cache. */
  predicate CacheWriteFails(text: string, w: World) {
    && w.parse(text).Some?
    && w.instantiate(w.parse(text).value).Some?
    && !w.instantiate(w.parse(text).value).value.fromCache
    && !w.cacheWritable
  }

  /** Lines 163-194 of `getconfig`: load the fetched text, store the classes,
      build the catalog, cache the text unless the catalog came from the
      cache, and mark the catalog as the host's configuration.  A failure to
      load falls back to the cache (keeping a catalog still in memory); a
      failure to build clears the catalog first.  A failing cache write
      raises after the catalog is installed and before it is marked as the
      host's configuration. */
  function Install(c: Client, s: Settings, text: string, w: World): (r: (Client, Outcome))
    ensures r.0.storage == c.storage && r.0.compileTime == c.compileTime
    ensures r.0.lock == c.lock && r.0.restart == c.restart
    ensures r.1.Fail? <==> CacheWriteFails(text, w)
    ensures r.1.Fail? ==> r.1.error.kind == SystemCallError
                          && r.0.catalog == Some(w.instantiate(w.parse(text).value).value)
    ensures s.classFile != CacheFile(s) && !SameEntry(c.files, r.0.files, CacheFile(s)) ==>
              && w.parse(text).Some?
              && w.instantiate(w.parse(text).value).Some?
              && !w.instantiate(w.parse(text).value).value.fromCache
              && CacheFile(s) in r.0.files && r.0.files[CacheFile(s)] == text
              && r.0.catalog == Some(w.instantiate(w.parse(text).value).value.(hostConfig := true))
    ensures w.parse(text).Some? && w.instantiate(w.parse(text).value).Some? && !CacheWriteFails(text, w) ==>
              r.0.catalog == Some(w.instantiate(w.parse(text).value).value.(hostConfig := true))
    ensures && w.parse(text).Some? && w.instantiate(w.parse(text).value).Some?
            && !w.instantiate(w.parse(text).value).value.fromCache && w.cacheWritable ==>
              CacheFile(s) in r.0.files && r.0.files[CacheFile(s)] == text
    ensures w.parse(text).None? ==>
              && r.0.files == c.files
              && (c.catalog.Some? ==> r.0.catalog == c.catalog)
              && (c.catalog.None? ==>
                    (r.0.catalog.Some? <==> s.useCacheOnFailure && CacheLoads(c, s, w.parse, w.instantiate)))
    ensures w.parse(text).Some? && w.instantiate(w.parse(text).value).None? ==>
              (r.0.catalog.Some? <==> s.useCacheOnFailure && CacheLoads(r.0, s, w.parse, w.instantiate))
    ensures ((w.parse(text).None? && c.catalog.None?) || (w.parse(text).Some? && w.instantiate(w.parse(text).value).None?))
            && r.0.catalog.Some? ==>
              r.0.catalog.value.fromCache && r.0.catalog.value.hostConfig
  {
    match w.parse(text)
    case None => (FallBack(c, s, w), Pass)
    case Some(objects) =>
      var withClasses := SetClasses(c, s, objects.classes, w.classFileWritable);
      var cleared := if withClasses.catalog.Some? then Clear(withClasses) else withClasses;
      match w.instantiate(objects)
      case None => (FallBack(Clear(cleared), s, w), Pass)
      case Some(cat) =>
        if cat.fromCache then (cleared.(catalog := Some(cat.(hostConfig := true))), Pass)
        else if !w.cacheWritable then
          (cleared.(catalog := Some(cat)), Fail(Error(SystemCallError, "could not write " + CacheFile(s))))
        else
          (cleared.(catalog := Some(cat.(hostConfig := true)), files := Cache(cleared.files, s, text)), Pass)
  }

  /** Lines 154-194 of `getconfig`: fetch, falling back to the cache when
      nothing comes back, and install what does. */
  function Retrieve(c: Client, s: Settings, facts: map<string, string>, w: World)
    : (r: (Client, Outcome))
    ensures r.1.Fail? <==>
              || Timeout(s.configTimeout).Err?
              || (FetchedText(w.fetch) && CacheWriteFails(w.fetch.text, w))
    ensures Timeout(s.configTimeout).Err? ==> r.0 == c && r.1.error.kind == ArgumentError
    ensures r.0.lock == c.lock && r.0.restart == c.restart
    ensures Timeout(s.configTimeout).Ok? && !FetchedText(w.fetch) ==> r == (FallBack(c, s, w), Pass)
    ensures Timeout(s.configTimeout).Ok? && FetchedText(w.fetch) ==>
              r == Install(GetRemoteConfig(c, facts, w.fetch, w.now).0, s, w.fetch.text, w)
    ensures r.0.storage == c.storage ||
              (&& Timeout(s.configTimeout).Ok? && FetchedText(w.fetch)
               && r.0.storage == c.storage.(facts := Some(facts), compileTime := Some(w.now)))
  {
    match GetActualConfig(c, s, facts, w)
    case Err(e) => (c, Fail(e))
    case Ok((fetched, text)) =>
      match text
      case None => (FallBack(fetched, s, w), Pass)
      case Some(t) => Install(fetched, s, t, w)
  }

  /** Whether `getconfig` will ask the server for its compile time and can
      then keep the catalog it has. */
  predicate ChecksFreshness(c: Client, s: Settings) {
    c.catalog.Some? || CacheFile(s) in c.files
  }

  /** `getconfig`. */
  function GetConfig(c: Client, s: Settings, facts: map<string, string>, w: World)
    : (r: (Client, Outcome))
    ensures |facts| == 0 ==> r == (DoStorage(c), Fail(Error(ClientError, "Could not retrieve any facts")))
    ensures r.0.lock == c.lock && r.0.restart == c.restart
  {
    var loaded := DoStorage(c);
    if |facts| == 0 then (loaded, Fail(Error(ClientError, "Could not retrieve any facts")))
    else if ChecksFreshness(loaded, s) then
      match Fresh(loaded, s, facts, w.freshness)
      case Err(e) => (loaded, Fail(e))
      case Ok(isFresh) =>
        if isFresh then
          var (cached, used) := UseCachedConfig(loaded, s, false, w.parse, w.instantiate);
          if used then (cached, Pass) else Retrieve(cached, s, facts, w)
        else Retrieve(loaded, s, facts, w)
    else Retrieve(loaded, s, facts, w)
  }

  /** The stored facts and compile time change only when the server returned
      catalog text, and then record the facts sent and the time of the fetch. */
  lemma GetConfigStorage(c: Client, s: Settings, facts: map<string, string>, w: World)
    ensures var r := GetConfig(c, s, facts, w).0;
            r.storage == c.storage ||
              (&& |facts| > 0 && FetchedText(w.fetch)
               && r.storage == c.storage.(facts := Some(facts), compileTime := Some(w.now)))
  {
  }

  /** What a fetch that changed the cache file must have delivered. */
  predicate CachedFetch(c: Client, s: Settings, w: World, r: Client) {
    && FetchedText(w.fetch)
    && w.parse(w.fetch.text).Some?
    && w.instantiate(w.parse(w.fetch.text).value).Some?
    && !w.instantiate(w.parse(w.fetch.text).value).value.fromCache
    && CacheFile(s) in r.files && r.files[CacheFile(s)] == w.fetch.text
    && r.catalog == Some(w.instantiate(w.parse(w.fetch.text).value).value.(hostConfig := true))
  }

  lemma RetrieveCacheWrites(c: Client, s: Settings, facts: map<string, string>, w: World)
    requires s.classFile != CacheFile(s)
    ensures var r := Retrieve(c, s, facts, w).0;
            !SameEntry(c.files, r.files, CacheFile(s)) ==> CachedFetch(c, s, w, r)
  {
    var r := Retrieve(c, s, facts, w).0;
    match GetActualConfig(c, s, facts, w)
    case Err(e) =>
    case Ok((fetched, text)) =>
      assert fetched.files == c.files;
      if text.Some? {
        assert w.fetch.Fetched? && text.value == w.fetch.text;
      }
  }

  /** The cache file changes only when fetched text loaded and built a catalog
      that did not come from the cache; it then holds exactly that text, and
      that catalog is installed.  So a catalog that fails to build is never
      cached. */
  lemma GetConfigCacheWrites(c: Client, s: Settings, facts: map<string, string>, w: World)
    requires s.classFile != CacheFile(s)
    ensures var r := GetConfig(c, s, facts, w).0;
            !SameEntry(c.files, r.files, CacheFile(s)) ==> CachedFetch(c, s, w, r)
  {
    var loaded := DoStorage(c);
    assert loaded.files == c.files;
    if |facts| > 0 && ChecksFreshness(loaded, s) && Fresh(loaded, s, facts, w.freshness) == Ok(true) {
      var (cached, used) := UseCachedConfig(loaded, s, false, w.parse, w.instantiate);
      assert cached.files == c.files;
      RetrieveCacheWrites(cached, s, facts, w);
    } else {
      RetrieveCacheWrites(loaded, s, facts, w);
    }
  }

  /** Conversely, when the catalog is stale (or freshness is not consulted)
      and fetched text builds a catalog that did not come from the cache and
      the cache can be written, `getconfig` installs that catalog as the
      host's configuration and caches the text. */
  lemma GetConfigCachesFetch(c: Client, s: Settings, facts: map<string, string>, w: World)
    requires |facts| > 0
    requires !ChecksFreshness(DoStorage(c), s) || Fresh(DoStorage(c), s, facts, w.freshness) == Ok(false)
    requires Timeout(s.configTimeout).Ok? && FetchedText(w.fetch)
    requires w.parse(w.fetch.text).Some? && w.instantiate(w.parse(w.fetch.text).value).Some?
    requires !w.instantiate(w.parse(w.fetch.text).value).value.fromCache && w.cacheWritable
    ensures CachedFetch(c, s, w, GetConfig(c, s, facts, w).0)
    ensures GetConfig(c, s, facts, w).1 == Pass
  {
    var loaded := DoStorage(c);
    assert GetConfig(c, s, facts, w) == Retrieve(loaded, s, facts, w);
  }

  /** A catalog that does not build is never written to the cache. */
  lemma InvalidCatalogNotCached(c: Client, s: Settings, facts: map<string, string>, w: World)
    requires s.classFile != CacheFile(s)
    requires w.fetch.Fetched? && w.parse(w.fetch.text).Some?
    requires w.instantiate(w.parse(w.fetch.text).value).None?
    ensures SameEntry(c.files, GetConfig(c, s, facts, w).0.files, CacheFile(s))
  {
    GetConfigCacheWrites(c, s, facts, w);
  }

  /** A catalog in memory that the server says is current is kept, without a
      fetch: the result does not depend on what a fetch would give. */
  lemma FreshCatalogKept(c: Client, s: Settings, facts: map<string, string>, w: World, f: Fetch)
    requires |facts| > 0 && c.catalog.Some?
    requires Fresh(DoStorage(c), s, facts, w.freshness) == Ok(true)
    ensures GetConfig(c, s, facts, w) == (DoStorage(c), Pass)
    ensures GetConfig(c, s, facts, w.(fetch := f)) == GetConfig(c, s, facts, w)
  {
  }

  /** When the catalog is not fresh (or freshness is not consulted) and
      nothing comes back from the server, a client without a catalog loads the
      cached one if `usecacheonfailure` is on and the cache loads, and ends
      without a catalog otherwise. */
  lemma FailedFetchFallsBack(c: Client, s: Settings, facts: map<string, string>, w: World)
    requires |facts| > 0 && c.catalog.None?
    requires !ChecksFreshness(DoStorage(c), s) || Fresh(DoStorage(c), s, facts, w.freshness) == Ok(false)
    requires Timeout(s.configTimeout).Ok? && !FetchedText(w.fetch)
    ensures var (r, outcome) := GetConfig(c, s, facts, w);
            && outcome == Pass
            && r.storage == c.storage
            && (r.catalog.Some? <==> s.useCacheOnFailure && CacheLoads(c, s, w.parse, w.instantiate))
            && (r.catalog.Some? ==> r.catalog.value.fromCache && r.catalog.value.hostConfig)
  {
    var loaded := DoStorage(c);
    assert GetActualConfig(loaded, s, facts, w) == Ok((loaded, None));
  }

  // ---------------------------------------------------------------------
  // run

  /** What one `run` did: the splay sleep, whether it took the lock, the
      outcome of `getconfig` if it was called, whether the catalog was applied,
      whether the process was sent HUP, and the error `run` raised, if any. */
  datatype RunReport = RunReport(
    slept: Option<int>,
    gotLock: bool,
    fetched: Option<Outcome>,
    applied: bool,
    hup: bool,
    error: Option<Error>)

  /** `run`: splay, then take the lock; without it nothing is fetched or
      applied.  With it, `getconfig` runs (its errors are only logged) and a
      catalog in memory is applied (`applies` says whether that succeeds; a
      failure propagates out of `run` and skips the restart check).  The lock
      is released if this run took it, and the catalog is always cleared.  The
      unlock at the end of the locked section is taken to remove only a lock
      this process holds. */
  function Run(c: Client, s: Settings, facts: map<string, string>, w: World, draw: nat, applies: bool)
    : (r: (Client, RunReport))
    ensures r.0.catalog.None?
    ensures r.1.slept == Splay(c, s, draw).1
    ensures c.lock != Unlocked ==>
              && !r.1.gotLock && r.1.fetched.None? && !r.1.applied
              && r.1.error.None? && r.0.lock == c.lock
    ensures c.lock == Unlocked ==> r.1.gotLock && r.1.fetched.Some? && r.0.lock == Unlocked
    ensures r.1.error.Some? ==> r.1.error.value.kind == ApplyError && !applies && !r.1.hup
    ensures r.1.hup ==> c.restart
    ensures r.0.restart == c.restart
    ensures var g := GetConfig(Splay(c, s, draw).0.(lock := RunLock), s, facts, w);
            && (c.lock == Unlocked ==> (r.1.applied <==> g.0.catalog.Some? && applies))
            && (c.lock == Unlocked ==> r.1.fetched == Some(g.1))
            && (r.1.error.Some? <==> c.lock == Unlocked && g.0.catalog.Some? && !applies)
    ensures r.1.hup <==> c.restart && r.1.error.None?
  {
    var (splayed, slept) := Splay(c, s, draw);
    if splayed.lock != Unlocked then
      (Clear(splayed), RunReport(slept, false, None, false, splayed.restart, None))
    else
      var locked := splayed.(lock := RunLock);
      var (fetched, outcome) := GetConfig(locked, s, facts, w);
      var released := Clear(fetched.(lock := Unlocked));
      if fetched.catalog.Some? && !applies then
        (released, RunReport(slept, true, Some(outcome), false, false,
                             Some(Error(ApplyError, "catalog run failed"))))
      else
        (released, RunReport(slept, true, Some(outcome), fetched.catalog.Some?, fetched.restart, None))
  }

  /** A failing `getconfig` does not make `run` fail, and the lock is free
      afterwards. */
  lemma RunSurvivesGetConfigFailure(c: Client, s: Settings, facts: map<string, string>, w: World,
                                    draw: nat, applies: bool)
    requires c.lock == Unlocked
    requires GetConfig(Splay(c, s, draw).0.(lock := RunLock), s, facts, w).1.Fail?
    requires applies
    ensures Run(c, s, facts, w, draw, applies).1.error.None?
    ensures Run(c, s, facts, w, draw, applies).0.lock == Unlocked
  {
  }

  /** When fetched text builds a catalog that cannot be cached, `getconfig`
      fails after installing the catalog, and `run` still applies it. */
  lemma RunAppliesUncachedCatalog(c: Client, s: Settings, facts: map<string, string>, w: World, draw: nat)
    requires c.lock == Unlocked && |facts| > 0
    requires var locked := Splay(c, s, draw).0.(lock := RunLock);
             !ChecksFreshness(DoStorage(locked), s) || Fresh(DoStorage(locked), s, facts, w.freshness) == Ok(false)
    requires Timeout(s.configTimeout).Ok? && FetchedText(w.fetch) && CacheWriteFails(w.fetch.text, w)
    ensures var report := Run(c, s, facts, w, draw, true).1;
            && report.fetched.Some? && report.fetched.value.Fail?
            && report.fetched.value.error.kind == SystemCallError
            && report.applied && report.error.None?
  {
    var locked := Splay(c, s, draw).0.(lock := RunLock);
    var loaded := DoStorage(locked);
    var fetched := GetRemoteConfig(loaded, facts, w.fetch, w.now).0;
    assert GetConfig(locked, s, facts, w) == Install(fetched, s, w.fetch.text, w);
  }

  /** A disabled client does not fetch; enabling it lets the next run take the
      lock and fetch. */
  lemma DisableEnableRun(c: Client, s: Settings, facts: map<string, string>, w: World,
                         draw: nat, applies: bool)
    requires c.lock == Unlocked
    ensures Run(Disable(c), s, facts, w, draw, applies).1.fetched.None?
    ensures Run(Disable(c), s, facts, w, draw, applies).0.lock == DisabledLock
    ensures Run(Enable(Disable(c)), s, facts, w, draw, applies).1.gotLock
  {
  }

  /** A client that gets HUP during a run is restarted once the run completes,
      unless applying the catalog failed. */
  lemma RestartAfterRun(c: Client, s: Settings, facts: map<string, string>, w: World, draw: nat)
    ensures Run(Restart(c), s, facts, w, draw, true).1.hup
  {
    var c1 := Restart(c);
    var (splayed, _) := Splay(c1, s, draw);
    assert splayed.restart;
    if splayed.lock == Unlocked {
      var locked := splayed.(lock := RunLock);
      assert GetConfig(locked, s, facts, w).0.restart;
    }
  }
}
