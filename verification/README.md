# Puppet catalog client, file modes and resource references in Dafny

This project models five pieces of Puppet (0.24 era) in Dafny and proves
properties of the model:

- **The catalog client** (`Puppet::Network::Client::Master`). This is the agent side
  that assembles facts, decides whether its catalog is still fresh, fetches a
  new catalog or falls back to the cached one, and runs under a lock.
  - The client is an explicit state record, `ClientState.Client`. It holds:
    - the persistent storage entries (fact snapshot, compile time, splay time);
    - the in-memory catalog;
    - a file map holding the cache file, its temporary file and the class file;
    - the lock;
    - the restart flag.
  - Each operation takes that state and returns the new state.
  - The server, the YAML loader and catalog construction enter as values and
    functions, in `ClientRun.World`.
- **The file `mode` property**. It covers:
  - munging textual modes into octal integers;
  - directory masking (read implies search);
  - octal rendering;
  - `retrieve`, the symlink in-sync override, and `sync`.
- **Resource references** (`Type[title]`). It covers parsing, type
  canonicalisation, `to_s`, the builtin-type rule and `resolve`.
- **Resource declarations in the parser AST**. One parser resource is built per
  title, with shared parameters and type and the exported/virtual flags; there
  is also the `params=` wrapping.
- **The server-side configuration handler**. It covers option checking, server
  facts, the node key, class appending and local translation.

Modules:

| module | file |
|---|---|
| `Wrappers` | `Option`, `Result` and the Ruby exception classes as `ErrorKind` |
| `Text` | ASCII case mapping, `capitalize`, `split`/`join` on a character, dropping trailing empty fields |
| `Numerals` | `"%o"`, `to_s`, and `Integer()` on digit strings (a leading 0 means octal) |
| `FileMode` | `lib/puppet/type/file/mode.rb` |
| `ResourceReference` | `lib/puppet/resource_reference.rb` |
| `AstResource` | `lib/puppet/parser/ast/resource.rb` |
| `ConfigurationHandler` | `lib/puppet/network/handler/configuration.rb` |
| `ClientFacts` | fact assembly, dynamic facts and `facts_changed?` of `lib/puppet/network/client/master.rb` |
| `ClientState` | the state record and the single-purpose operations of `lib/puppet/network/client/master.rb` |
| `ClientRun` | `get_remote_config`, `get_actual_config`, `getconfig` and `run` of `lib/puppet/network/client/master.rb` |

Strings that Ruby matches with `^…$` are single-line strings (`Text.Line`).
Ruby's anchors match at every line, so only on such strings do those
expressions test the whole string.

Where the code and its own comments disagree, the model follows the code:
`fresh?` carries a comment about a two-second drift. The code tests
`newcompile - compile_time < 1`, so the model treats a server time at or
before the client's as fresh, and anything later as stale.

## Model

| member | source | states |
|---|---|---|
| `Numerals.IntegerOfDigits` | lib/puppet/type/file/mode.rb:50-56 | `Integer()` on a digit string fails with ArgumentError exactly when it has a leading 0, more digits, and an 8 or 9; otherwise its value is the octal value after a leading 0 and the decimal value without one |
| `Numerals.IntegerOfPrintedNumbers` | lib/puppet/type/file/mode.rb:13-16 | `Integer()` reads back "%o" output once it is prefixed with 0, and reads back `to_s` output as it is |
| `Numerals.OctalValueText` | lib/puppet/type/file/mode.rb:16 | printing in octal inverts reading octal on text without superfluous leading zeros |
| `Text.SplitJoin` | lib/puppet/network/client/master.rb:300 | splitting a joined list on its separator gives the list back when no element holds the separator |
| `Text.DropTrailingEmpty` | lib/puppet/resource_reference.rb:52 | Ruby's `split` result is a prefix of the raw fields, ends in a non-empty field, and only empty fields are dropped |
| `Text.Capitalize` | lib/puppet/resource_reference.rb:52 | `capitalize`: the first character upper-cased, the rest lower-cased, the length kept |
| `FileMode.ModeToS` | lib/puppet/type/file/mode.rb:13-35 | an integer prints as canonical octal digits whose value is that integer; a symbol prints as its name; anything else is a DevError |
| `FileMode.Munge` | lib/puppet/type/file/mode.rb:37-60 | non-strings pass unchanged; a non-digit string is a Puppet::Error; digits with 8 or 9 are a DevError; octal digits give their octal value |
| `FileMode.MungeShouldToS` | lib/puppet/type/file/mode.rb:25-60 | munging the text `should_to_s` prints for any n ≥ 0 gives n back |
| `FileMode.MungeExample` | lib/puppet/type/file/mode.rb:46-56 | "644" becomes 0644, "0755" becomes 0755, "rwx" and "0855" are refused |
| `FileMode.Dirmask` | lib/puppet/type/file/mode.rb:64-78 | identity off directories; bits above 0777 are kept; on a directory each role's digit gains its execute bit when it has its read bit |
| `FileMode.DirmaskAddsOnlySearchBits` | lib/puppet/type/file/mode.rb:64-78 | on a directory the result is a superset adding only 0100, 010 and 01; read implies search in every role; a mode already obeying that is unchanged |
| `FileMode.DirmaskIdempotent` | lib/puppet/type/file/mode.rb:64-78 | masking twice is masking once |
| `FileMode.DirmaskExample` | lib/puppet/type/file/mode.rb:64-78 | 0644 on a directory becomes 0755 |
| `FileMode.DirmaskValue` | lib/puppet/type/file/mode.rb:64-78 | an integer is masked; a non-integer is returned off directories and is a NoMethodError on directories |
| `FileMode.DirmaskAll` | lib/puppet/type/file/mode.rb:95-97 | every `should` value is masked element by element; a failure comes from some element |
| `FileMode.Retrieve` | lib/puppet/type/file/mode.rb:89-103 | a missing file reports `:absent` and leaves `should` alone; an existing one reports `mode & 07777` (< 4096); a fixed property keeps `should`; otherwise `should` becomes its element-wise `dirmask`, and retrieve fails exactly when that does |
| `FileMode.RetrieveRemaskHarmless` | lib/puppet/type/file/mode.rb:93-99 | re-masking integer `should` values at a second retrieve changes nothing |
| `FileMode.InSync` | lib/puppet/type/file/mode.rb:80-87 | an unfollowed symlink is always in sync; otherwise the generic comparison decides |
| `FileMode.UnfollowedLinkIgnoresCurrent` | lib/puppet/type/file/mode.rb:80-87 | for an unfollowed symlink the answer does not depend on the current mode |
| `FileMode.Sync` | lib/puppet/type/file/mode.rb:105-131 | nil exactly for a missing file or an `:absent` mode; `:file_changed` exactly when the file exists, the mode is not absent and chmod succeeds; a Puppet::Error naming the path exactly when the file exists, the mode is not absent and chmod fails |
| `ResourceReference.SplitColonsAll` | lib/puppet/resource_reference.rb:52 | the fields of a split on "::" never contain "::", only the last may end in ':', the first is a prefix of the input and is followed by "::" when there are more |
| `ResourceReference.SplitJoinColons` | lib/puppet/resource_reference.rb:52 | splitting joined well-formed fields gives them back |
| `ResourceReference.CapitalizedFields` | lib/puppet/resource_reference.rb:52 | the result, split on "::" without dropping anything, is the input's Ruby-split fields, each capitalised (so no "::" is left at the end), and it is empty when the input has no fields |
| `ResourceReference.CanonTypeAsWritten` | lib/puppet/resource_reference.rb:48-54 | nil and any casing of "component" become "Class"; any other result, split on "::" without dropping anything, is the input's Ruby-split fields each capitalised, and is empty when there are none |
| `ResourceReference.CanonTypeAsWrittenNotIdempotent` | lib/puppet/resource_reference.rb:48-54 | as written, any casing of "component" followed by "::" becomes a capitalised "Component", not "Class", and canonicalising that gives "Class"; the corrected form gives "Class" at once |
| `ResourceReference.CanonType` | lib/puppet/resource_reference.rb:48-54 | nil and any casing of "component" become "Class"; unless the capitalised fields read "component", the result split on "::" without dropping anything is the input's Ruby-split fields each capitalised, and empty when there are none; no result reads "component" in any casing |
| `ResourceReference.CanonTypeIdempotent` | lib/puppet/resource_reference.rb:48-54 | canonicalising a canonical type changes nothing |
| `ResourceReference.CanonTypeDiffersOnlyOnComponent` | lib/puppet/resource_reference.rb:48-54 | the corrected canonicalisation differs from the code only where the code produces a casing of "Component" |
| `ResourceReference.MatchReferenceIff` | lib/puppet/resource_reference.rb:39 | the title pattern yields (t, x) exactly when the title is t[x] with t non-empty and bracket-free and x non-empty, so x is greedy |
| `ResourceReference.MatchReferenceSound` | lib/puppet/resource_reference.rb:39 | every match splits the title as type, '[', title, ']' |
| `ResourceReference.MatchReferenceComplete` | lib/puppet/resource_reference.rb:39 | every title of the form t[x] matches with that t and x |
| `ResourceReference.New` | lib/puppet/resource_reference.rb:13-21 | as written: a bracketed title sets type and title and wins over the type argument; otherwise the argument, possibly nil, is canonicalised |
| `ResourceReference.SetTitle` | lib/puppet/resource_reference.rb:38-45 | as written: a bracketed value sets type and title as the constructor does; any other value is stored as is and the type is untouched |
| `ResourceReference.NewCorrected` | lib/puppet/resource_reference.rb:13-21 | the constructor with the corrected canonicalisation: same precedence, canonical types |
| `ResourceReference.SetTitleCorrected` | lib/puppet/resource_reference.rb:38-45 | `title=` with the corrected canonicalisation |
| `ResourceReference.ToS` | lib/puppet/resource_reference.rb:57-59 | the rendering is the type, '[', the title and ']' in that order |
| `ResourceReference.NewTypeStable` | lib/puppet/resource_reference.rb:13-54 | as written, a constructed type that is not a casing of "component" is unchanged by canonicalising it again |
| `ResourceReference.NewCorrectedTypeIsCanonical` | lib/puppet/resource_reference.rb:13-54 | with the corrected canonicalisation every constructed reference has a canonical type |
| `ResourceReference.ToSRoundTrip` | lib/puppet/resource_reference.rb:13-59 | as written, rebuilding from `to_s` with a nil type gives the same reference when the type is non-empty, bracket-free and not a casing of "component", and the title is non-empty |
| `ResourceReference.ToSParses` | lib/puppet/resource_reference.rb:39-59 | `to_s` of a reference with a non-empty, bracket-free type and a non-empty title matches the title pattern with that type and title |
| `ResourceReference.ToSRoundTripFailsAsWritten` | lib/puppet/resource_reference.rb:13-59 | as written, a type that is a casing of "component" followed by "::", with a bracket-free title x, gives a capitalised `Component[x]`, which rebuilds as `Class[x]`, a different reference |
| `ResourceReference.ReparseComponent` | lib/puppet/resource_reference.rb:13-59 | as written, the `to_s` of a reference whose type is any casing of "component" rebuilds as `Class` with the same title |
| `ResourceReference.ToSRoundTripCorrected` | lib/puppet/resource_reference.rb:13-59 | with the corrected canonicalisation, rebuilding from `to_s` gives the same reference whenever the type is non-empty and bracket-free and the title non-empty |
| `ResourceReference.BuiltinType` | lib/puppet/resource_reference.rb:67-78 | builtin exactly when the type contains no "::" and its lower-cased name is registered, and then the answer is that name |
| `ResourceReference.Resolve` | lib/puppet/resource_reference.rb:24-34 | with a catalog, a lookup by `to_s`; without one, a builtin type's instance with the title, and for any other type the component named by `to_s` |
| `AstResource.SetParams` | lib/puppet/parser/ast/resource.rb:61-71 | the result is always an array node at the same file and line; an array is kept, anything else becomes its only child |
| `AstResource.SetParamsIdempotent` | lib/puppet/parser/ast/resource.rb:61-71 | wrapping happens at most once |
| `AstResource.TitleSeq` | lib/puppet/parser/ast/resource.rb:20-23 | a single title is a one-element list |
| `AstResource.Build` | lib/puppet/parser/ast/resource.rb:32-49 | exported is the declaration's or the scope's; virtual is either one's virtual or exported; type, title, params, file and line are passed on |
| `AstResource.ExportedImpliesVirtual` | lib/puppet/parser/ast/resource.rb:33-38 | an exported resource is always virtual |
| `AstResource.FanOut` | lib/puppet/parser/ast/resource.rb:30-57 | one resource per title, in title order |
| `AstResource.FanOutAppend` | lib/puppet/parser/ast/resource.rb:27-30 | declaring a list of titles equals declaring its parts one after another |
| `AstResource.Evaluate` | lib/puppet/parser/ast/resource.rb:12-58 | one resource per title in order, all with the same params and type, flags as above; the compiler receives exactly these resources in the same order |
| `ConfigurationHandler.ServerFacts` | lib/puppet/network/handler/configuration.rb:136-161 | serverversion is always set; serverip is present iff ipaddress is; servername is fqdn, else host.domain, else hostname (possibly nil); no other keys |
| `ConfigurationHandler.ServerNameKnown` | lib/puppet/network/handler/configuration.rb:143-160 | servername is non-nil iff one of fqdn, domain and hostname is known |
| `ConfigurationHandler.GivenLocal` | lib/puppet/network/handler/configuration.rb:46-49 | the :Local value is that of the last :Local entry, false when there is none |
| `ConfigurationHandler.GivenClasses` | lib/puppet/network/handler/configuration.rb:46-49 | the :Classes value is that of the last :Classes entry, nil when there is none |
| `ConfigurationHandler.New` | lib/puppet/network/handler/configuration.rb:45-56 | the handler is refused with ArgumentError iff some option key is neither :Classes nor :Local; otherwise it carries the server facts and the :Classes and :Local values given, nil and false when absent |
| `ConfigurationHandler.NewLastClassesWins` | lib/puppet/network/handler/configuration.rb:46-49 | adding a :Classes entry to accepted options sets the classes to its value and changes nothing else |
| `ConfigurationHandler.ConfigurationKey` | lib/puppet/network/handler/configuration.rb:26-28 | with node_name "cert" and a client name, the client name is the key; otherwise the given key |
| `ConfigurationHandler.AppendClasses` | lib/puppet/network/handler/configuration.rb:83-87 | the node's classes are kept and the configured ones follow in their order |
| `ConfigurationHandler.AddNodeData` | lib/puppet/network/handler/configuration.rb:78-88 | the server facts are merged into the parameters and the configured classes appended; no classes option leaves the list alone |
| `ConfigurationHandler.Translate` | lib/puppet/network/handler/configuration.rb:164-170 | a local handler returns the configuration unchanged, a networked one its encoding |
| `ConfigurationHandler.Configuration` | lib/puppet/network/handler/configuration.rb:24-43 | an unknown node is a Puppet::Error; otherwise the compiled configuration of the node with server data added, or the compile error |
| `ClientFacts.Facts` | lib/puppet/network/client/master.rb:21-48 | keys are Facter's plus clientversion and environment; values are stringified and lower-cased when asked; clientversion is always the version; environment is added only when Facter has none |
| `ClientFacts.FactsNeverEmpty` | lib/puppet/network/client/master.rb:38-48 | the assembled fact map is never empty |
| `ClientFacts.DynamicFacts` | lib/puppet/network/client/master.rb:51-53 | every dynamic fact name is lower case and the last is non-empty |
| `ClientFacts.DynamicFactsNoComma` | lib/puppet/network/client/master.rb:51-53 | no dynamic fact name contains a comma |
| `ClientFacts.DynamicFactsJoin` | lib/puppet/network/client/master.rb:51-53 | a comma-separated list of plain lower-case names reads back as that list |
| `ClientFacts.DynamicFactsPadded` | lib/puppet/network/client/master.rb:51-53 | white space on either side of a comma is not part of a name: a, padding, comma, padding, b reads as the names a and b |
| `ClientFacts.DefaultDynamicFacts` | test/network/client/master.rb:468-469 | the default list reads back as memorysize, memoryfree, swapsize, swapfree |
| `ClientFacts.WithoutDynamic` | lib/puppet/network/client/master.rb:465-469 | deleting the dynamic keys keeps exactly the other keys with their values |
| `ClientFacts.WithoutDynamicEqual` | lib/puppet/network/client/master.rb:465-482 | the two maps without dynamic keys are equal iff they agree on every non-dynamic fact |
| `ClientFacts.FactsChanged` | lib/puppet/network/client/master.rb:462-485 | the two maps without dynamic keys differ iff some non-dynamic fact was added, removed or changed relative to the snapshot (none counts as empty) |
| `ClientFacts.DynamicDifferencesIgnored` | test/network/client/master.rb:484-495 | a dynamic fact that is new, changed or only in the snapshot is not a change |
| `ClientFacts.StaticDifferenceDetected` | test/network/client/master.rb:478-481 | adding or changing a non-dynamic fact is a change |
| `ClientFacts.NoSnapshotChanged` | lib/puppet/network/client/master.rb:463 | with no snapshot, facts changed iff some fact is not dynamic |
| `ClientState.DoStorage` | lib/puppet/network/client/master.rb:79-82 | the compile time in memory is kept, else the stored one is taken; nothing else changes |
| `ClientState.DoStorageIdempotent` | lib/puppet/network/client/master.rb:82 | loading twice is loading once |
| `ClientState.Fresh` | lib/puppet/network/client/master.rb:99-121 | fresh iff the cache is not ignored, a compile time exists, facts are unchanged and the server's time is not after it; a freshness error surfaces only when the three checks pass |
| `ClientState.FreshShortCircuits` | lib/puppet/network/client/master.rb:100-111 | when a local check decides, the server's answer is irrelevant and the result is false |
| `ClientState.FreshDrift` | lib/puppet/network/client/master.rb:113-120 | an earlier or equal server time is fresh, one second later is not |
| `ClientState.Timeout` | lib/puppet/network/client/master.rb:442-457 | an Integer passes through; a non-digit String or other value is an ArgumentError; a digit String gives exactly what `Integer()` gives |
| `ClientState.TimeoutOfDecimalText` | test/network/client/master.rb:447-462 | a decimal string setting reads as its number |
| `ClientState.TimeoutOctalText` | lib/puppet/network/client/master.rb:446-447 | "010" reads as 8 and "09" is an error |
| `ClientState.Splay` | lib/puppet/network/client/master.rb:540-553 | off: no sleep, no change; a stored time is slept again unchanged; else a time in [0, limit) is stored and slept |
| `ClientState.SplayStable` | lib/puppet/network/client/master.rb:546-552 | after one splay, the next sleeps the same time whatever is drawn |
| `ClientState.CacheFile` | lib/puppet/network/client/master.rb:65-70 | the cache path is the localconfig setting followed by ".yaml" |
| `ClientState.Cache` | lib/puppet/network/client/master.rb:56-63 | after a successful write the cache file holds the text, the temporary file is gone, and every other path is unchanged |
| `ClientState.RetrieveCache` | lib/puppet/network/client/master.rb:229-235 | the cache text exactly when the cache file exists |
| `ClientState.CacheRetrieve` | lib/puppet/network/client/master.rb:56-63 | what is cached is what is retrieved |
| `ClientState.SetClasses` | lib/puppet/network/client/master.rb:290-306 | only the files may change; local, nil, empty or unwritable leave them; otherwise the class file holds the classes joined by line breaks |
| `ClientState.ClassFileRoundTrip` | lib/puppet/network/client/master.rb:299-301 | reading the class file line by line gives the class list back |
| `ClientState.Clear` | lib/puppet/network/client/master.rb:72-76 | the catalog is dropped and nothing else changes |
| `ClientState.UseCachedConfig` | lib/puppet/network/client/master.rb:559-581 | true iff a catalog ends in memory, iff one was there or (not a refused failure and the cache loads); only the catalog changes; a loaded catalog comes from the cache and is the host config |
| `ClientState.CachedCatalogFlags` | lib/puppet/network/client/master.rb:571-573 | a catalog the fallback installs has from_cache and host_config set |
| `ClientState.Disable` | lib/puppet/network/client/master.rb:130-132 | a free lock becomes the anonymous lock; a taken lock is kept |
| `ClientState.Enable` | lib/puppet/network/client/master.rb:125-127 | the lock becomes free and nothing else changes |
| `ClientState.EnableUndoesDisable` | lib/puppet/network/client/master.rb:125-132 | enabling after disabling restores the client |
| `ClientState.Restart` | lib/puppet/network/client/master.rb:213-217 | the restart flag is set and nothing else changes |
| `ClientState.RestartRequested` | lib/puppet/network/client/master.rb:220-226 | `restart?` is false for a new client and true after `restart` |
| `ClientRun.GetRemoteConfig` | lib/puppet/network/client/master.rb:501-529 | text comes back iff the fetch gave non-empty text; then compile time and stored facts are updated before loading; otherwise nothing changes |
| `ClientRun.RemoteConfigMakesFresh` | lib/puppet/network/client/master.rb:524-526 | after a successful fetch the client counts as fresh for the facts sent while the server's time is not later |
| `ClientRun.GetActualConfig` | lib/puppet/network/client/master.rb:489-498 | a bad timeout setting is an error; a timeout gives nil and no change; otherwise the remote fetch |
| `ClientRun.FallBack` | lib/puppet/network/client/master.rb:159-160 | only the catalog changes; a catalog in memory is kept; otherwise a catalog is loaded iff `usecacheonfailure` is on and the cache loads, and it is marked as from the cache and the host config |
| `ClientRun.Install` | lib/puppet/network/client/master.rb:163-194 | storage, lock and restart are untouched; a YAML failure keeps a catalog in memory or else loads the cache iff `usecacheonfailure` is on and it loads; a build failure loads the cache on the same terms; a built catalog is installed as host config; a built, non-cached catalog with a writable cache has its text written to the cache file, and the cache file changes in no other case; a failing cache write is an error that leaves the built catalog installed |
| `ClientRun.Retrieve` | lib/puppet/network/client/master.rb:154-194 | fails iff the timeout setting is bad or fetched text builds a catalog whose cache write fails; with no text it is the fallback; fetched text is installed into the client that recorded the fetch; storage changes only by recording a successful fetch |
| `ClientRun.GetConfig` | lib/puppet/network/client/master.rb:136-195 | empty facts raise ClientError before anything else; lock and restart flag are untouched |
| `ClientRun.GetConfigStorage` | lib/puppet/network/client/master.rb:522-526 | storage changes only when the server returned text, and then records the facts sent and the fetch time |
| `ClientRun.RetrieveCacheWrites` | lib/puppet/network/client/master.rb:158-191 | a changed cache file holds fetched text that loaded and built a catalog not from the cache, now installed |
| `ClientRun.GetConfigCacheWrites` | lib/puppet/network/client/master.rb:136-195 | the same for the whole of `getconfig` |
| `ClientRun.GetConfigCachesFetch` | lib/puppet/network/client/master.rb:136-194 | when the catalog is stale or freshness is not consulted and fetched text builds a non-cached catalog with a writable cache, `getconfig` succeeds, caches the text and installs the catalog as host config |
| `ClientRun.InvalidCatalogNotCached` | test/network/client/master.rb:569-584 | a catalog that fails to build never reaches the cache file |
| `ClientRun.FreshCatalogKept` | lib/puppet/network/client/master.rb:149-152 | a fresh in-memory catalog is kept without a fetch, whatever a fetch would give |
| `ClientRun.FailedFetchFallsBack` | lib/puppet/network/client/master.rb:149-161 | when the catalog is stale or freshness is not consulted and nothing is fetched, storage is untouched and the cached catalog is loaded iff `usecacheonfailure` is on and the cache loads |
| `ClientRun.Run` | lib/puppet/network/client/master.rb:240-283 | the catalog is always cleared; a taken lock means no fetch and no apply, and the lock is kept; a free lock is taken, `getconfig` runs and reports its outcome, and the lock is free afterwards; the catalog `getconfig` leaves is applied iff it exists and applying succeeds; `run` raises iff a catalog was there and applying failed; HUP is sent iff a restart was requested and `run` did not raise |
| `ClientRun.RunSurvivesGetConfigFailure` | test/network/client/master.rb:559-567 | a failing `getconfig` does not make `run` fail and leaves the lock free |
| `ClientRun.RunAppliesUncachedCatalog` | lib/puppet/network/client/master.rb:240-263 | when fetched text builds a catalog whose cache write fails, `getconfig` fails with that error, and `run` still applies the catalog and raises nothing |
| `ClientRun.DisableEnableRun` | test/network/client/master.rb:39-63 | a disabled client does not fetch and stays disabled; after enabling, the run takes the lock |
| `ClientRun.RestartAfterRun` | lib/puppet/network/client/master.rb:273-277 | a restart requested before a successful run is carried out after it |

## Left out

- Facter enumeration and reloading are not modelled. Neither are fact and plugin downloads (`download`, `getfacts`, `getplugins`, `loaddir`, `loadfacts`) or Ruby `load`. These are I/O against libraries outside this model; Facter is an input map.
- YAML and CGI encoding, the XMLRPC driver and `Timeout::timeout` are not modelled. The fetch is one abstract outcome (timed out, failed, or text), and loading and building a catalog are functions that may fail.
- `@@sync`, `sleep`, `Process.kill(:HUP)`, logging and benchmarking are left out. Only the slept time and whether HUP would be sent are reported.
- Pidlock is an abstract lock, and Pidlock's source is not part of this model. `DisabledLock` is the anonymous lock of `disable`; `RunLock` is a lock taken by a run. A `RunLock` that is already there when `run` starts is read as another process's lock, so the plain `lockfile.unlock` at master.rb:271 leaves it alone. `enable` (master.rb:125-127) unlocks anonymously, and the model reads that as removing any lock, a `RunLock` included (`ClientState.Enable`).
- The `dostorage` delete-and-retry loop on a corrupt state file is left out, as is the storage file format. Storage is a record.
- Catalog apply, transactions and `retrieval_duration` are left out. Apply is a success flag.
- Interpreter compilation, `Node#merge`, node lookup and the handler's `version` are parameters, not modelled code. So are `compile`'s benchmark level and `update_node_check`.
- The catalog client's `initialize`, `running?` and `lockfile` accessors hold no logic beyond what the state record captures.
- Ruby `Integer()` also accepts signs, underscores, surrounding white space and `0x`/`0b` prefixes. The model covers the all-digit strings that the guarding patterns let through.
- `Integer(Puppet[:splaylimit])` is taken to have produced an integer, so `Settings.splayLimit` is an `int`. `rand(0)` returns a fraction in Ruby; the model draws 0.
- Negative integer modes, and `Integer` values of modes that are not natural numbers, are not modelled.
- Strings matched with `^`/`$` are single-line. On multi-line strings Ruby's anchors match at inner lines, and that behaviour is not modelled.
- `builtin_type` caches its answer in `@builtin_type`. The cache is not reset when `type=` runs later, and that staleness is not modelled.
- `ClientRun.GetConfig`: its own contract states only the empty-facts error and the unchanged lock and restart flag. Storage is stated by `ClientRun.GetConfigStorage`. Cache writes are stated in both directions: `ClientRun.GetConfigCacheWrites` says the cache changes only for a built, non-cached fetch, and `ClientRun.GetConfigCachesFetch` says such a fetch is cached when the catalog was stale or freshness was not consulted. The fallbacks are stated by `ClientRun.FallBack`, `ClientRun.Install`, `ClientRun.Retrieve` and `ClientRun.FailedFetchFallsBack`.
- `ClientFacts.DynamicFacts`: its contract states lower case, no comma (`ClientFacts.DynamicFactsNoComma`) and the dropped trailing fields. The trimming is stated for two names around one padded comma (`ClientFacts.DynamicFactsPadded`) and for unpadded lists (`ClientFacts.DynamicFactsJoin`). Padding before the first or after the last name is kept, because no comma borders it.
- `ClientState.Cache`: a write that fails is modelled in `ClientRun.Install` as leaving the cache file unchanged. A failure after the temporary file is written and before the rename leaves that file behind, and this is not modelled.
- `AstResource.Evaluate`: `exceptwrap` turns an exception from `Puppet::Parser::Resource.new` or `add_resource` into a Puppet::ParseError. The fan-out then stops, and the resources already added stay in the compiler. Neither can fail in the model, because the raising code is outside the modelled files.
- The fetch counts as atomic: a timeout that fires between `get_remote_config`'s storage writes and its return is not modelled.

## Findings

| source | as written | input that shows it | evidently intended | confidence | as-written member | corrected member |
|---|---|---|---|---|---|---|
| lib/puppet/resource_reference.rb:48-54 | the "component" test is made on the raw value, before `split("::")` drops trailing empty fields | "component::" canonicalises to "Component", which canonicalises again to "Class" | canonicalisation gives a type that canonicalises to itself ("so we know it's always consistent") | low: an unusual input; not executed | `ResourceReference.CanonTypeAsWrittenNotIdempotent` | `ResourceReference.CanonTypeIdempotent` |
| lib/puppet/resource_reference.rb:13-59 | the constructor canonicalises its type with the raw "component" test | type "component::" with title "x" gives `Component[x]`, and building from that text gives `Class[x]` | a reference rebuilt from its `to_s` is the same reference | low: an unusual input; not executed | `ResourceReference.ToSRoundTripFailsAsWritten` | `ResourceReference.ToSRoundTripCorrected` |

`ResourceReference.New` and `ResourceReference.SetTitle` model the code as written; the
rest of their properties hold for all types that are not casings of "component"
(`ResourceReference.NewTypeStable`, `ResourceReference.ToSRoundTrip`).
`ResourceReference.NewCorrected` and `ResourceReference.SetTitleCorrected` use the corrected
`ResourceReference.CanonType`, which makes the "component" test on the joined result.
`ResourceReference.CanonTypeDiffersOnlyOnComponent` shows this is the only difference.
