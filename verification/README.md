# Maven snapshot cleanup worker, modelled in Dafny

The worker is an event handler for an artifact repository platform. Its input is a list of (release, snapshot) repository pairs and an optional `dryRun` flag. For each pair it reads both repositories' configurations. When the pair is a Maven release repository paired with a Maven snapshot repository, it searches the snapshot repository for snapshot `.pom` items. It then counts each hit, or deletes it and counts it. It reports `{ total }` or `{ error }`.

The model treats the platform as an oracle (`Platform.Oracle`) with three parts:

- a configuration per repository key, where `None` or a missing key is a failed lookup;
- a search reply per snapshot key: failed, or a response whose `results` may be absent;
- the paths whose delete fails, each with its message.

The handler (`Worker.Handle`) is a pure function. It returns the outcome and the ordered trace of platform calls (`GetConfig`, `Search`, `Delete`). `CleanupProperties` defines what a run should do independently of the handler: the keys looked up, the snapshots searched, the paths deleted and the total. Its lemmas prove that the handler does exactly that. `ItemPaths` reads a built item path back into its parts.

Modules:

- `wrappers.dfy`: `Option`.
- `platform.dfy`: the oracle, the call trace and its projections.
- `worker.dfy`: the handler.
- `properties.dfy`: the reference definitions and the whole-run properties.
- `item_path.dfy`: reading item paths back.

An item at the repository root has path `.`. The code replaces it with an empty segment but keeps both separators, so the path is `repo//name`. The model follows the code, and `ItemPaths.RootItemPath` states the double slash.

## Model

| member | source | states |
|---|---|---|
| Worker.Handle | samples/artifactory/GENERIC_EVENT/mavenSnapshotCleanupWhenRelease/worker.ts:3-18 | A missing request, a missing `repositories` or an empty list gives exactly the error "There should be at least one repository pair." and no platform call. Any other request starts with the lookup of the first release key. A dry run (the default) always ends in `Total` with no delete. |
| CleanupProperties.DryRunDefault | samples/artifactory/GENERIC_EVENT/mavenSnapshotCleanupWhenRelease/worker.ts:8 | An absent `dryRun` behaves exactly as `true`: it deletes nothing and reports as its total the number of items the eligible pairs' searches found. |
| CleanupProperties.ExplicitFalseIsLive | samples/artifactory/GENERIC_EVENT/mavenSnapshotCleanupWhenRelease/worker.ts:8 | An explicit `dryRun: false` is kept rather than defaulted: when no delete fails, the run deletes every expected path and reports their number. |
| CleanupProperties.HandleDryRun | samples/artifactory/GENERIC_EVENT/mavenSnapshotCleanupWhenRelease/worker.ts:46-57 | A dry run issues no delete. Its total is the sum of the search-result lengths over the eligible pairs. |
| CleanupProperties.HandleLiveRun | samples/artifactory/GENERIC_EVENT/mavenSnapshotCleanupWhenRelease/worker.ts:46-57 | When no delete fails, a live run deletes exactly the built paths, in pair order and then result order, and its total is their number. Otherwise it deletes the paths up to and including the first failing one, and that delete is its last call. Earlier deletes stay in the trace, and the outcome is that delete's message. |
| CleanupProperties.HandleErrorIffDeleteFails | samples/artifactory/GENERIC_EVENT/mavenSnapshotCleanupWhenRelease/worker.ts:10-17 | For a request with pairs, the outcome is an error if and only if the run is live and some expected path's delete fails. Config and search failures never make an error. |
| CleanupProperties.HandleCalls | samples/artifactory/GENERIC_EVENT/mavenSnapshotCleanupWhenRelease/worker.ts:26-46 | The keys looked up are always a prefix of "release, snapshot" for each pair in order. On success they are all of it. The searches are then exactly the eligible pairs' snapshot keys, in order. |
| Worker.ProcessItems | samples/artifactory/GENERIC_EVENT/mavenSnapshotCleanupWhenRelease/worker.ts:46-57 | In a live run the item loop deletes the items' paths in order. When none fails, it counts them all. Otherwise it stops right after the first failing delete and carries its message. |
| Worker.DryRunItems | samples/artifactory/GENERIC_EVENT/mavenSnapshotCleanupWhenRelease/worker.ts:46-57 | In a dry run the item loop counts every item and calls nothing. |
| Worker.ProcessPair | samples/artifactory/GENERIC_EVENT/mavenSnapshotCleanupWhenRelease/worker.ts:29-62 | A pair always issues two lookups, release key first. An ineligible pair issues nothing more and adds 0. An eligible pair issues one search by its snapshot key, then only deletes. When it does not fail, it adds the length of the search result. |
| Worker.CleanupSnapshots | samples/artifactory/GENERIC_EVENT/mavenSnapshotCleanupWhenRelease/worker.ts:20-72 | The pair loop in a dry run neither fails nor deletes. |
| CleanupProperties.PairLookupsAndSearch | samples/artifactory/GENERIC_EVENT/mavenSnapshotCleanupWhenRelease/worker.ts:29-46 | Whether or not the pair is eligible, its lookups are exactly its release key then its snapshot key. It searches its snapshot key once if eligible, else never. |
| CleanupProperties.PairDeletes | samples/artifactory/GENERIC_EVENT/mavenSnapshotCleanupWhenRelease/worker.ts:46-57 | In a live run, a pair deletes its built paths in result order up to the first failing one, and counts them when none fails. |
| CleanupProperties.LookupsAndSearches | samples/artifactory/GENERIC_EVENT/mavenSnapshotCleanupWhenRelease/worker.ts:26-46 | Over all pairs, lookups follow pair order, two per pair. A failing delete can only cut them short. Searches are the eligible pairs' snapshot keys. |
| CleanupProperties.DryRunCountsMatches | samples/artifactory/GENERIC_EVENT/mavenSnapshotCleanupWhenRelease/worker.ts:51-56 | The dry-run loop never fails. Its count is the sum of the eligible pairs' search-result lengths. |
| CleanupProperties.LiveRunDeletes | samples/artifactory/GENERIC_EVENT/mavenSnapshotCleanupWhenRelease/worker.ts:46-57 | Over all pairs, the live loop deletes the expected paths in order up to the first failure. It counts them all when none fails. |
| CleanupProperties.CleanupIsAdditive | samples/artifactory/GENERIC_EVENT/mavenSnapshotCleanupWhenRelease/worker.ts:24-71 | Running `a + b` runs `a`, then `b` unless `a` failed. Totals add, traces concatenate, and a failure in `a` leaves `b` untouched. |
| CleanupProperties.FailedRunEndsWithFailingDelete | samples/artifactory/GENERIC_EVENT/mavenSnapshotCleanupWhenRelease/worker.ts:10-17 | A run that ends in failure has the failing delete as its last call, and carries that delete's message. Nothing is called after it. |
| CleanupProperties.LiveRunStopsAtFailure | samples/artifactory/GENERIC_EVENT/mavenSnapshotCleanupWhenRelease/worker.ts:46-57 | When some expected path's delete fails, the live run's last call is the delete of the first such path. |
| CleanupProperties.PairEndsWithFailingDelete | samples/artifactory/GENERIC_EVENT/mavenSnapshotCleanupWhenRelease/worker.ts:46-57 | A pair that fails ends with its failing delete, and carries its message. |
| CleanupProperties.CountIsNumberOfPaths | samples/artifactory/GENERIC_EVENT/mavenSnapshotCleanupWhenRelease/worker.ts:46-56 | The expected total is the number of built paths: one count per search hit. |
| CleanupProperties.FailedLookupSkipsPair | samples/artifactory/GENERIC_EVENT/mavenSnapshotCleanupWhenRelease/worker.ts:77-84 | A failed lookup on either side makes the pair ineligible, not an error. The pair issues only its two lookups and adds 0. |
| CleanupProperties.FailedSearchAddsNothing | samples/artifactory/GENERIC_EVENT/mavenSnapshotCleanupWhenRelease/worker.ts:91-104 | For an eligible pair, a failed search or a response without `results` adds 0 after the one search. The run then continues with the next pair unchanged. |
| ItemPaths.SplitJoin | samples/artifactory/GENERIC_EVENT/mavenSnapshotCleanupWhenRelease/worker.ts:47 | When the repository key and file name contain no `/`, splitting a built path at its first and last `/` gives back the key, the directory segment (empty for `.`) and the name. |
| ItemPaths.JoinSplit | samples/artifactory/GENERIC_EVENT/mavenSnapshotCleanupWhenRelease/worker.ts:47 | A path that splits is the join of its parts, `repo/dir/name`, and its outer parts hold no `/`. |
| ItemPaths.RootItemPath | samples/artifactory/GENERIC_EVENT/mavenSnapshotCleanupWhenRelease/worker.ts:47 | An item at the root `.` gets `repo//name`: an empty directory segment between two separators. |
| ItemPaths.ItemPathInjective | samples/artifactory/GENERIC_EVENT/mavenSnapshotCleanupWhenRelease/worker.ts:47 | Two items with `/`-free keys and names share a path if and only if they share key, name and directory segment. So the root `.` and an empty path collide. |

## Left out

- The HTTP transport, the endpoint URLs and async scheduling. Each call is one oracle answer, in the order the code awaits them.
- The AQL query text, its JSON escaping and the `$match` glob semantics. The platform evaluates these. A search is identified by the snapshot key alone, and its result is taken as given. The model does not check that hits end in `.pom` or lie under a `-SNAPSHOT` directory.
- Logging, including the closing summary line (lines 65-69). Logging is not a behaviour.
- The oracle is fixed for the whole run: a delete does not change what a later lookup or search returns. So a pair repeated in the list sees the same search result again, and deletes and counts its items a second time; two hits whose paths collide (a root `.` and an empty path, see `ItemPaths.ItemPathInjective`) are deleted and counted twice too. On the platform itself the second search would no longer return an item already deleted.
- Exceptions other than a failing delete: malformed search hits, a non-list `repositories`, non-boolean `dryRun` or configuration flags. JavaScript truthiness and coercion of such values are not modelled. Fields are taken to be strings and booleans.
- The message of a failed delete is an opaque string supplied by the oracle. The exception's structure is not modelled.
- The message of a failed configuration lookup or search. It is only logged.
