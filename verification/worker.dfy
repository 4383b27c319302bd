/** The cleanup handler: validate the request, resolve `dryRun`, walk the
    (release, snapshot) pairs, and for each eligible pair count, or delete and
    count, the snapshot `.pom` items the search returns. Every platform request
    goes through the oracle, and every run reports the calls it made in order. */
module Worker {
  import opened Wrappers
  import opened Platform

  /** One entry of the `repositories` parameter. */
  datatype RepositoryPair = RepositoryPair(release: string, snapshot: string)

  /** The handler's parameters; either field may be missing. */
  datatype Request = Request(repositories: Option<seq<RepositoryPair>>, dryRun: Option<bool>)

  /** What the handler returns: `{ total }` or `{ error }`. */
  datatype Outcome = Total(total: nat) | Error(message: string)

  /** The handler's result together with the platform calls it made. */
  datatype Response = Response(outcome: Outcome, trace: seq<Call>)

  /** A partial run: items counted so far, calls made, and the message of the
      delete failure that stopped it, if one did. */
  datatype Run = Run(count: nat, trace: seq<Call>, failure: Option<string>)

  const NoPairsMessage := "There should be at least one repository pair."

  const Maven := "maven"

  /** The request carries no repository pair (or there is no request at all). */
  predicate NoPairs(params: Option<Request>) {
    || params.None?
    || params.value.repositories.None?
    || |params.value.repositories.value| == 0
  }

  /** `params.dryRun ?? true` */
  function DryRun(req: Request): bool {
    req.dryRun.GetOr(true)
  }

  /** A pair is cleaned only when both lookups succeeded, both repositories are
      Maven repositories, the release one handles releases and the snapshot one
      handles snapshots. */
  predicate Eligible(release: Option<RepositoryConfig>, snapshot: Option<RepositoryConfig>) {
    && release.Some? && release.value.packageType == Maven && release.value.handleReleases
    && snapshot.Some? && snapshot.value.packageType == Maven && snapshot.value.handleSnapshots
  }

  predicate PairEligible(o: Oracle, pair: RepositoryPair) {
    Eligible(GetRepositoryConfiguration(o, pair.release), GetRepositoryConfiguration(o, pair.snapshot))
  }

  /** The directory part of an item path: the root path `.` becomes empty. */
  function DirSegment(path: string): string {
    if path == "." then "" else path
  }

  /** The path deleted for a search hit. For an item at the repository root the
      result is `repo//name`: the separators on both sides of the emptied
      directory segment stay. */
  function ItemPath(item: Item): string {
    item.repo + "/" + DirSegment(item.path) + "/" + item.name
  }

  /** The item paths of a search result, in result order. */
  function Paths(items: seq<Item>): (ps: seq<string>)
    ensures |ps| == |items|
    decreases |items|
  {
    if |items| == 0 then [] else [ItemPath(items[0])] + Paths(items[1..])
  }

  /** A live item loop over `paths` deleted them in order and counted them all
      when none fails; otherwise it deleted them up to and including the first
      failing one, made no further call, and carries that delete's message.
      The exact trace is pinned down here, because the item loop issues only
      deletes; whole runs are compared through their deletes alone. */
  predicate DeletedUpToFirstFailure(r: Run, paths: seq<string>, failures: map<string, string>) {
    var k := FirstFailure(paths, failures);
    if k == |paths| then r == Run(|paths|, DeleteCalls(paths), None)
    else r.failure == Some(failures[paths[k]]) && r.trace == DeleteCalls(paths[..k + 1])
  }

  /** A successful delete of `path` followed by a loop over `ps` is a loop over
      `[path] + ps`. */
  lemma DeletedStep(path: string, ps: seq<string>, rest: Run, failures: map<string, string>)
    requires path !in failures
    requires DeletedUpToFirstFailure(rest, ps, failures)
    ensures DeletedUpToFirstFailure(Run(1 + rest.count, [Delete(path)] + rest.trace, rest.failure), [path] + ps, failures)
  {
    var all := [path] + ps;
    assert all[1..] == ps;
    var k := FirstFailure(ps, failures);
    assert FirstFailure(all, failures) == 1 + k;
    if k < |ps| {
      assert all[..k + 2] == [path] + ps[..k + 1];
      DeleteCallsOfCons(path, ps[..k + 1]);
    } else {
      DeleteCallsOfCons(path, ps);
    }
  }

  /** The inner loop over one pair's search result. In a dry run every item is
      counted and nothing is called; otherwise each item is deleted then
      counted, and the first failing delete stops the loop right after its call. */
  function ProcessItems(o: Oracle, items: seq<Item>, dryRun: bool): (r: Run)
    ensures !dryRun ==> DeletedUpToFirstFailure(r, Paths(items), o.deleteFailures)
    decreases |items|
  {
    if |items| == 0 then Run(0, [], None)
    else
      var path := ItemPath(items[0]);
      if dryRun then
        var rest := ProcessItems(o, items[1..], dryRun);
        Run(1 + rest.count, rest.trace, rest.failure)
      else
        match DeleteItem(o, path)
        case Some(message) => Run(0, [Delete(path)], Some(message))
        case None =>
          var rest := ProcessItems(o, items[1..], dryRun);
          DeletedStep(path, Paths(items[1..]), rest, o.deleteFailures);
          Run(1 + rest.count, [Delete(path)] + rest.trace, rest.failure)
  }

  /** A dry run of the item loop counts every item and makes no call. The mode
      is a parameter, and the fact is stated under `dryRun ==>`, so that callers
      generic in the mode can invoke it without a case split. */
  lemma {:induction false} DryRunItems(o: Oracle, items: seq<Item>, dryRun: bool)
    ensures dryRun ==> ProcessItems(o, items, dryRun) == Run(|items|, [], None)
    decreases |items|
  {
    if |items| > 0 {
      DryRunItems(o, items[1..], dryRun);
    }
  }

  /** Run `first`, then `rest` unless `first` failed: a failed delete ends the
      whole run, with no further call and the counts so far discarded. */
  function Then(first: Run, rest: Run): Run {
    if first.failure.Some? then first else Run(first.count + rest.count, first.trace + rest.trace, rest.failure)
  }

  /** One iteration of the pair loop: two configuration lookups, release first,
      then for an eligible pair one search by the snapshot key and the item loop. */
  function ProcessPair(o: Oracle, pair: RepositoryPair, dryRun: bool): (r: Run)
    ensures |r.trace| >= 2
    ensures r.trace[..2] == [GetConfig(pair.release), GetConfig(pair.snapshot)]
    ensures !PairEligible(o, pair) ==> r == Run(0, [GetConfig(pair.release), GetConfig(pair.snapshot)], None)
    ensures PairEligible(o, pair) ==> |r.trace| >= 3 && r.trace[2] == Search(pair.snapshot)
    ensures forall i :: 3 <= i < |r.trace| ==> r.trace[i].Delete?
    ensures dryRun ==> r.failure == None && forall i :: 0 <= i < |r.trace| ==> !r.trace[i].Delete?
    ensures r.failure.None? ==> r.count == if PairEligible(o, pair) then |SearchAql(o, pair.snapshot)| else 0
  {
    var lookups := [GetConfig(pair.release), GetConfig(pair.snapshot)];
    if PairEligible(o, pair) then
      var found := SearchAql(o, pair.snapshot);
      var items := ProcessItems(o, found, dryRun);
      DryRunItems(o, found, dryRun);
      Run(items.count, lookups + [Search(pair.snapshot)] + items.trace, items.failure)
    else
      Run(0, lookups, None)
  }

  /** `cleanupSnapshots`: the pairs in order, totals added up; a delete failure
      ends the run with no further call. A dry run never fails and never
      deletes. */
  function CleanupSnapshots(o: Oracle, pairs: seq<RepositoryPair>, dryRun: bool): (r: Run)
    ensures dryRun ==> r.failure == None && Deletes(r.trace) == []
    decreases |pairs|
  {
    if |pairs| == 0 then Run(0, [], None)
    else
      var first := ProcessPair(o, pairs[0], dryRun);
      var rest := CleanupSnapshots(o, pairs[1..], dryRun);
      NoDeletes(first.trace);
      ProjectionsOfConcat(first.trace, rest.trace);
      Then(first, rest)
  }

  /** The default export: validation short-circuit, `dryRun` default, and the
      boundary that turns a delete failure into `{ error }`. */
  function Handle(o: Oracle, params: Option<Request>): (res: Response)
    ensures NoPairs(params) ==> res == Response(Error(NoPairsMessage), [])
    ensures !NoPairs(params) ==> |res.trace| >= 2 && res.trace[0] == GetConfig(params.value.repositories.value[0].release)
    ensures !NoPairs(params) && DryRun(params.value) ==> res.outcome.Total? && Deletes(res.trace) == []
  {
    if NoPairs(params) then Response(Error(NoPairsMessage), [])
    else
      var run := CleanupSnapshots(o, params.value.repositories.value, DryRun(params.value));
      match run.failure
      case Some(message) => Response(Error(message), run.trace)
      case None => Response(Total(run.count), run.trace)
  }
}
