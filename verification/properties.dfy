/** Whole-run properties of the cleanup handler, each stated against an
    independent reference definition of what the run should do: which keys it
    looks up, which snapshots it searches, which paths it deletes and what total
    it reports. */
module CleanupProperties {
  import opened Wrappers
  import opened Platform
  import opened Worker

  // ---------------------------------------------------------------------------
  // Reference definitions
  // ---------------------------------------------------------------------------

  /** Two lookups per pair, release key first, pair after pair. */
  function ExpectedLookups(pairs: seq<RepositoryPair>): seq<string>
    decreases |pairs|
  {
    if |pairs| == 0 then [] else [pairs[0].release, pairs[0].snapshot] + ExpectedLookups(pairs[1..])
  }

  /** The snapshot keys of the eligible pairs, in pair order. */
  function EligibleSnapshots(o: Oracle, pairs: seq<RepositoryPair>): seq<string>
    decreases |pairs|
  {
    if |pairs| == 0 then []
    else (if PairEligible(o, pairs[0]) then [pairs[0].snapshot] else []) + EligibleSnapshots(o, pairs[1..])
  }

  /** The sum of the search-result lengths over the eligible pairs. */
  function ExpectedCount(o: Oracle, pairs: seq<RepositoryPair>): nat
    decreases |pairs|
  {
    if |pairs| == 0 then 0
    else (if PairEligible(o, pairs[0]) then |SearchAql(o, pairs[0].snapshot)| else 0) + ExpectedCount(o, pairs[1..])
  }

  /** The item paths a pair contributes: none unless it is eligible. */
  function PairPaths(o: Oracle, pair: RepositoryPair): seq<string> {
    if PairEligible(o, pair) then Paths(SearchAql(o, pair.snapshot)) else []
  }

  /** All item paths, in pair order and then result order. */
  function ExpectedPaths(o: Oracle, pairs: seq<RepositoryPair>): seq<string>
    decreases |pairs|
  {
    if |pairs| == 0 then [] else PairPaths(o, pairs[0]) + ExpectedPaths(o, pairs[1..])
  }

  /** A live run over the given paths behaved as the worker promises: when no
      path's delete fails, every path was deleted in order and counted; otherwise
      the deletes stop right after the first failing one, those before it stay,
      and the run carries that delete's message. Only the deletes are looked at:
      this is `Worker.DeletedUpToFirstFailure` seen through `Deletes`, which is
      what survives once the lookups and searches of several pairs are
      interleaved with the deletes. `DeletedMatches` connects the two. */
  predicate LiveRunMatches(r: Run, paths: seq<string>, failures: map<string, string>) {
    var k := FirstFailure(paths, failures);
    && (k == |paths| ==> r.failure == None && r.count == |paths| && Deletes(r.trace) == paths)
    && (k < |paths| ==> r.failure == Some(failures[paths[k]]) && Deletes(r.trace) == paths[..k + 1])
  }

  /** Some path of the list is one whose delete fails. */
  predicate SomeDeleteFails(paths: seq<string>, failures: map<string, string>) {
    exists j :: 0 <= j < |paths| && paths[j] in failures
  }

  lemma {:induction false} CountIsNumberOfPaths(o: Oracle, pairs: seq<RepositoryPair>)
    ensures ExpectedCount(o, pairs) == |ExpectedPaths(o, pairs)|
    decreases |pairs|
  {
    if |pairs| > 0 {
      CountIsNumberOfPaths(o, pairs[1..]);
    }
  }

  // ---------------------------------------------------------------------------
  // Facts about runs and traces as plain values
  // ---------------------------------------------------------------------------

  /** A trace of nothing but deletes has no lookup and no search in it. */
  lemma {:induction false} OnlyDeletes(trace: seq<Call>)
    requires forall i :: 0 <= i < |trace| ==> trace[i].Delete?
    ensures ConfigKeys(trace) == [] && SearchKeys(trace) == []
    decreases |trace|
  {
    if |trace| > 0 {
      OnlyDeletes(trace[1..]);
    }
  }

  /** The projections of a pair's two lookups. */
  lemma LookupProjections(release: string, snapshot: string)
    ensures var lookups := [GetConfig(release), GetConfig(snapshot)];
            && ConfigKeys(lookups) == [release, snapshot] && SearchKeys(lookups) == [] && Deletes(lookups) == []
  {
    ProjectionsOfCons(GetConfig(snapshot), []);
    ProjectionsOfCons(GetConfig(release), [GetConfig(snapshot)]);
    assert [GetConfig(release), GetConfig(snapshot)] == [GetConfig(release)] + [GetConfig(snapshot)];
    assert [GetConfig(snapshot)] == [GetConfig(snapshot)] + [];
  }

  /** The projections of a search followed by deletes only. */
  lemma SearchedProjections(snapshot: string, tail: seq<Call>)
    requires forall i :: 0 <= i < |tail| ==> tail[i].Delete?
    ensures ConfigKeys([Search(snapshot)] + tail) == [] && SearchKeys([Search(snapshot)] + tail) == [snapshot]
    ensures Deletes([Search(snapshot)]) == []
  {
    OnlyDeletes(tail);
    ProjectionsOfCons(Search(snapshot), tail);
    ProjectionsOfCall(Search(snapshot));
  }

  /** The projections of a pair's two lookups followed by its search and any
      number of deletes. */
  lemma PairTraceProjections(release: string, snapshot: string, tail: seq<Call>)
    requires forall i :: 0 <= i < |tail| ==> tail[i].Delete?
    ensures var lookups := [GetConfig(release), GetConfig(snapshot)];
            && ConfigKeys(lookups + [Search(snapshot)] + tail) == [release, snapshot]
            && SearchKeys(lookups + [Search(snapshot)] + tail) == [snapshot]
            && Deletes(lookups + [Search(snapshot)]) == []
  {
    var lookups := [GetConfig(release), GetConfig(snapshot)];
    LookupProjections(release, snapshot);
    SearchedProjections(snapshot, tail);
    assert lookups + [Search(snapshot)] + tail == lookups + ([Search(snapshot)] + tail);
    ProjectionsOfConcat(lookups, [Search(snapshot)] + tail);
    ProjectionsOfConcat(lookups, [Search(snapshot)]);
  }

  /** An item loop that matches its paths exactly also matches them in deletes. */
  lemma DeletedMatches(r: Run, paths: seq<string>, failures: map<string, string>)
    requires DeletedUpToFirstFailure(r, paths, failures)
    ensures LiveRunMatches(r, paths, failures)
  {
    var k := FirstFailure(paths, failures);
    if k == |paths| {
      ProjectionsOfDeleteCalls(paths);
    } else {
      ProjectionsOfDeleteCalls(paths[..k + 1]);
    }
  }

  /** Calls without deletes in front of a run do not change what it deleted. */
  lemma PrefixMatches(prefix: seq<Call>, inner: Run, paths: seq<string>, failures: map<string, string>)
    requires Deletes(prefix) == []
    requires LiveRunMatches(inner, paths, failures)
    ensures LiveRunMatches(Run(inner.count, prefix + inner.trace, inner.failure), paths, failures)
  {
    ProjectionsOfConcat(prefix, inner.trace);
  }

  /** A live item loop issues nothing but deletes. */
  lemma LoopOnlyDeletes(r: Run, paths: seq<string>, failures: map<string, string>)
    requires DeletedUpToFirstFailure(r, paths, failures)
    ensures forall i :: 0 <= i < |r.trace| ==> r.trace[i].Delete?
  {
  }

  /** A failed item loop ends with its failing delete. */
  lemma FailedLoopEndsWithFailingDelete(r: Run, paths: seq<string>, failures: map<string, string>)
    requires DeletedUpToFirstFailure(r, paths, failures) && r.failure.Some?
    ensures |r.trace| > 0
    ensures r.trace[|r.trace| - 1].Delete? && r.trace[|r.trace| - 1].path in failures
    ensures r.failure.value == failures[r.trace[|r.trace| - 1].path]
  {
    var k := FirstFailure(paths, failures);
    assert r.trace[k] == Delete(paths[..k + 1][k]);
  }

  /** A run that failed within the first paths stays a match when more paths follow. */
  lemma MatchesWhenStopped(r: Run, ps: seq<string>, qs: seq<string>, failures: map<string, string>)
    requires LiveRunMatches(r, ps, failures) && r.failure.Some?
    ensures LiveRunMatches(r, ps + qs, failures)
  {
    FirstFailureOfConcat(ps, qs, failures);
    var k := FirstFailure(ps, failures);
    assert (ps + qs)[..k + 1] == ps[..k + 1];
  }

  /** A clean run over the first paths followed by a run over the rest matches
      the concatenated paths. */
  lemma MatchesWhenContinued(first: Run, rest: Run, ps: seq<string>, qs: seq<string>, failures: map<string, string>)
    requires LiveRunMatches(first, ps, failures) && first.failure.None?
    requires LiveRunMatches(rest, qs, failures)
    ensures LiveRunMatches(Then(first, rest), ps + qs, failures)
  {
    var r := Then(first, rest);
    assert r == Run(first.count + rest.count, first.trace + rest.trace, rest.failure);
    assert FirstFailure(ps, failures) == |ps|;
    assert Deletes(first.trace) == ps;
    FirstFailureOfConcat(ps, qs, failures);
    ProjectionsOfConcat(first.trace, rest.trace);
    assert Deletes(r.trace) == ps + Deletes(rest.trace);
    var kr := FirstFailure(qs, failures);
    assert FirstFailure(ps + qs, failures) == |ps| + kr;
    if kr < |qs| {
      assert (ps + qs)[|ps| + kr] == qs[kr];
      assert (ps + qs)[..|ps| + kr + 1] == ps + qs[..kr + 1];
    }
  }

  /** Running three parts in sequence does not depend on how they are grouped. */
  lemma ThenAssociative(x: Run, y: Run, z: Run)
    ensures Then(x, Then(y, z)) == Then(Then(x, y), z)
  {
    if x.failure.None? && y.failure.None? {
      assert x.trace + (y.trace + z.trace) == (x.trace + y.trace) + z.trace;
    }
  }

  // ---------------------------------------------------------------------------
  // One pair
  // ---------------------------------------------------------------------------

  /** One pair's calls issue its two lookups, release key first, and a search
      by its snapshot key exactly when it is eligible. */
  lemma PairLookupsAndSearch(o: Oracle, pair: RepositoryPair, dryRun: bool)
    ensures ConfigKeys(ProcessPair(o, pair, dryRun).trace) == [pair.release, pair.snapshot]
    ensures SearchKeys(ProcessPair(o, pair, dryRun).trace) == if PairEligible(o, pair) then [pair.snapshot] else []
  {
    LookupProjections(pair.release, pair.snapshot);
    if PairEligible(o, pair) {
      var items := SearchAql(o, pair.snapshot);
      var inner := ProcessItems(o, items, dryRun);
      DryRunItems(o, items, dryRun);
      if !dryRun {
        LoopOnlyDeletes(inner, Paths(items), o.deleteFailures);
      }
      PairTraceProjections(pair.release, pair.snapshot, inner.trace);
    }
  }

  /** In a live run, one pair deletes its paths in result order up to and
      including the first failing one, and counts them when none fails. */
  lemma PairDeletes(o: Oracle, pair: RepositoryPair)
    ensures LiveRunMatches(ProcessPair(o, pair, false), PairPaths(o, pair), o.deleteFailures)
  {
    var lookups := [GetConfig(pair.release), GetConfig(pair.snapshot)];
    LookupProjections(pair.release, pair.snapshot);
    if PairEligible(o, pair) {
      PairTraceProjections(pair.release, pair.snapshot, []);
      var ps := Paths(SearchAql(o, pair.snapshot));
      var inner := ProcessItems(o, SearchAql(o, pair.snapshot), false);
      DeletedMatches(inner, ps, o.deleteFailures);
      PrefixMatches(lookups + [Search(pair.snapshot)], inner, ps, o.deleteFailures);
    }
  }

  /** A pair that fails ends with its failing delete. */
  lemma PairEndsWithFailingDelete(o: Oracle, pair: RepositoryPair, dryRun: bool)
    ensures var r := ProcessPair(o, pair, dryRun);
            r.failure.Some? ==>
              && r.trace[|r.trace| - 1].Delete?
              && r.trace[|r.trace| - 1].path in o.deleteFailures
              && r.failure.value == o.deleteFailures[r.trace[|r.trace| - 1].path]
  {
    var r := ProcessPair(o, pair, dryRun);
    if r.failure.Some? {
      var items := SearchAql(o, pair.snapshot);
      var inner := ProcessItems(o, items, dryRun);
      FailedLoopEndsWithFailingDelete(inner, Paths(items), o.deleteFailures);
      assert r.trace[|r.trace| - 1] == inner.trace[|inner.trace| - 1];
    }
  }

  /** A failed configuration lookup on either side is not an error: the pair
      is skipped after its two lookups and adds nothing. */
  lemma FailedLookupSkipsPair(o: Oracle, pair: RepositoryPair, dryRun: bool)
    requires GetRepositoryConfiguration(o, pair.release) == None || GetRepositoryConfiguration(o, pair.snapshot) == None
    ensures ProcessPair(o, pair, dryRun) == Run(0, [GetConfig(pair.release), GetConfig(pair.snapshot)], None)
  {
  }

  /** An eligible pair whose search yields nothing adds nothing after its search. */
  lemma EmptySearchPair(o: Oracle, pair: RepositoryPair, dryRun: bool)
    requires PairEligible(o, pair)
    requires SearchAql(o, pair.snapshot) == []
    ensures ProcessPair(o, pair, dryRun) == Run(0, [GetConfig(pair.release), GetConfig(pair.snapshot), Search(pair.snapshot)], None)
  {
  }

  /** A failed search, or a response without results, on an eligible pair is
      not an error: the pair adds nothing after its one search, and the run goes
      on to the next pair. */
  lemma FailedSearchAddsNothing(o: Oracle, pair: RepositoryPair, rest: seq<RepositoryPair>, dryRun: bool)
    requires PairEligible(o, pair)
    requires pair.snapshot !in o.search || o.search[pair.snapshot] in {SearchFailed, SearchOk(None)}
    ensures var r := CleanupSnapshots(o, rest, dryRun);
            CleanupSnapshots(o, [pair] + rest, dryRun)
              == Run(r.count, [GetConfig(pair.release), GetConfig(pair.snapshot), Search(pair.snapshot)] + r.trace, r.failure)
  {
    EmptySearchPair(o, pair, dryRun);
    assert ([pair] + rest)[0] == pair;
    assert ([pair] + rest)[1..] == rest;
  }

  // ---------------------------------------------------------------------------
  // The pair loop
  // ---------------------------------------------------------------------------

  /** The pair loop runs the first pair, then the rest unless the first failed. */
  lemma CleanupStep(o: Oracle, pairs: seq<RepositoryPair>, dryRun: bool)
    requires |pairs| > 0
    ensures CleanupSnapshots(o, pairs, dryRun) == Then(ProcessPair(o, pairs[0], dryRun), CleanupSnapshots(o, pairs[1..], dryRun))
  {
  }

  /** Appending pairs: a run over `a + b` is the run over `a` followed, unless
      it failed, by the run over `b`; counts add up and traces concatenate. */
  lemma {:induction false} CleanupIsAdditive(o: Oracle, a: seq<RepositoryPair>, b: seq<RepositoryPair>, dryRun: bool)
    ensures CleanupSnapshots(o, a + b, dryRun) == Then(CleanupSnapshots(o, a, dryRun), CleanupSnapshots(o, b, dryRun))
    decreases |a|
  {
    if |a| == 0 {
      assert a + b == b;
    } else {
      assert (a + b)[0] == a[0];
      assert (a + b)[1..] == a[1..] + b;
      CleanupStep(o, a + b, dryRun);
      CleanupStep(o, a, dryRun);
      CleanupIsAdditive(o, a[1..], b, dryRun);
      ThenAssociative(ProcessPair(o, a[0], dryRun), CleanupSnapshots(o, a[1..], dryRun), CleanupSnapshots(o, b, dryRun));
    }
  }

  /** A run that fails ends with the delete that failed, and carries its
      message: nothing is called after it. */
  lemma {:induction false} FailedRunEndsWithFailingDelete(o: Oracle, pairs: seq<RepositoryPair>, dryRun: bool)
    ensures var r := CleanupSnapshots(o, pairs, dryRun);
            r.failure.Some? ==>
              && |r.trace| > 0
              && r.trace[|r.trace| - 1].Delete?
              && r.trace[|r.trace| - 1].path in o.deleteFailures
              && r.failure.value == o.deleteFailures[r.trace[|r.trace| - 1].path]
    decreases |pairs|
  {
    if |pairs| > 0 {
      var first := ProcessPair(o, pairs[0], dryRun);
      PairEndsWithFailingDelete(o, pairs[0], dryRun);
      if first.failure.None? {
        var rest := CleanupSnapshots(o, pairs[1..], dryRun);
        FailedRunEndsWithFailingDelete(o, pairs[1..], dryRun);
        if rest.failure.Some? {
          assert (first.trace + rest.trace)[|first.trace| + |rest.trace| - 1] == rest.trace[|rest.trace| - 1];
        }
      }
    }
  }

  /** Lookups: the keys looked up are always a prefix of "release, snapshot"
      for each pair in order, and all of it when no delete failed; searches are
      exactly the eligible pairs' snapshot keys. */
  lemma {:induction false} LookupsAndSearches(o: Oracle, pairs: seq<RepositoryPair>, dryRun: bool)
    ensures var r := CleanupSnapshots(o, pairs, dryRun);
            && ConfigKeys(r.trace) <= ExpectedLookups(pairs)
            && SearchKeys(r.trace) <= EligibleSnapshots(o, pairs)
    ensures var r := CleanupSnapshots(o, pairs, dryRun);
            r.failure.None? ==>
              && ConfigKeys(r.trace) == ExpectedLookups(pairs)
              && SearchKeys(r.trace) == EligibleSnapshots(o, pairs)
    decreases |pairs|
  {
    if |pairs| > 0 {
      var first := ProcessPair(o, pairs[0], dryRun);
      PairLookupsAndSearch(o, pairs[0], dryRun);
      if first.failure.None? {
        var rest := CleanupSnapshots(o, pairs[1..], dryRun);
        LookupsAndSearches(o, pairs[1..], dryRun);
        ProjectionsOfConcat(first.trace, rest.trace);
      }
    }
  }

  /** A dry run never fails and reports the sum of the eligible pairs'
      search-result lengths. */
  lemma {:induction false} DryRunCountsMatches(o: Oracle, pairs: seq<RepositoryPair>)
    ensures CleanupSnapshots(o, pairs, true).failure == None
    ensures CleanupSnapshots(o, pairs, true).count == ExpectedCount(o, pairs)
    decreases |pairs|
  {
    if |pairs| > 0 {
      DryRunCountsMatches(o, pairs[1..]);
    }
  }

  /** A live run deletes the expected paths in order. When none fails it
      reports their number; otherwise it stops right after the first failing
      delete, keeps the deletes before it, and carries that delete's message. */
  lemma {:induction false} LiveRunDeletes(o: Oracle, pairs: seq<RepositoryPair>)
    ensures LiveRunMatches(CleanupSnapshots(o, pairs, false), ExpectedPaths(o, pairs), o.deleteFailures)
    decreases |pairs|
  {
    if |pairs| > 0 {
      var first := ProcessPair(o, pairs[0], false);
      var ps := PairPaths(o, pairs[0]);
      var qs := ExpectedPaths(o, pairs[1..]);
      assert ExpectedPaths(o, pairs) == ps + qs;
      PairDeletes(o, pairs[0]);
      if first.failure.Some? {
        MatchesWhenStopped(first, ps, qs, o.deleteFailures);
      } else {
        LiveRunDeletes(o, pairs[1..]);
        MatchesWhenContinued(first, CleanupSnapshots(o, pairs[1..], false), ps, qs, o.deleteFailures);
      }
    }
  }

  /** A live run that fails makes the first failing expected delete its last call. */
  lemma LiveRunStopsAtFailure(o: Oracle, pairs: seq<RepositoryPair>)
    ensures var run := CleanupSnapshots(o, pairs, false);
            var paths := ExpectedPaths(o, pairs);
            var k := FirstFailure(paths, o.deleteFailures);
            k < |paths| ==> |run.trace| > 0 && run.trace[|run.trace| - 1] == Delete(paths[k])
  {
    var run := CleanupSnapshots(o, pairs, false);
    var paths := ExpectedPaths(o, pairs);
    var k := FirstFailure(paths, o.deleteFailures);
    LiveRunDeletes(o, pairs);
    if k < |paths| {
      assert Deletes(run.trace) == paths[..k + 1];
      FailedRunEndsWithFailingDelete(o, pairs, false);
      LastCallIsLastDelete(run.trace);
    }
  }

  // ---------------------------------------------------------------------------
  // The handler
  // ---------------------------------------------------------------------------

  /** A dry run with at least one pair reports the total of matches and
      issues no delete. */
  lemma HandleDryRun(o: Oracle, params: Option<Request>)
    requires !NoPairs(params) && DryRun(params.value)
    ensures Handle(o, params).outcome == Total(ExpectedCount(o, params.value.repositories.value))
    ensures Deletes(Handle(o, params).trace) == []
  {
    DryRunCountsMatches(o, params.value.repositories.value);
  }

  /** A live run with at least one pair reports the number of deleted paths
      when no delete fails; otherwise the first failing delete's message, with
      that delete as the last call and every earlier delete kept. */
  lemma HandleLiveRun(o: Oracle, params: Option<Request>)
    requires !NoPairs(params) && !DryRun(params.value)
    ensures var res := Handle(o, params);
            var paths := ExpectedPaths(o, params.value.repositories.value);
            var k := FirstFailure(paths, o.deleteFailures);
            && (k == |paths| ==> res.outcome == Total(|paths|) && Deletes(res.trace) == paths)
            && (k < |paths| ==>
                  && res.outcome == Error(o.deleteFailures[paths[k]])
                  && Deletes(res.trace) == paths[..k + 1]
                  && res.trace[|res.trace| - 1] == Delete(paths[k]))
  {
    var pairs := params.value.repositories.value;
    var res := Handle(o, params);
    var run := CleanupSnapshots(o, pairs, false);
    assert res.trace == run.trace;
    assert res.outcome == if run.failure.Some? then Error(run.failure.value) else Total(run.count);
    LiveRunDeletes(o, pairs);
    LiveRunStopsAtFailure(o, pairs);
  }

  /** The handler reports an error for a request with at least one pair
      exactly when the run is live and some expected path's delete fails. */
  lemma HandleErrorIffDeleteFails(o: Oracle, params: Option<Request>)
    requires !NoPairs(params)
    ensures (Handle(o, params).outcome.Error?)
        <==> (!DryRun(params.value) && SomeDeleteFails(ExpectedPaths(o, params.value.repositories.value), o.deleteFailures))
  {
    var paths := ExpectedPaths(o, params.value.repositories.value);
    if !DryRun(params.value) {
      LiveRunDeletes(o, params.value.repositories.value);
      var k := FirstFailure(paths, o.deleteFailures);
      if k < |paths| {
        assert paths[k] in o.deleteFailures;
      }
    }
  }

  /** The calls the handler makes for a request with at least one pair: its
      lookups are two per pair, release key first, cut short only by a failing
      delete; on success its searches are exactly the eligible pairs' snapshot
      keys. */
  lemma HandleCalls(o: Oracle, params: Option<Request>)
    requires !NoPairs(params)
    ensures var res := Handle(o, params);
            var pairs := params.value.repositories.value;
            && ConfigKeys(res.trace) <= ExpectedLookups(pairs)
            && (res.outcome.Total? ==>
                  && ConfigKeys(res.trace) == ExpectedLookups(pairs)
                  && SearchKeys(res.trace) == EligibleSnapshots(o, pairs))
  {
    LookupsAndSearches(o, params.value.repositories.value, DryRun(params.value));
  }

  /** An absent `dryRun` means a dry run: the same response as an explicit
      `true`, with no delete and the would-be count as its total. */
  lemma DryRunDefault(o: Oracle, pairs: seq<RepositoryPair>)
    requires |pairs| > 0
    ensures Handle(o, Some(Request(Some(pairs), None))) == Handle(o, Some(Request(Some(pairs), Some(true))))
    ensures Deletes(Handle(o, Some(Request(Some(pairs), None))).trace) == []
    ensures Handle(o, Some(Request(Some(pairs), None))).outcome == Total(ExpectedCount(o, pairs))
  {
    DryRunCountsMatches(o, pairs);
  }

  /** The default applies only to an absent `dryRun`: an explicit `false` is
      kept, so the run is live and, when no delete fails, deletes every
      expected path and reports their number. */
  lemma ExplicitFalseIsLive(o: Oracle, pairs: seq<RepositoryPair>)
    requires |pairs| > 0
    ensures var res := Handle(o, Some(Request(Some(pairs), Some(false))));
            var paths := ExpectedPaths(o, pairs);
            FirstFailure(paths, o.deleteFailures) == |paths| ==> res.outcome == Total(|paths|) && Deletes(res.trace) == paths
  {
    HandleLiveRun(o, Some(Request(Some(pairs), Some(false))));
  }
}
