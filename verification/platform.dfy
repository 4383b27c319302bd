/** The repository platform as the worker sees it: an oracle that answers the
    three kinds of request the worker issues (configuration lookup, AQL search,
    delete), and the calls themselves as the trace of a run. The HTTP transport,
    endpoint URLs and AQL text are not modelled: a search is identified by the
    snapshot repository key, the only thing that varies in its query. */
module Platform {
  import opened Wrappers

  /** The three fields of a repository configuration the worker reads. */
  datatype RepositoryConfig = RepositoryConfig(packageType: string, handleReleases: bool, handleSnapshots: bool)

  /** One search hit, with the three fields the query includes. */
  datatype Item = Item(repo: string, path: string, name: string)

  /** What a search request produced: the request failed, or a response whose
      `results` field may be absent. */
  datatype SearchReply = SearchFailed | SearchOk(results: Option<seq<Item>>)

  /** The platform's answers. A configuration key that is absent or mapped to
      `None` is a failed lookup; a search key that is absent is a failed search;
      a path in `deleteFailures` is one whose delete fails, with its message. */
  datatype Oracle = Oracle(
    config: map<string, Option<RepositoryConfig>>,
    search: map<string, SearchReply>,
    deleteFailures: map<string, string>)

  /** One request to the platform, in the order the worker issues them. */
  datatype Call = GetConfig(key: string) | Search(snapshot: string) | Delete(path: string)

  /** `Repositories.getRepositoryConfiguration`: any failure is swallowed and
      reported as an absent configuration. */
  function GetRepositoryConfiguration(o: Oracle, key: string): Option<RepositoryConfig>
  {
    if key in o.config then o.config[key] else None
  }

  /** `searchAql`: a failed request and a response without `results` both
      yield the empty list. */
  function SearchAql(o: Oracle, snapshot: string): seq<Item>
  {
    if snapshot in o.search then
      match o.search[snapshot]
      case SearchFailed => []
      case SearchOk(results) => results.GetOr([])
    else []
  }

  /** `Repositories.delete`: `Some(message)` when the delete fails. The failure
      is not caught here. */
  function DeleteItem(o: Oracle, path: string): Option<string>
  {
    if path in o.deleteFailures then Some(o.deleteFailures[path]) else None
  }

  /** The index of the first path whose delete fails, or `|paths|` when none does. */
  function FirstFailure(paths: seq<string>, failures: map<string, string>): (k: nat)
    ensures k <= |paths|
    ensures forall j :: 0 <= j < k ==> paths[j] !in failures
    ensures k < |paths| ==> paths[k] in failures
    decreases |paths|
  {
    if |paths| == 0 then 0
    else if paths[0] in failures then 0
    else 1 + FirstFailure(paths[1..], failures)
  }

  /** The paths of the `Delete` calls in a trace, in order. */
  function Deletes(trace: seq<Call>): seq<string>
    decreases |trace|
  {
    if |trace| == 0 then []
    else (if trace[0].Delete? then [trace[0].path] else []) + Deletes(trace[1..])
  }

  /** The keys of the `GetConfig` calls in a trace, in order. */
  function ConfigKeys(trace: seq<Call>): seq<string>
    decreases |trace|
  {
    if |trace| == 0 then []
    else (if trace[0].GetConfig? then [trace[0].key] else []) + ConfigKeys(trace[1..])
  }

  /** The keys of the `Search` calls in a trace, in order. */
  function SearchKeys(trace: seq<Call>): seq<string>
    decreases |trace|
  {
    if |trace| == 0 then []
    else (if trace[0].Search? then [trace[0].snapshot] else []) + SearchKeys(trace[1..])
  }

  /** One `Delete` call per path, in order. */
  function DeleteCalls(paths: seq<string>): (calls: seq<Call>)
    ensures |calls| == |paths|
    ensures forall i :: 0 <= i < |paths| ==> calls[i] == Delete(paths[i])
  {
    seq(|paths|, i requires 0 <= i < |paths| => Delete(paths[i]))
  }

  /** Deleting `path` and then `paths` is one delete per path of `[path] + paths`. */
  lemma DeleteCallsOfCons(path: string, paths: seq<string>)
    ensures DeleteCalls([path] + paths) == [Delete(path)] + DeleteCalls(paths)
  {
    var all := [path] + paths;
    assert forall i :: 0 <= i < |all| ==> DeleteCalls(all)[i] == ([Delete(path)] + DeleteCalls(paths))[i];
  }

  /** The projections of a single call. */
  lemma ProjectionsOfCall(c: Call)
    ensures Deletes([c]) == if c.Delete? then [c.path] else []
    ensures ConfigKeys([c]) == if c.GetConfig? then [c.key] else []
    ensures SearchKeys([c]) == if c.Search? then [c.snapshot] else []
  {
    assert [c][1..] == [];
  }

  /** The projections of a call in front of a trace. */
  lemma ProjectionsOfCons(c: Call, trace: seq<Call>)
    ensures Deletes([c] + trace) == (if c.Delete? then [c.path] else []) + Deletes(trace)
    ensures ConfigKeys([c] + trace) == (if c.GetConfig? then [c.key] else []) + ConfigKeys(trace)
    ensures SearchKeys([c] + trace) == (if c.Search? then [c.snapshot] else []) + SearchKeys(trace)
  {
    assert ([c] + trace)[0] == c;
    assert ([c] + trace)[1..] == trace;
  }

  /** When a trace ends with a delete, its delete projection ends with that path. */
  lemma LastCallIsLastDelete(trace: seq<Call>)
    requires |trace| > 0 && trace[|trace| - 1].Delete?
    ensures |Deletes(trace)| > 0 && Deletes(trace)[|Deletes(trace)| - 1] == trace[|trace| - 1].path
  {
    var n := |trace|;
    assert trace == trace[..n - 1] + [trace[n - 1]];
    ProjectionsOfConcat(trace[..n - 1], [trace[n - 1]]);
    ProjectionsOfCall(trace[n - 1]);
  }

  /** Projections distribute over concatenation. */
  lemma ProjectionsOfConcat(a: seq<Call>, b: seq<Call>)
    ensures Deletes(a + b) == Deletes(a) + Deletes(b)
    ensures ConfigKeys(a + b) == ConfigKeys(a) + ConfigKeys(b)
    ensures SearchKeys(a + b) == SearchKeys(a) + SearchKeys(b)
  {
    DeletesOfConcat(a, b);
    ConfigKeysOfConcat(a, b);
    SearchKeysOfConcat(a, b);
  }

  lemma {:induction false} DeletesOfConcat(a: seq<Call>, b: seq<Call>)
    ensures Deletes(a + b) == Deletes(a) + Deletes(b)
    decreases |a|
  {
    if |a| == 0 {
      assert a + b == b;
    } else {
      assert (a + b)[0] == a[0];
      assert (a + b)[1..] == a[1..] + b;
      DeletesOfConcat(a[1..], b);
    }
  }

  lemma {:induction false} ConfigKeysOfConcat(a: seq<Call>, b: seq<Call>)
    ensures ConfigKeys(a + b) == ConfigKeys(a) + ConfigKeys(b)
    decreases |a|
  {
    if |a| == 0 {
      assert a + b == b;
    } else {
      assert (a + b)[0] == a[0];
      assert (a + b)[1..] == a[1..] + b;
      ConfigKeysOfConcat(a[1..], b);
    }
  }

  lemma {:induction false} SearchKeysOfConcat(a: seq<Call>, b: seq<Call>)
    ensures SearchKeys(a + b) == SearchKeys(a) + SearchKeys(b)
    decreases |a|
  {
    if |a| == 0 {
      assert a + b == b;
    } else {
      assert (a + b)[0] == a[0];
      assert (a + b)[1..] == a[1..] + b;
      SearchKeysOfConcat(a[1..], b);
    }
  }

  /** A trace has no delete in its projection exactly when it issues no delete. */
  lemma {:induction false} NoDeletes(trace: seq<Call>)
    ensures Deletes(trace) == [] <==> forall i :: 0 <= i < |trace| ==> !trace[i].Delete?
    decreases |trace|
  {
    if |trace| > 0 {
      NoDeletes(trace[1..]);
      assert forall i :: 1 <= i < |trace| ==> trace[i] == trace[1..][i - 1];
    }
  }

  /** A trace made only of deletes projects back to its paths and has no
      lookup or search in it. */
  lemma {:induction false} ProjectionsOfDeleteCalls(paths: seq<string>)
    ensures Deletes(DeleteCalls(paths)) == paths
    ensures ConfigKeys(DeleteCalls(paths)) == []
    ensures SearchKeys(DeleteCalls(paths)) == []
    decreases |paths|
  {
    if |paths| > 0 {
      assert DeleteCalls(paths)[1..] == DeleteCalls(paths[1..]);
      ProjectionsOfDeleteCalls(paths[1..]);
    }
  }

  /** The first failure in `a + b` is the first in `a`, or else the first in `b`
      shifted past `a`. */
  lemma {:induction false} FirstFailureOfConcat(a: seq<string>, b: seq<string>, failures: map<string, string>)
    ensures FirstFailure(a + b, failures)
         == if FirstFailure(a, failures) < |a| then FirstFailure(a, failures)
            else |a| + FirstFailure(b, failures)
    decreases |a|
  {
    if |a| > 0 {
      assert (a + b)[0] == a[0];
      assert (a + b)[1..] == a[1..] + b;
      FirstFailureOfConcat(a[1..], b, failures);
    } else {
      assert a + b == b;
    }
  }
}
