/** The aggregations of `statsApi` in src/services/api.ts:115-153. Each one takes the response of
    a query (its rows, or null, and an error, or null) and either passes the error on or counts
    the rows into a dictionary keyed by one column. The queries themselves are network calls and
    are parameters here: `Response` is what the client library hands back. */
module Stats {
  import opened JsValues

  /** The error object of a failed query; any such object is truthy. */
  datatype ApiError = ApiError(message: string)

  /** What a query resolves to: `data` (null when absent) and `error` (null on success). */
  datatype Response<T> = Response(data: Option<seq<T>>, error: Option<ApiError>)

  /** What an aggregation returns: `{ data, error }`. */
  datatype Fetched<T> = Fetched(data: Option<T>, error: Option<ApiError>)

  // ===========================================================================
  // Counting keys

  /** How many times `k` occurs in `keys`. */
  function Count(keys: seq<string>, k: string): nat
  {
    if keys == [] then 0
    else Count(keys[..|keys| - 1], k) + (if keys[|keys| - 1] == k then 1 else 0)
  }

  /** A key's entry, or 0 when it has none (`counts[k] || 0`: stored counts are never 0). */
  function Get(counts: map<string, nat>, k: string): nat
  {
    if k in counts then counts[k] else 0
  }

  /** The dictionary that `counts[k] = (counts[k] || 0) + 1` builds over `keys`, first to last. */
  function Tally(keys: seq<string>): map<string, nat>
  {
    if keys == [] then map[]
    else
      var counts := Tally(keys[..|keys| - 1]);
      var k := keys[|keys| - 1];
      counts[k := Get(counts, k) + 1]
  }

  /** One more key adds one to its own count. */
  lemma TallySnoc(keys: seq<string>, i: nat)
    requires i < |keys|
    ensures Tally(keys[..i + 1]) == Tally(keys[..i])[keys[i] := Get(Tally(keys[..i]), keys[i]) + 1]
  {
    assert keys[..i + 1][..i] == keys[..i];
  }

  /** Every key's count is the number of rows carrying it. */
  lemma {:induction false} TallyCounts(keys: seq<string>, k: string)
    ensures Get(Tally(keys), k) == Count(keys, k)
  {
    if keys != [] {
      TallyCounts(keys[..|keys| - 1], k);
    }
  }

  /** A key is present exactly when some row carries it. */
  lemma {:induction false} TallyKeys(keys: seq<string>, k: string)
    ensures k in Tally(keys) <==> k in keys
  {
    if keys != [] {
      var init := keys[..|keys| - 1];
      TallyKeys(init, k);
      assert keys == init + [keys[|keys| - 1]];
    }
  }

  /** The sum of a dictionary's counts. */
  ghost function Total(counts: map<string, nat>): nat
    decreases |counts|
  {
    if counts == map[] then 0
    else
      var k :| k in counts;
      assert |(counts - {k}).Keys| < |counts.Keys| by {
        assert (counts - {k}).Keys == counts.Keys - {k};
      }
      counts[k] + Total(counts - {k})
  }

  /** The total is the same whichever key the sum starts from. */
  lemma {:induction false} TotalWithout(counts: map<string, nat>, k: string)
    requires k in counts
    ensures Total(counts) == counts[k] + Total(counts - {k})
    decreases |counts|
  {
    var j :| j in counts && Total(counts) == counts[j] + Total(counts - {j});
    assert (counts - {j}).Keys == counts.Keys - {j};
    if j != k {
      assert (counts - {k}).Keys == counts.Keys - {k};
      TotalWithout(counts - {j}, k);
      TotalWithout(counts - {k}, j);
      assert counts - {j} - {k} == counts - {k} - {j};
    }
  }

  /** Each row adds exactly one to exactly one key, so the counts sum to the number of rows. */
  lemma {:induction false} TallyTotal(keys: seq<string>)
    ensures Total(Tally(keys)) == |keys|
  {
    if keys != [] {
      var init := Tally(keys[..|keys| - 1]);
      var k := keys[|keys| - 1];
      var next := init[k := Get(init, k) + 1];
      TallyTotal(keys[..|keys| - 1]);
      TotalWithout(next, k);
      assert next - {k} == init - {k};
      if k in init {
        TotalWithout(init, k);
      } else {
        assert init - {k} == init;
      }
    }
  }

  // ===========================================================================
  // The keys of the two aggregations

  /** A region value used as a property name. */
  function RegionKey(region: Value): string
  {
    ToJsString(region)
  }

  /** `item.node || 'Unknown'` used as a property name. */
  function NodeKey(node: Value): (k: string)
    ensures Falsy(node) ==> k == "Unknown"
    ensures !Falsy(node) ==> k == ToJsString(node)
  {
    if Falsy(node) then "Unknown" else ToJsString(node)
  }

  function RegionKeys(regions: seq<Value>): (keys: seq<string>)
    ensures |keys| == |regions|
    ensures forall i :: 0 <= i < |regions| ==> keys[i] == RegionKey(regions[i])
  {
    seq(|regions|, i requires 0 <= i < |regions| => RegionKey(regions[i]))
  }

  function NodeKeys(nodes: seq<Value>): (keys: seq<string>)
    ensures |keys| == |nodes|
    ensures forall i :: 0 <= i < |nodes| ==> keys[i] == NodeKey(nodes[i])
  {
    seq(|nodes|, i requires 0 <= i < |nodes| => NodeKey(nodes[i]))
  }

  /** The rows of a response; a null `data` iterates as no rows (`data?.forEach`). */
  function Rows<T>(r: Response<T>): seq<T>
  {
    if r.data.Some? then r.data.value else []
  }

  // ===========================================================================
  // The aggregations

  /** `getCompaniesByRegion`, given the response of the query for the non-null regions. */
  method CompaniesByRegion(response: Response<Value>) returns (out: Fetched<map<string, nat>>)
    ensures response.error.Some? ==> out == Fetched(None, response.error)
    ensures response.error.None? ==> out == Fetched(Some(Tally(RegionKeys(Rows(response)))), None)
  {
    if response.error.Some? {
      return Fetched(None, response.error);
    }
    var rows := Rows(response);
    ghost var keys := RegionKeys(rows);
    var counts: map<string, nat> := map[];
    var i := 0;
    while i < |rows|
      invariant 0 <= i <= |rows|
      invariant counts == Tally(keys[..i])
    {
      var k := RegionKey(rows[i]);
      assert k == keys[i];
      TallySnoc(keys, i);
      counts := counts[k := (if k in counts then counts[k] else 0) + 1];
      i := i + 1;
    }
    assert keys[..|rows|] == keys;
    out := Fetched(Some(counts), None);
  }

  /** `getRoadmapsByNode`, given the response of the query for every roadmap's node. */
  method RoadmapsByNode(response: Response<Value>) returns (out: Fetched<map<string, nat>>)
    ensures response.error.Some? ==> out == Fetched(None, response.error)
    ensures response.error.None? ==> out == Fetched(Some(Tally(NodeKeys(Rows(response)))), None)
  {
    if response.error.Some? {
      return Fetched(None, response.error);
    }
    var rows := Rows(response);
    ghost var keys := NodeKeys(rows);
    var counts: map<string, nat> := map[];
    var i := 0;
    while i < |rows|
      invariant 0 <= i <= |rows|
      invariant counts == Tally(keys[..i])
    {
      var k := NodeKey(rows[i]);
      assert k == keys[i];
      TallySnoc(keys, i);
      counts := counts[k := (if k in counts then counts[k] else 0) + 1];
      i := i + 1;
    }
    assert keys[..|rows|] == keys;
    out := Fetched(Some(counts), None);
  }

  /** `getTrends`: the rows, or `[]` when there are none, with the query's error passed on. */
  function Trends<T>(response: Response<T>): (out: Fetched<seq<T>>)
    ensures out.error == response.error
    ensures out.data.Some? && out.data.value == Rows(response)
    ensures response.data.None? ==> out.data == Some([])
  {
    Fetched(Some(if response.data.Some? then response.data.value else []), response.error)
  }

  // ===========================================================================
  // What the node aggregation counts as 'Unknown'

  /** A node counted under 'Unknown': a falsy one, or one whose text is 'Unknown'. */
  predicate CountsAsUnknown(node: Value)
  {
    Falsy(node) || ToJsString(node) == "Unknown"
  }

  function UnknownRows(nodes: seq<Value>): nat
  {
    if nodes == [] then 0
    else UnknownRows(nodes[..|nodes| - 1]) + (if CountsAsUnknown(nodes[|nodes| - 1]) then 1 else 0)
  }

  /** The 'Unknown' entry counts the roadmaps without a node, merged with any whose node is
      literally 'Unknown'. */
  lemma {:induction false} UnknownCount(nodes: seq<Value>)
    ensures Get(Tally(NodeKeys(nodes)), "Unknown") == UnknownRows(nodes)
  {
    TallyCounts(NodeKeys(nodes), "Unknown");
    NodeKeysCount(nodes);
  }

  lemma {:induction false} NodeKeysCount(nodes: seq<Value>)
    ensures Count(NodeKeys(nodes), "Unknown") == UnknownRows(nodes)
  {
    if nodes != [] {
      var init := nodes[..|nodes| - 1];
      NodeKeysCount(init);
      assert NodeKeys(nodes)[..|nodes| - 1] == NodeKeys(init);
    }
  }

  /** A result that reports an error carries no data, and one with data reports no error. */
  lemma ErrorExcludesData(response: Response<Value>, out: Fetched<map<string, nat>>)
    requires response.error.Some? ==> out == Fetched(None, response.error)
    requires response.error.None? ==> out == Fetched(Some(Tally(RegionKeys(Rows(response)))), None)
    ensures out.data.Some? <==> out.error.None?
    ensures out.data.Some? ==> forall k :: k in out.data.value ==> out.data.value[k] >= 1
  {
    if out.data.Some? {
      forall k | k in out.data.value ensures out.data.value[k] >= 1 {
        TallyKeys(RegionKeys(Rows(response)), k);
        TallyCounts(RegionKeys(Rows(response)), k);
        CountPositive(RegionKeys(Rows(response)), k);
      }
    }
  }

  lemma {:induction false} CountPositive(keys: seq<string>, k: string)
    requires k in keys
    ensures Count(keys, k) >= 1
  {
    var init := keys[..|keys| - 1];
    if keys[|keys| - 1] != k {
      assert keys == init + [keys[|keys| - 1]];
      CountPositive(init, k);
    }
  }
}
