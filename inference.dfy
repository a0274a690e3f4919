/** The recommendation (NCF) inference handler: decode each request instance's
    one-hot item vector, pair the decoded ids with the model server's scores,
    and rank the pairs highest score first. */
module Inference {
  import opened Outcomes
  import opened Guards
  import opened Ranking

  /** The handler's answer before serialisation: the body `{"predictions": [...]}`
      and the content type it is sent with. */
  datatype Reply = Reply(predictions: seq<ItemPrediction>, contentType: string)

  function Min(a: int, b: int): int {
    if a <= b then a else b
  }

  /** `list.index(x)`: the position of the first element equal to `x`, or nothing
      (where Python raises) when there is none. */
  function IndexOf(v: seq<int>, x: int): (r: Option<nat>)
    ensures r.Some? <==> x in v
    ensures r.Some? ==> r.value < |v| && v[r.value] == x && x !in v[..r.value]
  {
    if v == [] then None
    else if v[0] == x then Some(0)
    else
      assert v == [v[0]] + v[1..];
      match IndexOf(v[1..], x)
      case None => None
      case Some(k) =>
        assert v[..k + 1] == [v[0]] + v[1..][..k];
        Some(k + 1)
  }

  /** Every instance's one-hot vector holds a 1. */
  predicate Decodable(instances: seq<seq<int>>) {
    forall k :: 0 <= k < |instances| ==> 1 in instances[k]
  }

  /** The item ids the decoding loop collects, one per instance and in the
      instances' order, or the error `list.index` raises. */
  function ItemIds(instances: seq<seq<int>>): (r: Result<seq<nat>>)
    ensures r.Success? <==> Decodable(instances)
    ensures r.Failure? ==> r.error == ItemNotInList
    ensures r.Success? ==> |r.value| == |instances|
    ensures r.Success? ==> forall k :: 0 <= k < |instances| ==> IndexOf(instances[k], 1) == Some(r.value[k])
  {
    if instances == [] then Success([])
    else
      var n := |instances| - 1;
      assert forall k :: 0 <= k < n ==> instances[..n][k] == instances[k];
      var ids :- ItemIds(instances[..n]);
      match IndexOf(instances[n], 1)
      case None => Failure(ItemNotInList)
      case Some(id) => Success(ids + [id])
  }

  /** The loop of `handler` that decodes each instance's `input_2` vector and
      appends the item id to `item_ids`. */
  method DecodeItemIds(instances: seq<seq<int>>) returns (r: Result<seq<nat>>)
    ensures r == ItemIds(instances)
  {
    var itemIds: seq<nat> := [];
    for i := 0 to |instances|
      invariant ItemIds(instances[..i]) == Success(itemIds)
    {
      var itemId := IndexOf(instances[i], 1);
      if itemId.None? {
        assert !Decodable(instances);
        return Failure(ItemNotInList);
      }
      assert instances[..i + 1][..i] == instances[..i];
      itemIds := itemIds + [itemId.value];
    }
    assert instances[..|instances|] == instances;
    return Success(itemIds);
  }

  /** The list comprehension over `zip(item_ids, prediction_scores)`: the first
      score of each row, paired with the item id at the same position, up to the
      shorter of the two; an empty row within that range raises (`p[0]`). */
  function Pair(ids: seq<nat>, rows: seq<seq<real>>): (r: Result<seq<ItemPrediction>>)
    ensures r.Success? <==> forall k :: 0 <= k < Min(|ids|, |rows|) ==> rows[k] != []
    ensures r.Failure? ==> r.error == EmptyPredictionRow
    ensures r.Success? ==> |r.value| == Min(|ids|, |rows|)
    ensures r.Success? ==> forall k :: 0 <= k < |r.value| ==> r.value[k] == ItemPrediction(ids[k], rows[k][0])
  {
    if ids == [] || rows == [] then Success([])
    else if rows[0] == [] then Failure(EmptyPredictionRow)
    else
      assert forall k :: 0 < k < Min(|ids|, |rows|) ==> rows[1..][k - 1] == rows[k];
      var rest :- Pair(ids[1..], rows[1..]);
      Success([ItemPrediction(ids[0], rows[0][0])] + rest)
  }

  /** Every row that `zip` reaches has a first score. */
  predicate Scorable(instances: seq<seq<int>>, rows: seq<seq<real>>) {
    forall k :: 0 <= k < Min(|instances|, |rows|) ==> rows[k] != []
  }

  /** What `handler` returns, or the exception it raises, for a request with
      body `body` whose parsed `instances` are given, when the model server
      answers `response` and that answer's parsed `predictions` are `rows`.
      The guards and stages run in the source's order, so the first failing
      one decides the error. */
  function HandlerOutcome(body: string, ctx: Context, instances: seq<seq<int>>,
                          response: ServerResponse, rows: seq<seq<real>>): (r: Result<Reply>)
    ensures r.Success? <==>
              && ctx.requestContentType == Some(JsonContentType)
              && Decodable(instances)
              && response.statusCode == 200
              && Scorable(instances, rows)
    ensures ctx.requestContentType != Some(JsonContentType) ==>
              r == Failure(ProcessInput(body, ctx).error)
    ensures ctx.requestContentType == Some(JsonContentType) && !Decodable(instances) ==>
              r == Failure(ItemNotInList)
    ensures ctx.requestContentType == Some(JsonContentType) && Decodable(instances) && response.statusCode != 200 ==>
              r == Failure(UpstreamFailure(response.content))
    ensures ctx.requestContentType == Some(JsonContentType) && Decodable(instances) && response.statusCode == 200
            && !Scorable(instances, rows) ==>
              r == Failure(EmptyPredictionRow)
    ensures r.Success? ==>
              r.value.contentType == ctx.acceptHeader && |r.value.predictions| == Min(|instances|, |rows|)
  {
    var processedInput :- ProcessInput(body, ctx);
    var itemIds :- ItemIds(instances);
    var output :- ProcessOutput(response, ctx);
    var pairs :- Pair(itemIds, rows);
    Success(Reply(SortDesc(pairs), output.1))
  }

  /** The records the ranking starts from: the item id decoded from instance
      `k`, with the first score of row `k`, for each `k` that `zip` reaches. */
  ghost function Scored(instances: seq<seq<int>>, rows: seq<seq<real>>): seq<ItemPrediction>
    requires Decodable(instances) && Scorable(instances, rows)
  {
    seq(Min(|instances|, |rows|), k requires 0 <= k < Min(|instances|, |rows|) =>
      ItemPrediction(IndexOf(instances[k], 1).value, rows[k][0]))
  }

  /** A successful answer ranks exactly the scored records: highest prediction
      first, nothing added, dropped or altered, and ties in their input order. */
  lemma HandlerRanking(body: string, ctx: Context, instances: seq<seq<int>>,
                       response: ServerResponse, rows: seq<seq<real>>)
    requires HandlerOutcome(body, ctx, instances, response, rows).Success?
    ensures Decodable(instances) && Scorable(instances, rows)
    ensures var ranked := HandlerOutcome(body, ctx, instances, response, rows).value.predictions;
            && SortedDesc(ranked)
            && multiset(ranked) == multiset(Scored(instances, rows))
            && SameOrderPerKey(ranked, Scored(instances, rows))
  {
    var pairs := Pair(ItemIds(instances).value, rows).value;
    assert pairs == Scored(instances, rows);
    SortDescSorted(pairs);
    SortDescPermutes(pairs);
    SortDescStable(pairs);
  }

  /** `handler`: the guards, the decoding loop, the pairing and the in-place
      ranking, run in order; the model server's answer arrives as a parameter. */
  method Handler(body: string, ctx: Context, instances: seq<seq<int>>,
                 response: ServerResponse, rows: seq<seq<real>>) returns (r: Result<Reply>)
    ensures r == HandlerOutcome(body, ctx, instances, response, rows)
  {
    var processedInput :- ProcessInput(body, ctx);
    var itemIds :- DecodeItemIds(instances);
    var output :- ProcessOutput(response, ctx);
    var pairs :- Pair(itemIds, rows);
    var scores := new ItemPrediction[|pairs|](k requires 0 <= k < |pairs| => pairs[k]);
    assert scores[..] == pairs;
    SortByPredictionDesc(scores);
    r := Success(Reply(scores[..], output.1));
  }
}
