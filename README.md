# NCF inference handler, modelled in Dafny

This project models the request handler of the recommendation (NCF) model
served in `lab2/ncf/src/inference.py`. The handler:

1. accepts only `application/json` requests (`_process_input`);
2. decodes each request instance's one-hot `input_2` vector into an item id,
   the position of its first `1` (`list.index(1)`);
3. forwards the request to the model server and refuses any answer whose
   status is not 200 (`_process_output`);
4. pairs each item id with the first score of the matching prediction row
   (`zip` inside a list comprehension);
5. ranks the `{item_id, prediction}` records in place, highest prediction
   first, with Python's stable `list.sort(key=order_item_predictions, reverse=True)`.

Modules, one per part of the handler:

- `Outcomes` (`outcomes.dfy`): `Option`, and `Result` with one `Error`
  constructor for each raise site the model keeps (the others are listed
  under "Left out").
- `Guards` (`guards.dfy`): the request `Context`, the model server's
  `ServerResponse`, `ProcessInput` and `ProcessOutput`.
- `Ranking` (`ranking.dfy`): the `ItemPrediction` record and its sort key
  `OrderItemPredictions` (`order_item_predictions`). `SortDesc` is a reference
  stable descending sort, with lemmas that it is sorted, a permutation and
  stable, and that these three facts determine it. `SortByPredictionDesc`
  is an in-place insertion sort on an `array`, proved equal to `SortDesc`.
- `Inference` (`inference.dfy`): `IndexOf` (`list.index`); the decoding
  loop `DecodeItemIds` and its specification `ItemIds`; the comprehension
  `Pair`; and `handler` itself. `HandlerOutcome` is the handler as a
  function, and `Handler` is the method that runs the loop and the in-place
  sort, proved equal to it.

Stability is stated without positions. For every score `v`, the records
scored `v` appear in the same order before and after the sort
(`SameOrderPerKey`, built on `WithKey`).

The model server call (`requests.post` to `context.rest_uri`) is outside
the model. Its answer is a parameter of the handler: the response (status
and body) and the parsed `predictions` rows. The parsed `instances` of the
request body are a parameter in the same way.

## Model

| member | source | states |
|---|---|---|
| Guards.ProcessInput | lab2/ncf/src/inference.py:39-46 | Succeeds exactly when the content type is `application/json`, and then returns the body unchanged. Otherwise it fails with an unsupported-content-type error whose message names the content type, or `unknown` when the content type is missing or empty. |
| Guards.UnsupportedMessageNamesContentType | lab2/ncf/src/inference.py:45-46 | The content type can be read back out of the error message: the message names it exactly. |
| Guards.ProcessOutput | lab2/ncf/src/inference.py:49-55 | Succeeds exactly when the status is 200, and then returns the server's body and the client's accept header. Otherwise it fails with the server's body as the message. |
| Inference.IndexOf | lab2/ncf/src/inference.py:21 | Finds an index exactly when the value occurs. The index holds the value, and no earlier position does, so it is the first occurrence. |
| Inference.ItemIds | lab2/ncf/src/inference.py:18-22 | Succeeds exactly when every instance's vector contains a 1; otherwise it fails with the `list.index` error. On success it gives one id per instance, in order, and id `k` is the first position of 1 in instance `k`. |
| Inference.DecodeItemIds | lab2/ncf/src/inference.py:18-22 | The appending loop returns exactly `ItemIds(instances)`, including its failure. |
| Inference.Pair | lab2/ncf/src/inference.py:31 | Fails exactly when a row that `zip` reaches is empty. On success it has length min(ids, rows), and entry `k` pairs `ids[k]` with `rows[k][0]`. |
| Inference.HandlerOutcome | lab2/ncf/src/inference.py:7-36 | Succeeds exactly when the content type is JSON, every instance decodes, the status is 200 and every reached row is non-empty. The first failing stage, in the source's order, decides the error, and a refused content type yields exactly `ProcessInput`'s error, whose message names it. On success the content type is the accept header and the answer has min(instances, rows) records. |
| Inference.HandlerRanking | lab2/ncf/src/inference.py:31-32 | A successful answer is sorted highest prediction first. It is a permutation of the pairs (decoded id `k`, first score of row `k`). Records with equal predictions keep their input order. |
| Inference.Handler | lab2/ncf/src/inference.py:7-36 | The imperative handler (loop, pairing, sort of a fresh array in place) returns exactly `HandlerOutcome`. |
| Ranking.SortDesc | lab2/ncf/src/inference.py:32 | The reference stable descending sort keeps the length of its input. |
| Ranking.SortDescSorted | lab2/ncf/src/inference.py:4-5 | The sorted records' predictions (the sort key) never increase along the list. |
| Ranking.SortDescPermutes | lab2/ncf/src/inference.py:32 | Sorting neither adds, drops nor alters a record: the multiset of records is unchanged. |
| Ranking.SortDescStable | lab2/ncf/src/inference.py:32 | Records with equal predictions keep their relative order, as Python's stable sort does even with `reverse=True`. |
| Ranking.SortedStableUnique | lab2/ncf/src/inference.py:32 | Two highest-first sequences with the same per-prediction order of records are equal. |
| Ranking.SortDescUnique | lab2/ncf/src/inference.py:32 | Any highest-first, stable rearrangement of the input is `SortDesc` of it, so the reference sort is the only correct result. |
| Ranking.InsertSorted | lab2/ncf/src/inference.py:32 | Inserting a record into a highest-first sequence keeps it highest-first. |
| Ranking.InsertWithKey | lab2/ncf/src/inference.py:32 | Inserting into a highest-first sequence places the record after every record that ties with it. |
| Ranking.ShiftLower | lab2/ncf/src/inference.py:32 | The shifting loop moves right by one place exactly the trailing records whose key is below the new record's. The record at the returned gap and every record outside the shifted range keep their old values. |
| Ranking.InsertNext | lab2/ncf/src/inference.py:32 | One insertion pass turns the array's prefix into `Insert` of the next record, and leaves the rest of the array unchanged. |
| Ranking.SortByPredictionDesc | lab2/ncf/src/inference.py:32 | The in-place sort leaves the array equal to `SortDesc` of its old contents. |

## Left out

- The model server call (`requests.post`, line 24) is outside the model. Its response and its parsed `predictions` rows are parameters of the handler.
- JSON parsing and serialisation (`json.loads`, `json.dumps`) are left out, and so are the `KeyError`/`TypeError` raised for a body without `instances`, an instance without `input_2`, an answer without `predictions`, or values of the wrong shape. The parsed structures are given directly, as `seq<seq<int>>` instances and `seq<seq<real>>` rows.
- UTF-8 decoding of the request and response bodies (`decode('utf-8')`) is left out. Bodies are modelled as already-decoded text, so a decoding error is not modelled.
- `Inference.HandlerOutcome`: the request body is not tied to the `instances` parameter (that needs the JSON parser). The answer is the record list and content type before `json.dumps`.
- Scores are reals and compare as a total order. Floating-point behaviour (NaN, which breaks Python's sort ordering) is not modelled.
- `Inference.IndexOf`: vectors hold integers only. Python's `index(1)` would also match `True` or `1.0` in a list of mixed types.
- `Context.restUri` is carried but not used: it only addresses the server call, which is a parameter here.
- The `ItemNotInList` and `EmptyPredictionRow` errors do not say which instance or row caused them, just as Python's `ValueError` and `IndexError` do not.
- The prompt-templating and evaluation notebooks, endpoint deployment and canary rollout are not part of this model: they are outside `inference.py`.
