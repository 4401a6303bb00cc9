/** The Moray client as the benchmark runners see it: the calls they issue,
    and the store's answer to each. The wire protocol is not modelled; a
    runner's observable behaviour is the list of calls it issues. */
module Store {

  import opened Wrappers
  import opened Manta

  /** `BUCKET_NAME`, the bucket every write goes to. */
  const BUCKET_NAME: string := "rust_batch_test_bucket"

  /** `BatchRequest::Put(BatchPutOp { .. })`. The default `MethodOptions`
      are the same on every request and are not represented. */
  datatype BatchRequest = BatchPut(bucket: string, key: string, value: Value)

  /** One client call: `put_object` or `batch`. */
  datatype Call =
    | PutObject(bucket: string, key: string, value: Value)
    | Batch(requests: seq<BatchRequest>)

  /** The store's answer to a call, given the calls issued before it in the
      same run: `None` is success, `Some(e)` the error the client returns. */
  type Responder = (seq<Call>, Call) -> Option<Error>

  ghost predicate NeverFails(store: Responder) {
    forall before: seq<Call>, c: Call :: store(before, c).None?
  }

  /** How a runner ended: normally, by returning an `Err` through `?`, or by
      panicking in `.expect`. */
  datatype Outcome = Completed | Aborted(err: Error) | Panicked(err: Error)

  predicate Distinct(keys: seq<string>) {
    forall i, j :: 0 <= i < j < |keys| ==> keys[i] != keys[j]
  }

  /** `order` is an order in which a `HashMap` with key set `m.Keys` may
      hand out its entries: each key exactly once. */
  predicate IsIterationOrder<V>(m: map<string, V>, order: seq<string>) {
    && Distinct(order)
    && (forall k :: k in order ==> k in m)
    && (forall k :: k in m ==> k in order)
  }

  /** The batch requests built from the entries of `m`, in iteration order. */
  function Requests(m: map<string, Value>, order: seq<string>): (reqs: seq<BatchRequest>)
    requires forall k :: k in order ==> k in m
    // one request per visited key, in the order visited
    ensures |reqs| == |order|
    ensures forall i :: 0 <= i < |reqs| ==> reqs[i].key == order[i]
  {
    seq(|order|, i requires 0 <= i < |order| => BatchPut(BUCKET_NAME, order[i], m[order[i]]))
  }

  /** The `i`-th request, in full. */
  lemma RequestAt(m: map<string, Value>, order: seq<string>, i: nat)
    requires forall k :: k in order ==> k in m
    requires i < |order|
    ensures Requests(m, order)[i] == BatchPut(BUCKET_NAME, order[i], m[order[i]])
  {
  }

  /** For an iteration order, the requests write every entry of the map,
      each to BUCKET_NAME with its own value, and no key twice. */
  lemma RequestsCoverMap(m: map<string, Value>, order: seq<string>)
    requires IsIterationOrder(m, order)
    ensures forall r :: r in Requests(m, order) ==> r.bucket == BUCKET_NAME && r.key in m && r.value == m[r.key]
    ensures forall k :: k in m <==> exists i :: 0 <= i < |Requests(m, order)| && Requests(m, order)[i].key == k
    ensures forall i, j :: 0 <= i < j < |Requests(m, order)| ==> Requests(m, order)[i].key != Requests(m, order)[j].key
  {
    var reqs := Requests(m, order);
    forall k | k in m
      ensures exists i :: 0 <= i < |reqs| && reqs[i].key == k
    {
      var i :| 0 <= i < |order| && order[i] == k;
      assert reqs[i].key == k;
    }
  }

  /** A sequence without repetitions has as many elements as its set. */
  lemma {:induction false} DistinctCardinality(keys: seq<string>)
    requires Distinct(keys)
    ensures |set k | k in keys| == |keys|
  {
    if |keys| > 0 {
      var init := keys[..|keys| - 1];
      var last := keys[|keys| - 1];
      assert Distinct(init);
      DistinctCardinality(init);
      assert (set k | k in keys) == (set k | k in init) + {last};
      assert last !in init;
    }
  }

  /** An iteration order visits exactly `|m|` entries. */
  lemma IterationOrderLength<V>(m: map<string, V>, order: seq<string>)
    requires IsIterationOrder(m, order)
    ensures |order| == |m|
  {
    DistinctCardinality(order);
    assert (set k | k in order) == m.Keys;
  }
}
