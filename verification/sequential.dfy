/** `run_sequential_test`: one `put_object` per entry, in iteration order.
    A failing put is not returned as an error: `.expect("put object")`
    panics, which ends the whole harness. */
module Sequential {

  import opened Wrappers
  import opened Manta
  import opened Store

  /** The put that writes the entry of `m` under `key`. */
  function PutOf(m: map<string, Value>, key: string): Call
    requires key in m
  {
    PutObject(BUCKET_NAME, key, m[key])
  }

  /** The set of puts that together write every entry of `m` once. */
  function AllPuts(m: map<string, Value>): set<Call> {
    set k | k in m :: PutOf(m, k)
  }

  method RunSequentialTest(store: Responder, objects: map<string, Value>, order: seq<string>)
    returns (issued: seq<Call>, outcome: Outcome)
    requires IsIterationOrder(objects, order)
    // the i-th call writes the i-th entry, to BUCKET_NAME, with its own value
    ensures |issued| <= |order|
    ensures forall i :: 0 <= i < |issued| ==> issued[i] == PutOf(objects, order[i])
    // every call but a panicking last one succeeded
    ensures forall i :: 0 <= i < |issued| && (outcome.Completed? || i < |issued| - 1) ==>
              store(issued[..i], issued[i]).None?
    // the run either writes all entries or panics on the first failed put
    ensures !outcome.Aborted?
    ensures outcome.Completed? ==> |issued| == |order| == |objects|
    ensures outcome.Panicked? ==>
              |issued| >= 1 && store(issued[..|issued| - 1], issued[|issued| - 1]) == Some(outcome.err)
    // against a store that accepts everything: |objects| puts, each entry written once
    ensures NeverFails(store) ==>
              && outcome.Completed?
              && |issued| == |objects|
              && (forall i, j :: 0 <= i < j < |issued| ==> issued[i] != issued[j])
              && (forall c :: c in issued <==> c in AllPuts(objects))
  {
    issued := [];
    var i := 0;
    while i < |order|
      invariant 0 <= i <= |order|
      invariant |issued| == i
      invariant forall j :: 0 <= j < i ==> issued[j] == PutOf(objects, order[j])
      invariant forall j :: 0 <= j < i ==> store(issued[..j], issued[j]).None?
    {
      var call := PutObject(BUCKET_NAME, order[i], objects[order[i]]);
      var answer := store(issued, call);
      var next := issued + [call];
      assert forall j :: 0 <= j <= i ==> next[..j] == issued[..j];
      issued := next;
      if answer.Some? {
        outcome := Panicked(answer.value);
        return;
      }
      i := i + 1;
    }
    outcome := Completed;
    IterationOrderLength(objects, order);
    forall c | c in AllPuts(objects)
      ensures c in issued
    {
      var k :| k in objects && c == PutOf(objects, k);
      var j :| 0 <= j < |order| && order[j] == k;
      assert issued[j] == c;
    }
  }
}
