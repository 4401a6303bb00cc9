/** `run_batch_test`: entries are appended to a pending batch, and the batch
    is sent when the `u32` counter `batch_count` equals `batch_size`.

    The counter counts entries since the start of the run and is never set
    back to zero, so (for fewer than 2^32 entries) it passes `batch_size` at
    most once: the run sends at most one batch, holding the first
    `batch_size` entries, and everything after them stays in the pending
    batch, unsent. `ResetAfterFlush` is the rule the clearing of the batch
    suggests was intended; it is modelled alongside for comparison. */
module Batch {

  import opened Wrappers
  import opened Decimal
  import opened Manta
  import opened Store

  /** `batch_count += 1` on a `u32`, with the wrap-around of a release
      build. */
  function Increment(count: u32): u32 {
    (count + 1) % MAX_U32
  }

  /** What happens to `batch_count` after a flush. `run_batch_test` never
      resets it (`NeverReset`). */
  datatype CounterRule = NeverReset | ResetAfterFlush

  /** The state of a run when it returns: the calls issued, the requests
      still sitting in `batch`, and how the run ended. */
  datatype BatchRun = BatchRun(issued: seq<Call>, pending: seq<BatchRequest>, outcome: Outcome)

  /** The loop of `run_batch_test` from entry `i` on, with `batch`, `count`
      and the calls `issued` so far as its state. */
  function Drive(rule: CounterRule, store: Responder, reqs: seq<BatchRequest>, batchSize: u32,
                 i: nat, batch: seq<BatchRequest>, count: u32, issued: seq<Call>): (r: BatchRun)
    requires i <= |reqs|
    // calls are only ever added, and every call added is a batch
    ensures issued <= r.issued
    ensures forall j :: |issued| <= j < |r.issued| ==> r.issued[j].Batch?
    // a run never panics, and it aborts exactly on a batch the store refused
    ensures !r.outcome.Panicked?
    ensures r.outcome.Aborted? ==>
              |r.issued| > |issued| && store(r.issued[..|r.issued| - 1], r.issued[|r.issued| - 1]) == Some(r.outcome.err)
    // and every batch it sent before that, or every batch of a completed run, was accepted
    ensures forall j :: |issued| <= j < |r.issued| && (r.outcome.Completed? || j < |r.issued| - 1) ==>
              store(r.issued[..j], r.issued[j]).None?
    decreases |reqs| - i
  {
    if i == |reqs| then
      BatchRun(issued, batch, Completed)
    else
      var batch' := batch + [reqs[i]];
      var count' := Increment(count);
      if count' == batchSize then
        var call := Batch(batch');
        match store(issued, call)
        case Some(e) => BatchRun(issued + [call], batch', Aborted(e))
        case None =>
          var r := Drive(rule, store, reqs, batchSize, i + 1, [], if rule == NeverReset then count' else 0, issued + [call]);
          assert r.issued[..|issued|] == issued && r.issued[|issued|] == call by {
            assert (issued + [call])[..|issued|] == issued;
          }
          r
      else
        Drive(rule, store, reqs, batchSize, i + 1, batch', count', issued)
  }

  /** One step of the loop, taken apart by case: the entry is added to the
      batch, and a full batch is sent and either refused or accepted. */
  lemma DriveStep(rule: CounterRule, store: Responder, reqs: seq<BatchRequest>, batchSize: u32,
                  i: nat, batch: seq<BatchRequest>, count: u32, issued: seq<Call>)
    requires i < |reqs|
    ensures Increment(count) != batchSize ==>
              Drive(rule, store, reqs, batchSize, i, batch, count, issued)
              == Drive(rule, store, reqs, batchSize, i + 1, batch + [reqs[i]], Increment(count), issued)
    ensures Increment(count) == batchSize && store(issued, Batch(batch + [reqs[i]])).Some? ==>
              Drive(rule, store, reqs, batchSize, i, batch, count, issued)
              == BatchRun(issued + [Batch(batch + [reqs[i]])], batch + [reqs[i]],
                          Aborted(store(issued, Batch(batch + [reqs[i]])).value))
    ensures Increment(count) == batchSize && store(issued, Batch(batch + [reqs[i]])).None? ==>
              Drive(rule, store, reqs, batchSize, i, batch, count, issued)
              == Drive(rule, store, reqs, batchSize, i + 1, [], if rule == NeverReset then Increment(count) else 0,
                       issued + [Batch(batch + [reqs[i]])])
  {
  }

  /** A whole run over `reqs`, starting from an empty batch and a zero
      counter. */
  function Run(rule: CounterRule, store: Responder, reqs: seq<BatchRequest>, batchSize: u32): BatchRun {
    Drive(rule, store, reqs, batchSize, 0, [], 0, [])
  }

  /** The outcome of the loop of `run_batch_test` over fewer than 2^32 entries: with
      `batchSize` zero or larger than the input nothing is sent and every
      entry stays pending; otherwise exactly one batch, of the first
      `batchSize` entries, is sent. If the store accepts it the run
      completes with all later entries pending; if not, it aborts with the
      store's error. */
  ghost predicate FlushedAtMostOnce(store: Responder, reqs: seq<BatchRequest>, batchSize: u32, r: BatchRun) {
    if batchSize == 0 || |reqs| < batchSize then
      r == BatchRun([], reqs, Completed)
    else
      var first := Batch(reqs[..batchSize]);
      && r.issued == [first]
      && match store([], first)
         case None => r.outcome == Completed && r.pending == reqs[batchSize..]
         case Some(e) => r.outcome == Aborted(e) && r.pending == reqs[..batchSize]
  }

  /** Once the counter is at or past `batchSize` (or `batchSize` is zero) and
      cannot wrap, no further batch is sent: the rest of the input piles up
      in the pending batch. */
  lemma {:induction false} NoFurtherFlush(store: Responder, reqs: seq<BatchRequest>, batchSize: u32,
                                          i: nat, batch: seq<BatchRequest>, issued: seq<Call>)
    requires i <= |reqs| < MAX_U32
    requires batchSize == 0 || batchSize <= i
    ensures Drive(NeverReset, store, reqs, batchSize, i, batch, i, issued) == BatchRun(issued, batch + reqs[i..], Completed)
    decreases |reqs| - i
  {
    if i < |reqs| {
      assert Increment(i) == i + 1;
      NoFurtherFlush(store, reqs, batchSize, i + 1, batch + [reqs[i]], issued);
      assert reqs[i..] == [reqs[i]] + reqs[i + 1..];
    } else {
      assert reqs[i..] == [];
    }
  }

  /** Before the counter reaches `batchSize`, the pending batch is exactly
      the entries seen so far and nothing has been sent. */
  lemma {:induction false} UpToFirstFlush(store: Responder, reqs: seq<BatchRequest>, batchSize: u32, i: nat)
    requires |reqs| < MAX_U32
    requires 1 <= batchSize && i < batchSize && i <= |reqs|
    ensures FlushedAtMostOnce(store, reqs, batchSize, Drive(NeverReset, store, reqs, batchSize, i, reqs[..i], i, []))
    decreases |reqs| - i
  {
    if i == |reqs| {
      assert reqs[..i] == reqs;
    } else {
      assert Increment(i) == i + 1;
      assert reqs[..i] + [reqs[i]] == reqs[..i + 1];
      if i + 1 == batchSize {
        var first := Batch(reqs[..batchSize]);
        if store([], first).None? {
          assert [] + [first] == [first];
          assert Drive(NeverReset, store, reqs, batchSize, i, reqs[..i], i, [])
              == Drive(NeverReset, store, reqs, batchSize, i + 1, [], i + 1, [first]);
          NoFurtherFlush(store, reqs, batchSize, i + 1, [], [first]);
          assert [] + reqs[i + 1..] == reqs[batchSize..];
        }
      } else {
        UpToFirstFlush(store, reqs, batchSize, i + 1);
      }
    }
  }

  /** The loop of `run_batch_test` sends at most one batch (fewer than 2^32 entries). */
  lemma AsWrittenFlushesAtMostOnce(store: Responder, reqs: seq<BatchRequest>, batchSize: u32)
    requires |reqs| < MAX_U32
    ensures FlushedAtMostOnce(store, reqs, batchSize, Run(NeverReset, store, reqs, batchSize))
  {
    if batchSize == 0 {
      NoFurtherFlush(store, reqs, batchSize, 0, [], []);
      assert [] + reqs[0..] == reqs;
    } else {
      assert reqs[..0] == [];
      UpToFirstFlush(store, reqs, batchSize, 0);
    }
  }

  /** The requests carried by a list of batch calls, in the order sent. */
  function Sent(calls: seq<Call>): seq<BatchRequest> {
    if |calls| == 0 then []
    else (if calls[0].Batch? then calls[0].requests else []) + Sent(calls[1..])
  }

  /** The batches `ResetAfterFlush` sends from `s`: consecutive groups of
      `size` entries, as long as a full group remains. */
  function Chunks(s: seq<BatchRequest>, size: nat): seq<Call>
    requires 1 <= size
    decreases |s|
  {
    if |s| < size then [] else [Batch(s[..size])] + Chunks(s[size..], size)
  }

  /** The entries `ResetAfterFlush` leaves pending: the short last group. */
  function Leftover(s: seq<BatchRequest>, size: nat): seq<BatchRequest>
    requires 1 <= size
    decreases |s|
  {
    if |s| < size then s else Leftover(s[size..], size)
  }

  /** Cutting `s` into groups loses nothing and duplicates nothing: the
      groups followed by the leftover are `s` again, there are
      floor(|s| / size) groups of `size` entries, and `|s| mod size` entries
      are left over. */
  lemma {:induction false} ChunksPartition(s: seq<BatchRequest>, size: nat)
    requires 1 <= size
    ensures Sent(Chunks(s, size)) + Leftover(s, size) == s
    ensures |Chunks(s, size)| == |s| / size
    ensures |Leftover(s, size)| == |s| % size
    ensures forall j :: 0 <= j < |Chunks(s, size)| ==>
              Chunks(s, size)[j].Batch? && |Chunks(s, size)[j].requests| == size
    decreases |s|
  {
    if |s| >= size {
      var rest := s[size..];
      ChunksPartition(rest, size);
      var c := Chunks(s, size);
      assert c[1..] == Chunks(rest, size);
      assert Sent(c) == s[..size] + Sent(Chunks(rest, size));
      assert s == s[..size] + rest;
      DivModStep(|s|, size);
    }
  }

  lemma DivModStep(n: nat, size: nat)
    requires 1 <= size <= n
    ensures n / size == (n - size) / size + 1
    ensures n % size == (n - size) % size
  {
    var q, r := (n - size) / size, (n - size) % size;
    assert n == (q + 1) * size + r by {
      assert n - size == q * size + r;
      assert (q + 1) * size == q * size + size;
    }
    DivModUnique(n, size, q + 1, r);
  }

  /** Euclidean division has one quotient and one remainder. */
  lemma DivModUnique(n: nat, d: nat, q: nat, r: nat)
    requires 1 <= d && r < d && n == q * d + r
    ensures n / d == q && n % d == r
  {
    var q0, r0 := n / d, n % d;
    assert n == q0 * d + r0;
    if q0 > q {
      MulStep(q, q0, d);
      assert false;
    } else if q0 < q {
      MulStep(q0, q, d);
      assert false;
    }
    assert q0 == q;
  }

  lemma MulStep(a: nat, b: nat, d: nat)
    requires a < b
    ensures b * d >= a * d + d
  {
    var k := b - a - 1;
    assert b * d == a * d + d + k * d;
  }

  /** With the counter reset after each flush and a store that accepts
      every call, the loop sends exactly the groups `Chunks` describes and
      leaves `Leftover` pending. */
  lemma {:induction false} ResetDrive(store: Responder, reqs: seq<BatchRequest>, batchSize: u32,
                                      i: nat, batch: seq<BatchRequest>, issued: seq<Call>)
    requires NeverFails(store)
    requires 1 <= batchSize && |batch| < batchSize && i <= |reqs|
    ensures Drive(ResetAfterFlush, store, reqs, batchSize, i, batch, |batch|, issued)
         == BatchRun(issued + Chunks(batch + reqs[i..], batchSize), Leftover(batch + reqs[i..], batchSize), Completed)
    decreases |reqs| - i
  {
    var s := batch + reqs[i..];
    if i == |reqs| {
      assert s == batch;
    } else {
      var batch' := batch + [reqs[i]];
      assert Increment(|batch|) == |batch'|;
      assert s == batch' + reqs[i + 1..];
      if |batch'| == batchSize {
        var call := Batch(batch');
        assert store(issued, call).None?;
        ResetDrive(store, reqs, batchSize, i + 1, [], issued + [call]);
        assert s[..batchSize] == batch';
        assert s[batchSize..] == [] + reqs[i + 1..];
        assert Chunks(s, batchSize) == [call] + Chunks(s[batchSize..], batchSize);
      } else {
        ResetDrive(store, reqs, batchSize, i + 1, batch', issued);
      }
    }
  }

  /** The corrected loop sends floor(M / T) batches of T entries each, in
      order, and leaves the last `M mod T` entries pending. */
  lemma ResetAfterFlushSendsEveryFullGroup(store: Responder, reqs: seq<BatchRequest>, batchSize: u32)
    requires NeverFails(store)
    requires 1 <= batchSize
    ensures var r := Run(ResetAfterFlush, store, reqs, batchSize);
            && r.outcome == Completed
            && |r.issued| == |reqs| / batchSize
            && (forall j :: 0 <= j < |r.issued| ==> r.issued[j].Batch? && |r.issued[j].requests| == batchSize)
            && Sent(r.issued) + r.pending == reqs
            && |r.pending| == |reqs| % batchSize
  {
    ResetDrive(store, reqs, batchSize, 0, [], []);
    assert [] + reqs[0..] == reqs;
    assert [] + Chunks(reqs, batchSize) == Chunks(reqs, batchSize);
    ChunksPartition(reqs, batchSize);
  }

  /** 100 entries with batches of 50, against a store that accepts every
      call: `run_batch_test` sends one batch and leaves 50 entries unsent, where
      the corrected loop sends two and leaves none. */
  lemma HundredEntriesInBatchesOfFifty(store: Responder, reqs: seq<BatchRequest>)
    requires NeverFails(store)
    requires |reqs| == 100
    ensures |Run(NeverReset, store, reqs, 50).issued| == 1
    ensures |Run(NeverReset, store, reqs, 50).pending| == 50
    ensures |Run(ResetAfterFlush, store, reqs, 50).issued| == 2
    ensures |Run(ResetAfterFlush, store, reqs, 50).pending| == 0
  {
    AsWrittenFlushesAtMostOnce(store, reqs, 50);
    assert store([], Batch(reqs[..50])).None?;
    ResetAfterFlushSendsEveryFullGroup(store, reqs, 50);
  }

  /** The harness's own setting: 10000 objects (no id drawn twice) written
      in batches of 50. `run_batch_test` sends one batch and leaves the other
      9950 entries unsent. */
  lemma HarnessPassSendsOneBatch(store: Responder, reqs: seq<BatchRequest>)
    requires NeverFails(store)
    requires |reqs| == 10000
    ensures |Run(NeverReset, store, reqs, 50).issued| == 1
    ensures Sent(Run(NeverReset, store, reqs, 50).issued) == reqs[..50]
    ensures |Run(NeverReset, store, reqs, 50).pending| == 9950
  {
    AsWrittenFlushesAtMostOnce(store, reqs, 50);
    assert store([], Batch(reqs[..50])).None?;
    assert Sent([Batch(reqs[..50])]) == reqs[..50] + Sent([]);
  }

  /** The loop of `run_batch_test` over the entries of `objects`, visited
      in `order`. */
  method BatchLoop(store: Responder, objects: map<string, Value>, order: seq<string>, batchSize: u32)
    returns (run: BatchRun)
    requires forall k :: k in order ==> k in objects
    ensures run == Run(NeverReset, store, Requests(objects, order), batchSize)
  {
    ghost var reqs := Requests(objects, order);
    ghost var whole := Run(NeverReset, store, reqs, batchSize);
    var batch: seq<BatchRequest> := [];
    var count: u32 := 0;
    var issued: seq<Call> := [];
    var i := 0;
    while i < |order|
      invariant 0 <= i <= |order|
      invariant Drive(NeverReset, store, reqs, batchSize, i, batch, count, issued) == whole
    {
      var req := BatchPut(BUCKET_NAME, order[i], objects[order[i]]);
      RequestAt(objects, order, i);
      DriveStep(NeverReset, store, reqs, batchSize, i, batch, count, issued);
      batch := batch + [req];
      count := Increment(count);
      if count == batchSize {
        var call := Batch(batch);
        var answer := store(issued, call);
        issued := issued + [call];
        if answer.Some? {
          return BatchRun(issued, batch, Aborted(answer.value));
        }
        batch := [];
      }
      i := i + 1;
    }
    run := BatchRun(issued, batch, Completed);
  }

  /** `run_batch_test`: the loop over the entries of `objects` in a `HashMap`
      iteration order; for fewer than 2^32 entries it sends at most one
      batch. */
  method RunBatchTest(store: Responder, objects: map<string, Value>, order: seq<string>, batchSize: u32)
    returns (run: BatchRun)
    requires IsIterationOrder(objects, order)
    ensures run == Run(NeverReset, store, Requests(objects, order), batchSize)
    ensures |objects| < MAX_U32 ==> FlushedAtMostOnce(store, Requests(objects, order), batchSize, run)
  {
    run := BatchLoop(store, objects, order, batchSize);
    IterationOrderLength(objects, order);
    if |objects| < MAX_U32 {
      AsWrittenFlushesAtMostOnce(store, Requests(objects, order), batchSize);
    }
  }
}
