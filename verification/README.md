# Moray batch-update benchmark: a Dafny model of its control logic

The harness measures write throughput against a Moray shard. First it
locates the shard. It looks up the SRV record
`_moray._tcp.{shard}.moray.{domain}`, picks one record at random, takes the
first address of that record's target, and connects a `MorayClient` there.
It then generates a corpus of Manta objects, each with two sharks. On each
pass it mutates the corpus, moving every object's last shark to one new
shark, and writes the result with one of two strategies:

- **sequential**: one `put_object` per entry;
- **batched**: requests are accumulated and sent with `batch` once a counter
  reaches the batch size.

The model covers this logic as pure functions and short methods over
immutable values:

| module | file | models |
|---|---|---|
| `Wrappers` | wrappers.dfy | `Option`, `Result`, the harness's error kinds |
| `Decimal` | decimal.dfy | `{}` formatting of `u16`/`u32`, and the parser that undoes it |
| `Manta` | manta.dfy | `MantaObject` (id, sharks, all other fields kept as they are), `MantaObjectShark`, and `serde_json::Value` as a lossless encoding |
| `Discovery` | discovery.dfy | `get_srv_record`, `lookup_ip`, `get_moray_srv_sockaddr`, `create_client` |
| `Corpus` | corpus.dfy | `gen_test_objects` |
| `Mutation` | mutation.dfy | `random_string`, `alter_objects` |
| `Store` | store.dfy | client calls, batch requests, `BUCKET_NAME`, `HashMap` iteration orders |
| `Sequential` | sequential.dfy | `run_sequential_test` |
| `Batch` | batch.dfy | `run_batch_test`, and the corrected counter rule |

Everything outside the harness becomes an explicit input:

- **DNS** is a `Dns` value. It gives the answer to every SRV query and every
  host lookup, and either answer may be an error.
- **The store** is a `Responder`. It answers each call given the calls
  issued before it in the same run, so a runner's observable behaviour is
  the list of calls it issues and how it ended.
- **`HashMap` iteration order** is a parameter `order`. It must list every
  key of the map exactly once.
- **Random choices** are explicit draws. `choose` picks `records[pick %
  len]`, `gen_range(lo, hi)` is `lo + draw % (hi - lo)`, `random_string`
  picks one `Alphanumeric` character per draw, and `rand_id` is a `u16`
  parameter.
- **The objects `MantaObject::arbitrary` produces** are a sequence parameter.

## Model

| member | source | states |
|---|---|---|
| `Decimal.Format` | src/main.rs:100 | the decimal rendering of a shark number is a non-empty digit string with no leading zero |
| `Decimal.ParseFormat` | src/main.rs:222 | parsing a rendered number gives the number back, so the rendering is one-to-one |
| `Manta.StorageIdInjective` | src/main.rs:100 | distinct shark numbers give distinct `"{n}.stor.domain"` storage ids |
| `Manta.ToValue` | src/main.rs:226 | serializing an object loses nothing: decoding the value gives the object back |
| `Store.RequestsCoverMap` | src/main.rs:243-249 | the batch requests built while iterating a map write every entry of the map and nothing else, each to `rust_batch_test_bucket` with the value stored under its key, and no key twice |
| `Store.IterationOrderLength` | src/main.rs:243 | iterating a map visits exactly as many entries as the map holds |
| `Sequential.RunSequentialTest` | src/main.rs:186-204 | the i-th call puts the i-th entry to `BUCKET_NAME` with its own value; the run either issues all M puts, every one accepted, or panics at the first refused put and issues nothing after it; it never returns `Err`; against a store that accepts everything it issues exactly `|objects|` puts, no two alike, which together are one put per entry |
| `Batch.Drive` | src/main.rs:243-257 | the loop only ever adds `batch` calls and never panics; an aborted run ends with a batch the store refused, returning that error, and every batch before it was accepted; in a completed run every batch sent was accepted |
| `Batch.NoFurtherFlush` | src/main.rs:251-256 | with fewer than 2^32 entries in all, once the never-reset counter has reached the batch size (or the size is 0), every remaining entry piles up in the pending batch and nothing more is sent |
| `Batch.UpToFirstFlush` | src/main.rs:243-256 | from any state before the first flush, with fewer than 2^32 entries in all, the run ends as `FlushedAtMostOnce` describes: no call, or one batch of the first T entries and its consequence |
| `Batch.AsWrittenFlushesAtMostOnce` | src/main.rs:239-264 | for M < 2^32 entries and batch size T: if T = 0 or M < T, no call is made and all M entries stay pending with result `Ok`; otherwise exactly one batch is sent, holding the first T entries; if it is accepted, the remaining M - T entries stay pending and the result is `Ok`; if it is refused, the run returns that error |
| `Batch.BatchLoop` | src/main.rs:243-264 | the imperative loop over the entries issues the calls, leaves the pending batch and ends with the outcome that `Drive` describes for the never-reset counter |
| `Batch.RunBatchTest` | src/main.rs:232-265 | `run_batch_test` over a map in any iteration order ends as `Drive` describes, and for fewer than 2^32 entries it sends at most one batch, as above |
| `Batch.HarnessPassSendsOneBatch` | src/main.rs:173 | with 10000 distinct objects and batches of 50, one batch of the first 50 entries is sent and 9950 entries are never written |
| `Batch.HundredEntriesInBatchesOfFifty` | src/main.rs:251-256 | 100 entries in batches of 50: as written, 1 batch is sent and 50 entries stay unsent; with the counter reset after each flush, 2 batches are sent and none stay unsent |
| `Batch.ChunksPartition` | src/main.rs:253-255 | cutting the entries into groups of T gives floor(M/T) groups of exactly T, with M mod T left over, and the groups followed by the leftover are the entries again, in order |
| `Batch.ResetDrive` | src/main.rs:251-256 | with the counter reset after each flush and a store that accepts every call, the loop sends exactly the consecutive full groups and leaves the short last group pending |
| `Batch.ResetAfterFlushSendsEveryFullGroup` | src/main.rs:251-256 | the corrected loop sends floor(M/T) batches of T entries each; what they carry, followed by the pending entries, is the input in order; M mod T entries stay pending |
| `Discovery.MorayQueryInjective` | src/main.rs:58-69 | the SRV query `_moray._tcp.{shard}.moray.{domain}` determines both the shard number and the domain |
| `Discovery.Choose` | src/main.rs:44-47 | an empty SRV answer gives `CatchAll`; a non-empty one always gives one of its records |
| `Discovery.EveryCandidateCanBeChosen` | src/main.rs:45 | every record of the answer is chosen by some draw, whatever its priority or weight |
| `Discovery.GetSrvRecord` | src/main.rs:41-48 | a failed lookup is passed on; a record comes back exactly when the answer to `svc.proto.host` is non-empty, and it is one of that answer's records; an empty answer is `CatchAll` |
| `Discovery.LookupIp` | src/main.rs:50-55 | a failed lookup is passed on unchanged; an address comes back exactly when the answer holds one, and it is one of the answer's addresses; an empty answer gives `CatchAll` |
| `Discovery.LookupIpUsesFirstAddress` | src/main.rs:51-53 | the first address of the answer is the one used: two answers with the same first address give the same result, whatever follows it |
| `Discovery.GetMoraySrvSockaddr` | src/main.rs:57-64 | an empty or failed SRV answer gives `CatchAll` or the lookup's error; otherwise the chosen record decides, with no fallback to another record: a failed lookup of its target returns that error, and a successful one gives (the target's first address, the record's port) |
| `Discovery.ResolvableCandidatesAlwaysYieldAddress` | src/main.rs:57-64 | if the answer is non-empty and every candidate's target has an address, discovery succeeds for every draw |
| `Discovery.CreateClient` | src/main.rs:68-78 | every discovery error, of the SRV answer or of the chosen target's lookup, is passed on; otherwise the client connects only to the one address discovered for `{shard}.moray.{domain}`: a refused connection returns that connection's error, and a success is a client for exactly that address |
| `Corpus.GenRange` | src/main.rs:96 | `gen_range(lo, hi)` gives a number in `[lo, hi)` |
| `Corpus.GenSharksShape` | src/main.rs:95-103 | whatever the draws, an object gets exactly two sharks, both in datacenter "foo", the first on `1.stor.domain` or `2.stor.domain`, the second on `3.stor.domain` or `4.stor.domain` |
| `Corpus.EveryShapeIsGenerated` | src/main.rs:95-103 | each of the four combinations of shark numbers comes from some draws |
| `Corpus.LastWithId` | src/main.rs:106 | the index found is the last iteration that drew that id, and no later iteration did |
| `Corpus.BuiltKeys` | src/main.rs:106 | the keys of the map are exactly the ids drawn |
| `Corpus.BuiltSize` | src/main.rs:89-107 | the map has at most as many entries as iterations, and exactly as many when no id repeats |
| `Corpus.BuiltEntry` | src/main.rs:104-106 | each entry is the object from the last iteration that drew its id, with that iteration's sharks |
| `Corpus.BuildSharks` | src/main.rs:91-104 | the inner loop builds two sharks, both in "foo", the first on node 1 or 2 and the second on node 3 or 4 |
| `Corpus.BuiltEntryShape` | src/main.rs:104-106 | every entry of the generated map is keyed by its own id and has two sharks in "foo", on node 1 or 2 and then on node 3 or 4 |
| `Corpus.GenTestObjects` | src/main.rs:84-110 | the loop builds the map `Built` describes: one entry per distinct id drawn, at most `num_objects` entries, and exactly that many when no id repeats |
| `Mutation.RandomString` | src/main.rs:80-82 | `random_string(len)` has exactly `len` characters, all ASCII letters or digits |
| `Mutation.EveryAlphanumericStringIsPossible` | src/main.rs:80-82 | every alphanumeric string of a given length can be produced |
| `Mutation.Pop` | src/main.rs:219 | `pop` removes the last shark of a non-empty list and leaves an empty list empty |
| `Mutation.AllObjectsShareTheNewShark` | src/main.rs:209-223 | one random string and one `rand_id` are drawn per call, so every altered object ends on the same new shark |
| `Mutation.AlteredOntoRandomShark` | src/main.rs:208-223 | with the datacenter drawn by `random_string(10)`, every altered object ends on a shark in a 10-character alphanumeric datacenter, with storage id `"{rand_id}.stor.domain"` |
| `Mutation.AlterObjects` | src/main.rs:206-230 | the result has exactly the input's keys; each value decodes to the input object with the same id and other fields, all sharks but the last kept in order, and the last one the shared new shark; the shark count is kept for a non-empty list and becomes 1 for an empty one |
| `Mutation.AlterUndone` | src/main.rs:219-224 | putting the dropped shark back in place of the new one restores the object, so exactly one shark is lost |
| `Mutation.AlterGenerated` | src/main.rs:217-224 | a generated object keeps its first shark ("foo", node 1 or 2) and has its second replaced by the new shark |

## Left out

- `main` (src/main.rs:112-184) is not modelled. It covers the bucket get/create sequence, its JSON index schema, the seeding loop of `put_object` calls and the order of the four passes. `println!`, `eprintln!` and `dbg!` output are left out too. None of it holds logic beyond "create if get fails" and "run the passes in order".
- Timing: `Instant::now` and `elapsed().as_millis()` are wall-clock measurements.
- The Moray wire protocol, `MethodOptions` and the result callbacks are left out. The store appears only as the `Responder` answering each call.
- DNS resolution, `DnsConfig::load_default` and `DnsResolver::new` are left out. Their failures are the `Err` answers of the `Dns` input. The logger that `create_client` builds is also left out.
- `MantaObject::arbitrary`, `thread_rng` and the sampling distributions are not modelled. Their results are inputs, and only their ranges are kept.
- `serde_json::to_value` is the lossless encoding `Manta.ToValue`. Its `unwrap` cannot fail in the model.
- Batch.RunBatchTest: a `u32` overflow of `batch_count` is modelled with release-build wrap-around. A debug build panics instead. The at-most-one-flush facts are stated only for fewer than 2^32 entries, where both builds agree.
- Discovery.Choose: the draw is reduced modulo the number of records. The model claims that every record can be chosen, not that the choice is uniform.
- Mutation.RandomString: the order of the 62 characters within the `Alphanumeric` set is an assumption; only membership is claimed.

Behaviour of the code that the model keeps as it is:

- `gen_test_objects` yields at most N entries, because a repeated `object_id` overwrites an earlier entry. Every object gets exactly 2 sharks.
- `pop` on an empty shark list does nothing, so `alter_objects` leaves such an object with one shark; every other object keeps its shark count.
- `run_batch_test` sends at most one batch (see Findings).
- In `run_sequential_test` a failed put panics through `.expect`, so the run never returns an error (`Panicked` in the model). In `run_batch_test` a refused batch is returned as `Err` (`Aborted`).

## Findings

| source | as written | input that shows it | evidently intended | confidence | as-written member | corrected member |
|---|---|---|---|---|---|---|
| src/main.rs:251-256 | `batch_count` counts every entry since the start of the run and is never reset after a flush, so `batch_count == batch_size` holds at most once: one batch is sent and later entries pile up in `batch`, never sent | 100 entries with batch size 50: one batch of 50 is sent and 50 entries are never written; in the harness's own pass (10000 objects, size 50) 9950 are never written | reset the counter after each flush, sending floor(M/T) batches of T entries in order and leaving M mod T pending | high; not executed | `Batch.HundredEntriesInBatchesOfFifty` | `Batch.ResetAfterFlushSendsEveryFullGroup` |

`Batch.RunBatchTest` models the loop as written, with the counter never
reset. The corrected rule is the `ResetAfterFlush` case of `Batch.Drive`.
The final partial batch is left unsent under both rules: after the loop,
`run_batch_test` returns without sending what is left in `batch`. The
corrected rule keeps that behaviour and changes only the counter.
