/** `gen_test_objects`: `num_objects` arbitrary Manta objects, each given
    two sharks in datacenter "foo", keyed by their own `object_id`.

    The arbitrary objects and the random draws are inputs: `drawn[i]` is
    the object `MantaObject::arbitrary` produced in iteration `i`, and
    `draws[i]` the two raw draws behind that iteration's `gen_range` calls. */
module Corpus {

  import opened Decimal
  import opened Manta
  import opened Store

  /** `rng.gen_range(lo, hi)`: a number in `[lo, hi)`, here taken from the
      raw draw `draw`. */
  function GenRange(lo: nat, hi: nat, draw: nat): (n: nat)
    requires lo < hi
    ensures lo <= n < hi
  {
    lo + draw % (hi - lo)
  }

  /** Pass `pass` of the inner loop picks a shark number in
      `[1 + 2 pass, 3 + 2 pass)`. */
  function SharkFor(pass: nat, draw: nat): Shark {
    Shark("foo", StorageId(GenRange(1 + pass * 2, 3 + pass * 2, draw)))
  }

  /** The sharks of the two passes. */
  function GenSharks(draws: (nat, nat)): (sharks: seq<Shark>)
    ensures |sharks| == 2
  {
    [SharkFor(0, draws.0), SharkFor(1, draws.1)]
  }

  /** The shape every generated object has: two sharks in "foo", the first
      on storage node 1 or 2, the second on 3 or 4. */
  predicate GeneratedShape(sharks: seq<Shark>) {
    && |sharks| == 2
    && (forall s :: s in sharks ==> s.datacenter == "foo")
    && sharks[0].storageId in {"1.stor.domain", "2.stor.domain"}
    && sharks[1].storageId in {"3.stor.domain", "4.stor.domain"}
  }

  lemma SmallStorageIds()
    ensures StorageId(1) == "1.stor.domain" && StorageId(2) == "2.stor.domain"
    ensures StorageId(3) == "3.stor.domain" && StorageId(4) == "4.stor.domain"
  {
    assert Format(1) == "1" && Format(2) == "2" && Format(3) == "3" && Format(4) == "4";
  }

  /** Whatever the draws, the sharks have the generated shape. */
  lemma GenSharksShape(draws: (nat, nat))
    ensures GeneratedShape(GenSharks(draws))
  {
    SmallStorageIds();
    var sharks := GenSharks(draws);
    assert sharks[0].storageId == StorageId(GenRange(1, 3, draws.0));
    assert sharks[1].storageId == StorageId(GenRange(3, 5, draws.1));
  }

  /** Conversely, each of the four shapes comes out of some draws. */
  lemma EveryShapeIsGenerated(first: nat, second: nat)
    requires first in {1, 2} && second in {3, 4}
    ensures exists draws :: GenSharks(draws) == [Shark("foo", StorageId(first)), Shark("foo", StorageId(second))]
  {
    var draws := (first - 1, second - 3);
    assert GenRange(1, 3, first - 1) == first by { if first == 1 {} else {} }
    assert GenRange(3, 5, second - 3) == second by { if second == 3 {} else {} }
    assert GenSharks(draws) == [Shark("foo", StorageId(first)), Shark("foo", StorageId(second))];
  }

  /** The object the loop builds from `o`. */
  function Shaped(o: MantaObject, draws: (nat, nat)): MantaObject {
    o.(sharks := GenSharks(draws))
  }

  /** The last of the first `n` iterations that drew an object with id
      `k` (its insertion is the one that stays in the map), or -1. */
  function LastWithId(drawn: seq<MantaObject>, k: string, n: nat): (j: int)
    requires n <= |drawn|
    ensures -1 <= j < n
    ensures j >= 0 ==> drawn[j].objectId == k
    ensures forall l :: j < l < n ==> drawn[l].objectId != k
  {
    if n == 0 then -1
    else if drawn[n - 1].objectId == k then n - 1
    else LastWithId(drawn, k, n - 1)
  }

  /** The ids of the first `n` objects drawn, in order. */
  function IdSeq(drawn: seq<MantaObject>, n: nat): (ids: seq<string>)
    requires n <= |drawn|
    ensures |ids| == n && forall j :: 0 <= j < n ==> ids[j] == drawn[j].objectId
  {
    seq(n, j requires 0 <= j < n => drawn[j].objectId)
  }

  /** No id is drawn twice in the first `n` iterations. */
  predicate DistinctIds(drawn: seq<MantaObject>, n: nat)
    requires n <= |drawn|
  {
    Distinct(IdSeq(drawn, n))
  }

  function IdsOf(drawn: seq<MantaObject>, n: nat): set<string>
    requires n <= |drawn|
  {
    set j | 0 <= j < n :: drawn[j].objectId
  }

  /** The map after the first `n` iterations of the outer loop: each
      iteration inserts its shaped object under the object's own id,
      replacing any earlier entry with that id. */
  function Built(drawn: seq<MantaObject>, draws: seq<(nat, nat)>, n: nat): map<string, MantaObject>
    requires n <= |drawn| == |draws|
  {
    if n == 0 then map[]
    else Built(drawn, draws, n - 1)[drawn[n - 1].objectId := Shaped(drawn[n - 1], draws[n - 1])]
  }

  /** The keys are exactly the ids drawn. */
  lemma {:induction false} BuiltKeys(drawn: seq<MantaObject>, draws: seq<(nat, nat)>, n: nat)
    requires n <= |drawn| == |draws|
    ensures Built(drawn, draws, n).Keys == IdsOf(drawn, n)
  {
    if n == 0 {
      assert IdsOf(drawn, 0) == {};
    } else {
      BuiltKeys(drawn, draws, n - 1);
      IdsStep(drawn, n - 1);
    }
  }

  lemma IdsStep(drawn: seq<MantaObject>, i: nat)
    requires i < |drawn|
    ensures IdsOf(drawn, i + 1) == IdsOf(drawn, i) + {drawn[i].objectId}
  {
  }

  /** No more entries than iterations; exactly as many when no id repeats. */
  lemma {:induction false} BuiltSize(drawn: seq<MantaObject>, draws: seq<(nat, nat)>, n: nat)
    requires n <= |drawn| == |draws|
    ensures |Built(drawn, draws, n)| <= n
    ensures DistinctIds(drawn, n) ==> |Built(drawn, draws, n)| == n
  {
    if n > 0 {
      BuiltSize(drawn, draws, n - 1);
      var before := Built(drawn, draws, n - 1);
      var id := drawn[n - 1].objectId;
      if id in before {
        assert Built(drawn, draws, n).Keys == before.Keys;
      } else {
        assert Built(drawn, draws, n).Keys == before.Keys + {id};
      }
      if DistinctIds(drawn, n) {
        assert DistinctIds(drawn, n - 1);
        BuiltKeys(drawn, draws, n - 1);
        assert id !in IdsOf(drawn, n - 1);
      }
    }
  }

  /** Each entry is the shaped object of the last iteration that drew its
      id. */
  lemma {:induction false} BuiltEntry(drawn: seq<MantaObject>, draws: seq<(nat, nat)>, n: nat, k: string)
    requires n <= |drawn| == |draws|
    requires k in Built(drawn, draws, n)
    ensures LastWithId(drawn, k, n) >= 0
    ensures Built(drawn, draws, n)[k] == Shaped(drawn[LastWithId(drawn, k, n)], draws[LastWithId(drawn, k, n)])
  {
    if drawn[n - 1].objectId != k {
      BuiltEntry(drawn, draws, n - 1, k);
    }
  }

  /** The inner `for i in 0..2` loop. */
  method BuildSharks(draws: (nat, nat)) returns (sharks: seq<Shark>)
    ensures sharks == GenSharks(draws)
    ensures GeneratedShape(sharks)
  {
    sharks := [];
    var pass := 0;
    while pass < 2
      invariant 0 <= pass <= 2
      invariant sharks == GenSharks(draws)[..pass]
    {
      var draw := if pass == 0 then draws.0 else draws.1;
      var sharkNum := GenRange(1 + pass * 2, 3 + pass * 2, draw);
      sharks := sharks + [Shark("foo", StorageId(sharkNum))];
      pass := pass + 1;
    }
    GenSharksShape(draws);
  }

  /** Every entry is keyed by its own id and has the generated shark
      shape. */
  lemma BuiltEntryShape(drawn: seq<MantaObject>, draws: seq<(nat, nat)>, n: nat, k: string)
    requires n <= |drawn| == |draws|
    requires k in Built(drawn, draws, n)
    ensures Built(drawn, draws, n)[k].objectId == k
    ensures GeneratedShape(Built(drawn, draws, n)[k].sharks)
  {
    BuiltEntry(drawn, draws, n, k);
    GenSharksShape(draws[LastWithId(drawn, k, n)]);
  }

  /** The loop computes `Built`: one entry per distinct id drawn, at most
      one per iteration, exactly one when no id repeats. `BuiltEntry` and
      `BuiltEntryShape` describe the entries. */
  method GenTestObjects(numObjects: u32, drawn: seq<MantaObject>, draws: seq<(nat, nat)>)
    returns (objects: map<string, MantaObject>)
    requires |drawn| == numObjects && |draws| == numObjects
    ensures objects == Built(drawn, draws, numObjects)
    ensures objects.Keys == IdsOf(drawn, |drawn|)
    ensures |objects| <= numObjects
    ensures DistinctIds(drawn, |drawn|) ==> |objects| == numObjects
  {
    objects := map[];
    var i := 0;
    while i < numObjects
      invariant 0 <= i <= numObjects
      invariant objects == Built(drawn, draws, i)
    {
      var sharks := BuildSharks(draws[i]);
      var mobj := drawn[i].(sharks := sharks);
      objects := objects[mobj.objectId := mobj];
      i := i + 1;
    }
    BuiltKeys(drawn, draws, i);
    BuiltSize(drawn, draws, i);
  }
}
