/** `alter_objects` and the `random_string` it uses: every object of the
    corpus loses its last shark and gains one new shark, the same for all
    objects of one call, and is serialized. The input map is a value and is
    left as it was; the result is a new map. */
module Mutation {

  import opened Decimal
  import opened Manta
  import Corpus

  predicate IsAlphanumeric(c: char) {
    'A' <= c <= 'Z' || 'a' <= c <= 'z' || '0' <= c <= '9'
  }

  predicate AllAlphanumeric(s: string) {
    forall i :: 0 <= i < |s| ==> IsAlphanumeric(s[i])
  }

  /** The `Alphanumeric` distribution's 62 characters, `A`-`Z`, `a`-`z`,
      `0`-`9`, by index. */
  function AlphanumericChar(n: nat): (c: char)
    requires n < 62
    ensures IsAlphanumeric(c)
  {
    if n < 26 then ('A' as int + n) as char
    else if n < 52 then ('a' as int + n - 26) as char
    else ('0' as int + n - 52) as char
  }

  function AlphanumericIndex(c: char): (n: nat)
    requires IsAlphanumeric(c)
    ensures n < 62 && AlphanumericChar(n) == c
  {
    if 'A' <= c <= 'Z' then c as int - 'A' as int
    else if 'a' <= c <= 'z' then c as int - 'a' as int + 26
    else c as int - '0' as int + 52
  }

  /** `random_string(len)`: `len` characters sampled from `Alphanumeric`,
      the `i`-th chosen by the raw draw `draws[i]`. */
  function RandomString(len: nat, draws: seq<nat>): (s: string)
    requires |draws| >= len
    ensures |s| == len
    ensures forall i :: 0 <= i < |s| ==> IsAlphanumeric(s[i])
  {
    seq(len, i requires 0 <= i < len => AlphanumericChar(draws[i] % 62))
  }

  /** Every alphanumeric string can come out of `random_string`. */
  lemma EveryAlphanumericStringIsPossible(s: string)
    requires forall i :: 0 <= i < |s| ==> IsAlphanumeric(s[i])
    ensures exists draws: seq<nat> :: |draws| == |s| && RandomString(|s|, draws) == s
  {
    var draws := seq(|s|, i requires 0 <= i < |s| => AlphanumericIndex(s[i]));
    assert RandomString(|s|, draws) == s;
  }

  /** The shark every object gains in one call: datacenter `rand_string`,
      storage id `"{rand_id}.stor.domain"`. */
  function NewShark(randString: string, randId: u16): Shark {
    Shark(randString, StorageId(randId))
  }

  /** `Vec::pop` with its result discarded: the last element goes, and an
      empty list stays empty. */
  function Pop<T>(xs: seq<T>): (ys: seq<T>)
    ensures |xs| > 0 ==> |ys| == |xs| - 1 && xs == ys + [xs[|xs| - 1]]
    ensures |xs| == 0 ==> ys == []
  {
    if |xs| == 0 then [] else xs[..|xs| - 1]
  }

  function AlterObject(o: MantaObject, shark: Shark): MantaObject {
    o.(sharks := Pop(o.sharks) + [shark])
  }

  /** What `alter_objects` does to one object: same id and other fields;
      all sharks but the last kept in order; the last one replaced by
      `shark`, or `shark` added to an empty list. */
  ghost predicate AlteredFrom(before: MantaObject, after: MantaObject, shark: Shark) {
    && after.objectId == before.objectId
    && after.rest == before.rest
    && |after.sharks| == (if |before.sharks| == 0 then 1 else |before.sharks|)
    && after.sharks[|after.sharks| - 1] == shark
    && (forall i :: 0 <= i < |after.sharks| - 1 ==> after.sharks[i] == before.sharks[i])
  }

  function AlterObjects(objects: map<string, MantaObject>, randString: string, randId: u16)
    : (altered: map<string, Value>)
    ensures altered.Keys == objects.Keys
    ensures forall k :: k in altered ==> AlteredFrom(objects[k], FromValue(altered[k]), NewShark(randString, randId))
  {
    map k | k in objects :: ToValue(AlterObject(objects[k], NewShark(randString, randId)))
  }

  /** One call moves every object onto the same new shark. */
  lemma AllObjectsShareTheNewShark(objects: map<string, MantaObject>, randString: string, randId: u16, k1: string, k2: string)
    requires k1 in objects && k2 in objects
    ensures var altered := AlterObjects(objects, randString, randId);
            var s1, s2 := FromValue(altered[k1]).sharks, FromValue(altered[k2]).sharks;
            s1[|s1| - 1] == s2[|s2| - 1]
  {
  }

  /** With `rand_string` drawn by `random_string(10)`, every altered object
      ends on a shark whose datacenter is a 10-character alphanumeric
      string and whose storage id is `"{rand_id}.stor.domain"`. */
  lemma AlteredOntoRandomShark(objects: map<string, MantaObject>, draws: seq<nat>, randId: u16, k: string)
    requires |draws| >= 10 && k in objects
    ensures var sharks := FromValue(AlterObjects(objects, RandomString(10, draws), randId)[k]).sharks;
            && |sharks| >= 1
            && |sharks[|sharks| - 1].datacenter| == 10
            && AllAlphanumeric(sharks[|sharks| - 1].datacenter)
            && sharks[|sharks| - 1].storageId == StorageId(randId)
  {
  }

  /** Putting the dropped shark back in place of the new one restores the
      object: the alteration loses exactly one shark. */
  lemma {:induction false} AlterUndone(o: MantaObject, shark: Shark)
    requires |o.sharks| > 0
    ensures AlterObject(AlterObject(o, shark), o.sharks[|o.sharks| - 1]) == o
  {
    var p := Pop(o.sharks) + [shark];
    assert Pop(p) == Pop(o.sharks);
  }

  /** A freshly generated object keeps its first shark and has its second
      replaced: still two sharks, the first in "foo" on node 1 or 2. */
  lemma AlterGenerated(o: MantaObject, randString: string, randId: u16)
    requires Corpus.GeneratedShape(o.sharks)
    ensures var after := AlterObject(o, NewShark(randString, randId));
            && after.sharks == [o.sharks[0], NewShark(randString, randId)]
            && after.sharks[0].datacenter == "foo"
            && after.sharks[0].storageId in {"1.stor.domain", "2.stor.domain"}
  {
    assert Pop(o.sharks) == [o.sharks[0]];
  }
}
