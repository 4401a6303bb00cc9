/** The slice of libmanta's `MantaObject` the harness touches: its
    `object_id` and its list of sharks. Every other field is carried
    unchanged in `rest`. */
module Manta {

  import Decimal

  /** `MantaObjectShark`: one copy of an object's data, as a
      (datacenter, storage node) pair. */
  datatype Shark = Shark(datacenter: string, storageId: string)

  /** The fields of a Manta object other than its id and its sharks. */
  datatype OtherFields = OtherFields(fields: seq<(string, string)>)

  datatype MantaObject = MantaObject(objectId: string, sharks: seq<Shark>, rest: OtherFields)

  /** `serde_json::Value` as the harness produces it: the serialized form of
      one Manta object. Serialization is deterministic and loses nothing. */
  datatype Value = Json(encoded: MantaObject)

  function ToValue(o: MantaObject): (v: Value)
    ensures FromValue(v) == o
  {
    Json(o)
  }

  function FromValue(v: Value): MantaObject {
    v.encoded
  }

  /** `format!("{}.stor.domain", n)`: the storage id of shark number `n`. */
  function StorageId(n: nat): string {
    Decimal.Format(n) + ".stor.domain"
  }

  lemma StorageIdInjective(a: nat, b: nat)
    requires StorageId(a) == StorageId(b)
    ensures a == b
  {
    var fa, fb := Decimal.Format(a), Decimal.Format(b);
    assert |fa| == |fb|;
    assert fa == StorageId(a)[..|fa|];
    assert fb == StorageId(b)[..|fb|];
    Decimal.FormatInjective(a, b);
  }
}
