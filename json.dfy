/** The JSON values serde_json hands to a `#[derive(Deserialize)]` type, and the
    rule by which a derived struct decoder accepts one: either an object in
    which every declared field occurs exactly once (members with other keys are
    skipped, a repeated declared field is an error), or an array holding
    exactly one element per declared field, in declaration order. Every other
    value is refused. */
module Json {

  datatype Option<T> = None | Some(value: T)

  /** A parsed JSON document; object members are kept in document order,
      repeated keys included. */
  datatype Value =
    | Null
    | Bool(b: bool)
    | Number(literal: string)
    | String(s: string)
    | Array(items: seq<Value>)
    | Object(members: seq<(string, Value)>)

  /** What a derived struct decoder finds for one declared field among the
      members of an object. */
  datatype Lookup = Missing | Duplicate | Found(value: Value)

  /** The keys of `members`, in order. */
  function Keys(members: seq<(string, Value)>): (r: seq<string>)
    ensures |r| == |members|
  {
    seq(|members|, i requires 0 <= i < |members| => members[i].0)
  }

  /** Scanning the members for `key`. */
  function Find(members: seq<(string, Value)>, key: string): Lookup
  {
    if members == [] then Missing
    else
      var rest := Find(members[1..], key);
      if members[0].0 != key then rest
      else if rest.Missing? then Found(members[0].1)
      else Duplicate
  }

  /** `Find` tells apart no occurrence, exactly one, and more than one, and a
      found value is the value of every member carrying the key. */
  lemma {:induction false} FindCounts(members: seq<(string, Value)>, key: string)
    ensures var n := multiset(Keys(members))[key];
      && (Find(members, key).Missing? <==> n == 0)
      && (Find(members, key).Found? <==> n == 1)
      && (Find(members, key).Duplicate? <==> n >= 2)
    ensures Find(members, key).Found? ==>
      forall i :: 0 <= i < |members| && members[i].0 == key ==> members[i].1 == Find(members, key).value
  {
    if members != [] {
      var tail := members[1..];
      assert Keys(members) == [members[0].0] + Keys(tail);
      FindCounts(tail, key);
      if Find(members, key).Found? && members[0].0 == key {
        forall i | 1 <= i < |members| ensures members[i].0 != key {
          assert Keys(tail)[i - 1] == members[i].0;
        }
      }
      if Find(members, key).Found? {
        forall i | 1 <= i < |members| && members[i].0 == key
          ensures members[i].1 == Find(members, key).value
        {
          assert tail[i - 1] == members[i];
        }
      }
    }
  }

  /** The declared fields `names` looked up in an object, in declaration order. */
  function ObjectFields(members: seq<(string, Value)>, names: seq<string>): (r: Option<seq<Value>>)
    ensures r.Some? ==> |r.value| == |names|
  {
    if names == [] then Some([])
    else
      match Find(members, names[0])
      case Found(v) =>
        (match ObjectFields(members, names[1..])
         case Some(vs) => Some([v] + vs)
         case None => None)
      case _ => None
  }

  /** An object supplies the declared fields exactly when each is found once,
      and then the values come in declaration order. */
  lemma {:induction false} ObjectFieldsSpec(members: seq<(string, Value)>, names: seq<string>)
    ensures ObjectFields(members, names).Some? <==>
      forall i :: 0 <= i < |names| ==> Find(members, names[i]).Found?
    ensures ObjectFields(members, names).Some? ==>
      forall i :: 0 <= i < |names| ==> ObjectFields(members, names).value[i] == Find(members, names[i]).value
  {
    if names != [] {
      ObjectFieldsSpec(members, names[1..]);
      assert forall i :: 1 <= i < |names| ==> names[1..][i - 1] == names[i];
    }
  }

  /** The field values a derived struct decoder with fields `names` reads from `v`. */
  function StructFields(v: Value, names: seq<string>): (r: Option<seq<Value>>)
    ensures r.Some? ==> |r.value| == |names|
  {
    match v
    case Object(members) => ObjectFields(members, names)
    case Array(items) => if |items| == |names| then Some(items) else None
    case _ => None
  }

  /** A struct without fields accepts every object and the empty array only. */
  lemma NoFields(v: Value)
    ensures StructFields(v, []).Some? <==> v.Object? || v == Array([])
  {
  }

  /** An object with the one declared field as its only member supplies it. */
  lemma OneField(key: string, v: Value)
    ensures StructFields(Object([(key, v)]), [key]) == Some([v])
  {
    var m := [(key, v)];
    assert m[1..] == [];
    assert Find(m, key) == Found(v);
    assert [key][1..] == [];
    assert ObjectFields(m, [key][1..]) == Some([]);
    assert [v] + [] == [v];
  }

  /** An object whose two members are the two declared fields, in either order,
      supplies them in declaration order. */
  lemma TwoFields(k1: string, v1: Value, k2: string, v2: Value)
    requires k1 != k2
    ensures StructFields(Object([(k1, v1), (k2, v2)]), [k1, k2]) == Some([v1, v2])
    ensures StructFields(Object([(k2, v2), (k1, v1)]), [k1, k2]) == Some([v1, v2])
  {
    var names := [k1, k2];
    assert names[1..] == [k2] && names[1..][1..] == [];
    assert [k2][1..] == [] && [v2] + [] == [v2] && [v1] + [v2] == [v1, v2];
    var m := [(k1, v1), (k2, v2)];
    assert m[1..] == [(k2, v2)] && m[1..][1..] == [];
    assert Find([(k2, v2)], k1) == Missing && Find([(k2, v2)], k2) == Found(v2);
    assert Find(m, k2) == Found(v2) && Find(m, k1) == Found(v1);
    assert ObjectFields(m, [k2]) == Some([v2]);
    var m' := [(k2, v2), (k1, v1)];
    assert m'[1..] == [(k1, v1)] && m'[1..][1..] == [];
    assert Find([(k1, v1)], k2) == Missing && Find([(k1, v1)], k1) == Found(v1);
    assert Find(m', k2) == Found(v2) && Find(m', k1) == Found(v1);
    assert ObjectFields(m', [k2]) == Some([v2]);
  }

  /** `Vec<T>` from the items of a JSON array: every item must decode, and the
      results keep the order of the items. */
  function DecodeList<T>(items: seq<Value>, decode: Value -> Option<T>): (r: Option<seq<T>>)
    ensures r.Some? ==> |r.value| == |items|
  {
    if items == [] then Some([])
    else
      match (decode(items[0]), DecodeList(items[1..], decode))
      case (Some(x), Some(xs)) => Some([x] + xs)
      case _ => None
  }

  /** A list decodes exactly when every item does, and then the k-th result
      is the decoding of the k-th item. */
  lemma {:induction false} DecodeListSpec<T>(items: seq<Value>, decode: Value -> Option<T>)
    ensures DecodeList(items, decode).Some? <==>
      forall k :: 0 <= k < |items| ==> decode(items[k]).Some?
    ensures DecodeList(items, decode).Some? ==>
      forall k :: 0 <= k < |items| ==> Some(DecodeList(items, decode).value[k]) == decode(items[k])
  {
    if items != [] {
      DecodeListSpec(items[1..], decode);
      assert forall k :: 1 <= k < |items| ==> items[1..][k - 1] == items[k];
    }
  }
}
