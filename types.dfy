/** The response schema of server/src/types.rs and what serde's derived
    decoders accept for it. `Included` is `#[serde(untagged)]`: an entry is
    first tried as a `Membership`, and only when that fails as the field-less
    `Ignored`. Each decoder has an encoder as its partner, producing the
    object form of the value. */
module Types {
  import opened Json

  datatype Data = Data(id: string)
  datatype Campaign = Campaign(data: Data)
  datatype Relationships = Relationships(campaign: Campaign)
  datatype Attributes = Attributes(title: string)
  datatype Membership = Membership(relationships: Relationships, attributes: Attributes)
  datatype Ignored = Ignored
  datatype Included = IncludedMembership(membership: Membership) | IncludedIgnored(ignored: Ignored)
  datatype Identity = Identity(included: seq<Included>)
  datatype AccessToken = AccessToken(accessToken: string)

  // ---------------------------------------------------------------------
  // Decoders.

  /** `String`: only a JSON string. */
  function DecodeString(v: Value): (r: Option<string>)
    ensures r.Some? <==> v.String?
    ensures r.Some? ==> v == String(r.value)
  {
    if v.String? then Some(v.s) else None
  }

  function DecodeData(v: Value): Option<Data>
  {
    match StructFields(v, ["id"])
    case Some(fs) =>
      (match DecodeString(fs[0])
       case Some(id) => Some(Data(id))
       case None => None)
    case None => None
  }

  function DecodeCampaign(v: Value): Option<Campaign>
  {
    match StructFields(v, ["data"])
    case Some(fs) =>
      (match DecodeData(fs[0])
       case Some(data) => Some(Campaign(data))
       case None => None)
    case None => None
  }

  function DecodeRelationships(v: Value): Option<Relationships>
  {
    match StructFields(v, ["campaign"])
    case Some(fs) =>
      (match DecodeCampaign(fs[0])
       case Some(campaign) => Some(Relationships(campaign))
       case None => None)
    case None => None
  }

  function DecodeAttributes(v: Value): Option<Attributes>
  {
    match StructFields(v, ["title"])
    case Some(fs) =>
      (match DecodeString(fs[0])
       case Some(title) => Some(Attributes(title))
       case None => None)
    case None => None
  }

  const MembershipFields: seq<string> := ["relationships", "attributes"]

  function DecodeMembership(v: Value): (r: Option<Membership>)
    ensures r.Some? ==> v.Object? || (v.Array? && |v.items| == 2)
  {
    match StructFields(v, MembershipFields)
    case Some(fs) =>
      (match (DecodeRelationships(fs[0]), DecodeAttributes(fs[1]))
       case (Some(r), Some(a)) => Some(Membership(r, a))
       case _ => None)
    case None => None
  }

  /** `struct Ignored {}`: a struct without fields. */
  function DecodeIgnored(v: Value): Option<Ignored>
  {
    if StructFields(v, []).Some? then Some(Ignored) else None
  }

  /** The untagged enum: its variants are tried in declaration order. */
  function DecodeIncluded(v: Value): (r: Option<Included>)
    ensures DecodeMembership(v).Some? ==> r == Some(IncludedMembership(DecodeMembership(v).value))
    ensures r.Some? && r.value.IncludedIgnored? ==> DecodeMembership(v).None?
  {
    match DecodeMembership(v)
    case Some(m) => Some(IncludedMembership(m))
    case None =>
      (match DecodeIgnored(v)
       case Some(i) => Some(IncludedIgnored(i))
       case None => None)
  }

  /** `Vec<Included>`. */
  function DecodeIncludedList(items: seq<Value>): Option<seq<Included>>
  {
    DecodeList(items, DecodeIncluded)
  }

  function DecodeIdentity(v: Value): (r: Option<Identity>)
    ensures r.Some? ==> StructFields(v, ["included"]).Some? && StructFields(v, ["included"]).value[0].Array?
    ensures r.Some? ==> |r.value.included| == |StructFields(v, ["included"]).value[0].items|
  {
    match StructFields(v, ["included"])
    case Some(fs) =>
      if fs[0].Array? then
        (match DecodeIncludedList(fs[0].items)
         case Some(xs) => Some(Identity(xs))
         case None => None)
      else None
    case None => None
  }

  function DecodeAccessToken(v: Value): (r: Option<AccessToken>)
    ensures r.Some? ==> StructFields(v, ["access_token"]) == Some([String(r.value.accessToken)])
  {
    match StructFields(v, ["access_token"])
    case Some(fs) =>
      assert fs == [fs[0]];
      (match DecodeString(fs[0])
       case Some(t) => Some(AccessToken(t))
       case None => None)
    case None => None
  }

  // ---------------------------------------------------------------------
  // Encoders: the object form of each value.

  function EncodeMembership(m: Membership): Value
  {
    Object([
      ("relationships", Object([("campaign", Object([("data", Object([("id", String(m.relationships.campaign.data.id))]))]))])),
      ("attributes", Object([("title", String(m.attributes.title))]))
    ])
  }

  function EncodeIncluded(x: Included): Value
  {
    match x
    case IncludedMembership(m) => EncodeMembership(m)
    case IncludedIgnored(_) => Object([])
  }

  function EncodeIncludedList(xs: seq<Included>): (r: seq<Value>)
    ensures |r| == |xs|
  {
    seq(|xs|, i requires 0 <= i < |xs| => EncodeIncluded(xs[i]))
  }

  function EncodeIdentity(x: Identity): Value
  {
    Object([("included", Array(EncodeIncludedList(x.included)))])
  }

  function EncodeAccessToken(t: AccessToken): Value
  {
    Object([("access_token", String(t.accessToken))])
  }

  // ---------------------------------------------------------------------
  // Properties.

  /** Decoding the encoding of a membership gives it back. */
  lemma MembershipRoundTrip(m: Membership)
    ensures DecodeMembership(EncodeMembership(m)) == Some(m)
  {
    var id := m.relationships.campaign.data.id;
    var d := Object([("id", String(id))]);
    var c := Object([("data", d)]);
    var r := Object([("campaign", c)]);
    var a := Object([("title", String(m.attributes.title))]);
    OneField("id", String(id));
    OneField("data", d);
    OneField("campaign", c);
    OneField("title", String(m.attributes.title));
    TwoFields("relationships", r, "attributes", a);
  }

  /** An entry of either variant survives encoding and decoding. */
  lemma IncludedRoundTrip(x: Included)
    ensures DecodeIncluded(EncodeIncluded(x)) == Some(x)
  {
    match x
    case IncludedMembership(m) =>
      MembershipRoundTrip(m);
    case IncludedIgnored(i) =>
      assert i == Ignored;
      assert DecodeMembership(Object([])) == None;
  }

  /** Decoding the encoding of an identity gives it back, entries in order. */
  lemma IdentityRoundTrip(x: Identity)
    ensures DecodeIdentity(EncodeIdentity(x)) == Some(x)
  {
    var items := EncodeIncludedList(x.included);
    forall k | 0 <= k < |items| ensures DecodeIncluded(items[k]) == Some(x.included[k]) {
      IncludedRoundTrip(x.included[k]);
    }
    DecodeListSpec(items, DecodeIncluded);
    var xs := DecodeIncludedList(items).value;
    assert xs == x.included;
    OneField("included", Array(items));
  }

  lemma AccessTokenRoundTrip(t: AccessToken)
    ensures DecodeAccessToken(EncodeAccessToken(t)) == Some(t)
  {
    OneField("access_token", String(t.accessToken));
  }

  /** The untagged enum prefers `Membership`: whatever decodes as a membership
      never decodes as `Ignored`. An entry is `Ignored` exactly when it is not a
      membership and is an object or the empty array; it fails exactly when it
      is neither. */
  lemma IncludedVariants(v: Value)
    ensures forall m :: DecodeMembership(v) == Some(m) ==> DecodeIncluded(v) == Some(IncludedMembership(m))
    ensures DecodeIncluded(v) == Some(IncludedIgnored(Ignored)) <==>
      DecodeMembership(v).None? && (v.Object? || v == Array([]))
    ensures DecodeIncluded(v).None? <==>
      DecodeMembership(v).None? && !v.Object? && v != Array([])
  {
    NoFields(v);
  }

  /** An object entry that is not a membership (say, a tier or a campaign of the
      same response) does not make the identity fail: every object decodes. */
  lemma {:induction false} ObjectEntriesDecode(items: seq<Value>)
    requires forall k :: 0 <= k < |items| ==> items[k].Object?
    ensures DecodeIncludedList(items).Some?
    ensures DecodeIdentity(Object([("included", Array(items))])).Some?
    ensures |DecodeIdentity(Object([("included", Array(items))])).value.included| == |items|
  {
    forall k | 0 <= k < |items| ensures DecodeIncluded(items[k]).Some? {
      IncludedVariants(items[k]);
    }
    DecodeListSpec(items, DecodeIncluded);
    OneField("included", Array(items));
  }

  /** `Identity` requires the `included` field to hold an array. */
  lemma IdentityNeedsIncludedArray(members: seq<(string, Value)>)
    requires DecodeIdentity(Object(members)).Some?
    ensures Find(members, "included").Found? && Find(members, "included").value.Array?
    ensures |DecodeIdentity(Object(members)).value.included| == |Find(members, "included").value.items|
  {
    ObjectFieldsSpec(members, ["included"]);
  }

  /** `AccessToken` decodes from an object exactly when it has one
      `access_token` member and that member is a string, which the token is. */
  lemma AccessTokenFromObject(members: seq<(string, Value)>)
    ensures DecodeAccessToken(Object(members)).Some? <==>
      Find(members, "access_token").Found? && Find(members, "access_token").value.String?
    ensures DecodeAccessToken(Object(members)).Some? ==>
      Find(members, "access_token") == Found(String(DecodeAccessToken(Object(members)).value.accessToken))
  {
    ObjectFieldsSpec(members, ["access_token"]);
  }

  /** A membership is decoded exactly when the nested fields
      `relationships.campaign.data.id` and `attributes.title` are there and are
      strings, which the membership then carries. */
  lemma MembershipShape(v: Value, m: Membership)
    ensures DecodeMembership(v) == Some(m) <==>
      exists r, a, c, d :: StructFields(v, MembershipFields) == Some([r, a])
        && StructFields(r, ["campaign"]) == Some([c])
        && StructFields(c, ["data"]) == Some([d])
        && StructFields(d, ["id"]) == Some([String(m.relationships.campaign.data.id)])
        && StructFields(a, ["title"]) == Some([String(m.attributes.title)])
  {
    if DecodeMembership(v) == Some(m) {
      var fs := StructFields(v, MembershipFields).value;
      var r, a := fs[0], fs[1];
      assert fs == [r, a];
      var cs := StructFields(r, ["campaign"]).value;
      assert cs == [cs[0]];
      var c := cs[0];
      var ds := StructFields(c, ["data"]).value;
      assert ds == [ds[0]];
      var d := ds[0];
      var ids := StructFields(d, ["id"]).value;
      assert ids == [ids[0]];
      var titles := StructFields(a, ["title"]).value;
      assert titles == [titles[0]];
    }
  }
}
