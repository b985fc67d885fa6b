/**
 * The claims of an IdP token as a struct and as a map (idp_jwt_claim.go). The struct's
 * standard fields are reached by their JSON names, as the source does through its name table
 * and reflection; a field's kind fixes the shape of the value it can hold.
 */
module Claims {
  import opened Values

  datatype Kind = Text | Flag | Number | Raw | Audience | Custom

  /** The standard claims and the kind of the field that holds each. */
  type Fields = map<string, Kind>

  const CLAIM_FIELDS: Fields := map[
    "name" := Text, "given_name" := Text, "family_name" := Text, "preferred_username" := Text,
    "nickname" := Text, "gender" := Text, "zoneinfo" := Text, "locale" := Text, "client_id" := Text,
    "groups" := Raw, "roles" := Raw, "email" := Text, "email_verified" := Flag, "picture" := Text,
    "sub" := Text, "exp" := Number, "iat" := Number, "nbf" := Number, "jti" := Text,
    "at_hash" := Text, "also_known_as" := Text, "aud" := Audience
  ]

  /** What the code relies on in the table. */
  predicate ValidFields(fields: Fields) {
    && (forall k | k in fields :: fields[k] != Custom && (fields[k] == Audience <==> k == "aud"))
    && {"aud", "exp", "client_id", "also_known_as"} <= fields.Keys
    && fields["exp"] == Number && fields["client_id"] == Text && fields["also_known_as"] == Text
  }

  function KindOf(fields: Fields, k: string): Kind {
    if k in fields then fields[k] else Custom
  }

  /** `standard` has a value for every standard claim; a nil `groups` or `roles` is `Null`. */
  datatype View = View(fields: Fields, standard: Object, custom: Object)

  /** The value that `omitempty` leaves out. */
  function Zero(kind: Kind): Value {
    match kind
    case Text => Str("")
    case Flag => Bool(false)
    case Number => Num(0)
    case Audience => StrList([])
    case _ => Null
  }

  predicate Typed(kind: Kind, v: Value) {
    match kind
    case Text => v.Str?
    case Flag => v.Bool?
    case Number => v.Num?
    case Audience => v.StrList?
    case _ => true
  }

  predicate WellTyped(c: View) {
    && ValidFields(c.fields)
    && c.standard.Keys == c.fields.Keys
    && forall k | k in c.fields :: Typed(c.fields[k], c.standard[k])
  }

  // ---- Struct to map ------------------------------------------------------------------

  /** What a value becomes on its way through JSON: typed lists and maps become generic. */
  function Json(v: Value): Value
    decreases v
  {
    match v
    case List(items) => List(seq(|items|, i requires 0 <= i < |items| => Json(items[i])))
    case StrList(ss) => List(seq(|ss|, i requires 0 <= i < |ss| => Str(ss[i])))
    case Map(fields) => Map(map k | k in fields :: Json(fields[k]))
    case StrMap(entries) => Map(map k | k in entries :: Str(entries[k]))
    case _ => v
  }

  /** Non-empty standard fields through JSON; custom claims as they are, over them. */
  function StandardMap(c: View): Object
    requires WellTyped(c)
  {
    map k | k in c.fields && c.standard[k] != Zero(c.fields[k]) :: Json(c.standard[k])
  }

  function MapOf(c: View): Object
    requires WellTyped(c)
  {
    StandardMap(c) + c.custom
  }

  // ---- Map to struct ------------------------------------------------------------------

  /** `%v` formatting of a value that is not a string. */
  type Format = Value -> string

  function ToText(format: Format, v: Value): string {
    match v case Null => "" case Str(s) => s case _ => format(v)
  }

  function IntOf(v: Value): int {
    if v.Num? then v.n else 0
  }

  /** The value a field takes from claim value `v`; an odd audience leaves the field alone. */
  function Convert(format: Format, kind: Kind, field: Value, v: Value): Value {
    match kind
    case Text => Str(ToText(format, v))
    case Flag => Bool(v == Bool(true))
    case Number => Num(IntOf(v))
    case Audience => (
      match v
      case List(items) => StrList(seq(|items|, i requires 0 <= i < |items| => ToText(format, items[i])))
      case StrList(_) => v
      case Str(s) => StrList([s])
      case _ => field)
    case _ => v
  }

  /** The key under which a claim is kept; standard names are never mapped. */
  function Rename(fields: Fields, mapping: map<string, string>, k: string): string {
    if k in fields then k else if k in mapping then mapping[k] else k
  }

  /** Custom claims stored one by one in the given order: a later one under the same key wins. */
  function Store(fields: Fields, m: Object, mapping: map<string, string>, order: seq<string>): Object
    requires forall k | k in order :: k in m
  {
    if order == [] then map[]
    else
      var k := order[|order| - 1];
      var before := Store(fields, m, mapping, order[..|order| - 1]);
      if k in fields then before else before[Rename(fields, mapping, k) := m[k]]
  }

  predicate Enumerates(order: seq<string>, keys: set<string>) {
    && (forall k | k in order :: k in keys)
    && (forall k | k in keys :: k in order)
    && (forall i, j | 0 <= i < j < |order| :: order[i] != order[j])
  }

  function StandardFrom(format: Format, fields: Fields, standard: Object, m: Object): Object
    requires standard.Keys == fields.Keys
  {
    map k | k in fields :: if k in m then Convert(format, fields[k], standard[k], m[k]) else standard[k]
  }

  /** `after` is what `fromMap` can leave of `c`, whatever order the map is walked in. */
  ghost predicate Reads(format: Format, c: View, m: Object, mapping: map<string, string>, after: View)
    requires WellTyped(c)
  {
    && after.fields == c.fields
    && after.standard == StandardFrom(format, c.fields, c.standard, m)
    && exists order :: Enumerates(order, m.Keys) && after.custom == Store(c.fields, m, mapping, order)
  }

  /** `fromMap` stores a nil into `groups` or `roles` by reflection, which panics. */
  predicate NoNullLists(fields: Fields, m: Object) {
    forall k | k in m && KindOf(fields, k) == Raw :: m[k] != Null
  }

  // ---- What an IdP may demand ------------------------------------------------------------

  /** The part of `IdpJwtValidationSpec` that is about claims: an absent list is empty here. */
  datatype Spec = Spec(required: seq<string>, skipAudience: bool, audience: seq<string>)

  predicate SharesAudience(field: Value, audience: seq<string>) {
    field.StrList? && exists a | a in field.strings :: a in audience
  }

  /** Every required claim is in the map, and one audience is an allowed one unless none is asked for. */
  predicate Meets(spec: Spec, c: View)
    requires WellTyped(c)
  {
    && (forall n | n in spec.required :: n in MapOf(c))
    && (spec.skipAudience || spec.audience == [] || SharesAudience(c.standard["aud"], spec.audience))
  }

  // ---- The code ------------------------------------------------------------------------

  /** Assigns each entry of `extra` into `m`, in any order. */
  method Overlay(m: Object, extra: Object) returns (result: Object)
    ensures result == m + extra
  {
    result := m;
    var todo := extra.Keys;
    while todo != {}
      invariant todo <= extra.Keys && result.Keys == m.Keys + (extra.Keys - todo)
      invariant forall k | k in result :: result[k] == if k in extra && k !in todo then extra[k] else m[k]
      decreases todo
    {
      var k :| k in todo;
      result := result[k := extra[k]];
      todo := todo - {k};
    }
  }

  class IdpJwtClaims {
    const fields: Fields
    var standard: Object
    var customClaims: Object

    ghost predicate Valid()
      reads this
    {
      WellTyped(Struct())
    }

    function Struct(): View
      reads this
    {
      View(fields, standard, customClaims)
    }

    /** The struct as the token's JSON decodes into it, before any conversion. */
    constructor (decoded: View)
      requires WellTyped(decoded)
      ensures Valid() && Struct() == decoded
    {
      fields := decoded.fields;
      standard := decoded.standard;
      customClaims := decoded.custom;
    }

    method ToMap() returns (result: Object)
      requires Valid()
      ensures result == MapOf(Struct())
    {
      result := Overlay(StandardMap(Struct()), customClaims);
    }

    /** Stops with a panic at a null for `groups` or `roles`; each field has been set by then or not. */
    method SetStandard(format: Format, m: Object) returns (panicked: bool)
      requires Valid()
      modifies this`standard
      ensures panicked <==> !NoNullLists(fields, m)
      ensures !panicked ==> standard == StandardFrom(format, fields, old(standard), m)
      ensures standard.Keys == fields.Keys
      ensures forall k | k in fields ::
        standard[k] == old(standard)[k] || standard[k] == StandardFrom(format, fields, old(standard), m)[k]
    {
      if "aud" in m {
        var audience := ReadAudience(format, standard["aud"], m["aud"]);
        standard := standard["aud" := audience];
      }
      ghost var after := StandardFrom(format, fields, old(standard), m);
      var todo := fields.Keys - {"aud"};
      while todo != {}
        invariant todo <= fields.Keys - {"aud"} && standard.Keys == fields.Keys
        invariant forall k | k in todo :: standard[k] == old(standard)[k]
        invariant forall k | k in fields && k !in todo :: standard[k] == after[k]
        invariant forall k | k in m && KindOf(fields, k) == Raw && k !in todo :: m[k] != Null
        decreases todo
      {
        var k :| k in todo;
        if k in m {
          if fields[k] == Raw && m[k] == Null {
            return true;
          }
          var value := SetField(format, fields[k], m[k]);
          standard := standard[k := value];
        }
        todo := todo - {k};
      }
      panicked := false;
    }

    /** A list, generic or of strings, or a single string; anything else is ignored. */
    method ReadAudience(format: Format, field: Value, v: Value) returns (value: Value)
      ensures value == Convert(format, Audience, field, v)
    {
      value := field;
      match v
      case List(items) =>
        var texts: seq<string> := [];
        for i := 0 to |items|
          invariant |texts| == i && forall j | 0 <= j < i :: texts[j] == ToText(format, items[j])
        {
          texts := texts + [ToText(format, items[i])];
        }
        value := StrList(texts);
      case StrList(strings) => value := v;
      case Str(s) => value := StrList([s]);
      case _ =>
    }

    method SetField(format: Format, kind: Kind, v: Value) returns (value: Value)
      requires kind != Audience && kind != Custom
      ensures forall field :: value == Convert(format, kind, field, v)
    {
      match kind
      case Flag => value := Bool(v == Bool(true));
      case Number => value := Num(IntOf(v));
      case Text => value := Str(ToText(format, v));
      case _ => value := v;
    }

    method SetCustom(m: Object, mapping: map<string, string>)
      modifies this`customClaims
      ensures exists order :: Enumerates(order, m.Keys) && customClaims == Store(fields, m, mapping, order)
    {
      customClaims := map[];
      ghost var order: seq<string> := [];
      var todo := m.Keys;
      while todo != {}
        invariant todo <= m.Keys
        invariant Enumerates(order, m.Keys - todo)
        invariant customClaims == Store(fields, m, mapping, order)
        decreases todo
      {
        var k :| k in todo;
        assert (order + [k])[..|order|] == order;
        if k !in fields {
          if k in mapping {
            customClaims := customClaims[mapping[k] := m[k]];
          } else {
            customClaims := customClaims[k := m[k]];
          }
        }
        order := order + [k];
        todo := todo - {k};
      }
      assert m.Keys - {} == m.Keys;
    }

    /** `fromMap`: fields absent from the map keep their value, custom claims start afresh. */
    method FromMap(format: Format, m: Object, mapping: map<string, string>) returns (panicked: bool)
      requires Valid()
      modifies this
      ensures Valid()
      ensures panicked <==> !NoNullLists(fields, m)
      ensures !panicked ==> Reads(format, old(Struct()), m, mapping, Struct())
      ensures panicked ==> customClaims == map[]
    {
      ConvertIsTyped(format, Struct(), m);
      customClaims := map[];
      panicked := SetStandard(format, m);
      if !panicked {
        SetCustom(m, mapping);
      }
    }

    /** The first of the expected claims that the map does not have. */
    method Exists(expected: seq<string>) returns (missing: Option<string>)
      requires Valid()
      ensures missing.None? ==> forall n | n in expected :: n in MapOf(Struct())
      ensures missing.Some? ==> exists i | 0 <= i < |expected| ::
        && missing.value == expected[i] && expected[i] !in MapOf(Struct())
        && forall j | 0 <= j < i :: expected[j] in MapOf(Struct())
    {
      var claimsMap := ToMap();
      for i := 0 to |expected|
        invariant forall j | 0 <= j < i :: expected[j] in claimsMap
      {
        if expected[i] !in claimsMap {
          return Some(expected[i]);
        }
      }
      return None;
    }

    method ValidateAudience(expected: seq<string>) returns (ok: bool)
      requires Valid()
      ensures ok <==> SharesAudience(standard["aud"], expected)
    {
      var audience := standard["aud"].strings;
      for i := 0 to |audience|
        invariant forall k | 0 <= k < i :: audience[k] !in expected
      {
        for j := 0 to |expected|
          invariant forall l | 0 <= l < j :: audience[i] != expected[l]
        {
          if audience[i] == expected[j] {
            assert audience[i] in audience && expected[j] in expected;
            return true;
          }
        }
      }
      return false;
    }

    /** The first two checks of `validateAgainstSpec`. */
    method ValidateSpec(spec: Spec) returns (ok: bool)
      requires Valid()
      ensures ok <==> Meets(spec, Struct())
    {
      var missing := Exists(spec.required);
      if missing.Some? {
        return false;
      }
      if !spec.skipAudience && |spec.audience| > 0 {
        ok := ValidateAudience(spec.audience);
        return;
      }
      return true;
    }

    /** Claims from the UserInfo endpoint laid over the token's (`verifyAndEnrich`). */
    method AddUserInfo(format: Format, userInfo: Object, mapping: map<string, string>) returns (panicked: bool)
      requires Valid()
      modifies this
      ensures Valid()
      ensures panicked <==> !NoNullLists(fields, MapOf(old(Struct())) + userInfo)
      ensures !panicked ==> Reads(format, old(Struct()), MapOf(old(Struct())) + userInfo, mapping, Struct())
    {
      var claims := ToMap();
      claims := Overlay(claims, userInfo);
      panicked := FromMap(format, claims, mapping);
    }

    /** The client's sentinel identity from the NATS request (`handleAuthRequest`). */
    method AddClient(format: Format, user: string, tag: string, mapping: map<string, string>)
      returns (panicked: bool)
      requires Valid()
      modifies this
      ensures Valid()
      ensures panicked <==> !NoNullLists(fields, MapOf(old(Struct())))
      ensures !panicked ==>
        Reads(format, old(Struct()), WithClient(MapOf(old(Struct())), user, tag), mapping, Struct())
    {
      ClientIsNoList(Struct(), user, tag);
      var reqJwtClaims := ToMap();
      reqJwtClaims := reqJwtClaims["client_id" := Str(user)];
      reqJwtClaims := reqJwtClaims["also_known_as" := Str(tag)];
      panicked := FromMap(format, reqJwtClaims, mapping);
    }
  }

  function WithClient(m: Object, user: string, tag: string): Object {
    m["client_id" := Str(user)]["also_known_as" := Str(tag)]
  }

  // ---- Steps of the proof ---------------------------------------------------------------

  lemma FieldTableIsValid()
    ensures ValidFields(CLAIM_FIELDS)
  {
  }

  lemma ClientIsNoList(c: View, user: string, tag: string)
    requires WellTyped(c)
    ensures NoNullLists(c.fields, WithClient(MapOf(c), user, tag)) <==> NoNullLists(c.fields, MapOf(c))
  {
    var m, n := MapOf(c), WithClient(MapOf(c), user, tag);
    assert forall k | k in c.fields && c.fields[k] == Raw :: k in n <==> k in m;
    assert forall k | k in c.fields && c.fields[k] == Raw && k in m :: n[k] == m[k];
  }

  lemma ConvertIsTyped(format: Format, c: View, m: Object)
    requires WellTyped(c)
    ensures WellTyped(c.(standard := StandardFrom(format, c.fields, c.standard, m)))
  {
  }
}
