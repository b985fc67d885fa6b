/**
 * The claims of one request from the signed token to the context of the role-binding lookup
 * (idp_jwt_verifier.go, auth_callback.go): three conversions, each of which may panic.
 */
module ClaimsPipeline {
  import opened Values
  import opened Claims
  import opened ClaimsLaws

  // ---- The three conversions --------------------------------------------------------------

  /** One `fromMap` that got through, whatever order the map was walked in. */
  ghost predicate Converts(format: Format, c: View, m: Object, mapping: map<string, string>, after: View) {
    && WellTyped(c) && WellTyped(after)
    && NoNullLists(c.fields, m)
    && Reads(format, c, m, mapping, after)
  }

  /** The UserInfo step, which leaves the claims alone when there is nothing to add. */
  ghost predicate Enriches(
    format: Format, c: View, userInfo: Option<Object>, mapping: map<string, string>, after: View)
  {
    WellTyped(c) &&
    match userInfo
    case None => after == c
    case Some(info) => Converts(format, c, MapOf(c) + info, mapping, after)
  }

  ghost predicate Identifies(
    format: Format, c: View, user: string, tag: string, mapping: map<string, string>, after: View)
  {
    WellTyped(c) && Converts(format, c, WithClient(MapOf(c), user, tag), mapping, after)
  }

  /** `last` is what token, UserInfo and client identity, in this order, can make of the struct. */
  ghost predicate Pipeline(
    format: Format, decoded: View, raw: Object, userInfo: Option<Object>, user: string, tag: string,
    mapping: map<string, string>, last: View)
  {
    exists verified: View, enriched: View ::
      && Converts(format, decoded, raw, mapping, verified)
      && Enriches(format, verified, userInfo, mapping, enriched)
      && Identifies(format, enriched, user, tag, mapping, last)
  }

  /** A stage after the first panics: its map would have a null for `groups` or `roles`. */
  ghost predicate LaterPanic(format: Format, verified: View, userInfo: Option<Object>, mapping: map<string, string>) {
    && WellTyped(verified)
    && (|| (userInfo.Some? && !NoNullLists(verified.fields, MapOf(verified) + userInfo.value))
        || (exists enriched: View ::
              && Enriches(format, verified, userInfo, mapping, enriched)
              && WellTyped(enriched) && !NoNullLists(enriched.fields, MapOf(enriched))))
  }

  ghost predicate PipelinePanics(
    format: Format, decoded: View, raw: Object, userInfo: Option<Object>, mapping: map<string, string>)
  {
    || !NoNullLists(decoded.fields, raw)
    || exists verified: View ::
         Converts(format, decoded, raw, mapping, verified) && LaterPanic(format, verified, userInfo, mapping)
  }

  // ---- The code ---------------------------------------------------------------------------

  /** What the lookup is given: the claims as a map, and the expiry field. */
  datatype Looked = Looked(context: Object, expiry: Value)

  ghost predicate Shows(last: View, l: Looked) {
    WellTyped(last) && l == Looked(MapOf(last), last.standard["exp"])
  }

  /** The first conversion (`verifyJWT`). */
  method ReadToken(format: Format, claims: IdpJwtClaims, raw: Object, mapping: map<string, string>)
    returns (panicked: bool)
    requires claims.Valid()
    modifies claims
    ensures claims.Valid()
    ensures panicked ==> !NoNullLists(claims.fields, raw)
    ensures !panicked ==> Converts(format, old(claims.Struct()), raw, mapping, claims.Struct())
  {
    panicked := claims.FromMap(format, raw, mapping);
  }

  /** The UserInfo step (`verifyAndEnrich`). */
  method Enrich(format: Format, claims: IdpJwtClaims, userInfo: Option<Object>, mapping: map<string, string>)
    returns (panicked: bool)
    requires claims.Valid()
    modifies claims
    ensures claims.Valid()
    ensures panicked ==> LaterPanic(format, old(claims.Struct()), userInfo, mapping)
    ensures !panicked ==> Enriches(format, old(claims.Struct()), userInfo, mapping, claims.Struct())
  {
    panicked := false;
    if userInfo.Some? {
      panicked := claims.AddUserInfo(format, userInfo.value, mapping);
    }
  }

  /** The client's identity (`handleAuthRequest`). */
  method Identify(format: Format, claims: IdpJwtClaims, user: string, tag: string, mapping: map<string, string>)
    returns (panicked: bool)
    requires claims.Valid()
    modifies claims
    ensures claims.Valid()
    ensures panicked ==> !NoNullLists(claims.fields, MapOf(old(claims.Struct())))
    ensures !panicked ==> Identifies(format, old(claims.Struct()), user, tag, mapping, claims.Struct())
  {
    ClientIsNoList(claims.Struct(), user, tag);
    panicked := claims.AddClient(format, user, tag, mapping);
  }

  lemma PanicsLater(
    format: Format, decoded: View, raw: Object, userInfo: Option<Object>, mapping: map<string, string>, verified: View)
    requires Converts(format, decoded, raw, mapping, verified) && LaterPanic(format, verified, userInfo, mapping)
    ensures PipelinePanics(format, decoded, raw, userInfo, mapping)
  {
  }

  lemma PanicsLast(
    format: Format, verified: View, userInfo: Option<Object>, mapping: map<string, string>, enriched: View)
    requires WellTyped(verified) && WellTyped(enriched) && Enriches(format, verified, userInfo, mapping, enriched)
    requires !NoNullLists(enriched.fields, MapOf(enriched))
    ensures LaterPanic(format, verified, userInfo, mapping)
  {
  }

  /** The conversions of one request; no value when one of them panics. */
  method RequestClaims(
    format: Format, decoded: View, raw: Object, userInfo: Option<Object>, user: string, tag: string,
    mapping: map<string, string>)
    returns (r: Option<Looked>)
    requires WellTyped(decoded)
    ensures r.None? ==> PipelinePanics(format, decoded, raw, userInfo, mapping)
    ensures r.Some? ==> exists last: View ::
      && Pipeline(format, decoded, raw, userInfo, user, tag, mapping, last)
      && Shows(last, r.value)
  {
    var claims := new IdpJwtClaims(decoded);
    var panicked := ReadToken(format, claims, raw, mapping);
    if panicked {
      return None;
    }
    ghost var verified := claims.Struct();
    panicked := Enrich(format, claims, userInfo, mapping);
    if panicked {
      PanicsLater(format, decoded, raw, userInfo, mapping, verified);
      return None;
    }
    ghost var enriched := claims.Struct();
    panicked := Identify(format, claims, user, tag, mapping);
    if panicked {
      PanicsLast(format, verified, userInfo, mapping, enriched);
      PanicsLater(format, decoded, raw, userInfo, mapping, verified);
      return None;
    }
    var context := claims.ToMap();
    r := Some(Looked(context, claims.standard["exp"]));
    assert Pipeline(format, decoded, raw, userInfo, user, tag, mapping, claims.Struct());
  }

  // ---- The client identity ------------------------------------------------------------------

  /**
   * The client identity that the broker adds is what role bindings see, whatever the token,
   * the UserInfo endpoint or the mapping put under those names; an empty one is absent.
   */
  lemma ClientIdentityWins(
    format: Format, c: View, user: string, tag: string, mapping: map<string, string>, after: View)
    requires WellTyped(c) && WellTyped(after) && Renamed(c, mapping)
    requires Reads(format, c, WithClient(MapOf(c), user, tag), mapping, after)
    ensures Lookup(MapOf(after), "client_id") == if user == "" then None else Some(Str(user))
    ensures Lookup(MapOf(after), "also_known_as") == if tag == "" then None else Some(Str(tag))
  {
    var m := WithClient(MapOf(c), user, tag);
    ClientIsText(c, user, tag);
    TextAfterRead(format, c, m, mapping, after, "client_id", user);
    TextAfterRead(format, c, m, mapping, after, "also_known_as", tag);
  }

  lemma ClientIsText(c: View, user: string, tag: string)
    requires WellTyped(c)
    ensures var m := WithClient(MapOf(c), user, tag);
      && Lookup(m, "client_id") == Some(Str(user)) && Lookup(m, "also_known_as") == Some(Str(tag))
      && forall n | n in m && n !in c.fields :: n in c.custom
  {
  }

  lemma TextAfterRead(
    format: Format, c: View, m: Object, mapping: map<string, string>, after: View, k: string, text: string)
    requires WellTyped(c) && WellTyped(after) && Reads(format, c, m, mapping, after)
    requires Renamed(c, mapping) && forall n | n in m && n !in c.fields :: n in c.custom
    requires k in c.fields && c.fields[k] == Text && Lookup(m, k) == Some(Str(text))
    ensures Lookup(MapOf(after), k) == if text == "" then None else Some(Str(text))
  {
    StandardAfterRead(format, c, m, mapping, after, k);
  }

  /** A standard claim of the map is what its field shows, since no custom claim covers it. */
  lemma StandardAfterRead(format: Format, c: View, m: Object, mapping: map<string, string>, after: View, k: string)
    requires WellTyped(c) && WellTyped(after) && Reads(format, c, m, mapping, after)
    requires Renamed(c, mapping) && forall n | n in m && n !in c.fields :: n in c.custom
    requires k in c.fields && k in m
    ensures Lookup(MapOf(after), k) == Shown(c.fields[k], Convert(format, c.fields[k], c.standard[k], m[k]))
  {
    var order :| Enumerates(order, m.Keys) && after.custom == Store(c.fields, m, mapping, order);
    StoreContents(c.fields, m, mapping, order, k);
  }

  /** A conversion that shows the expiry unchanged leaves it unchanged. */
  lemma ExpiryIsKept(format: Format, c: View, m: Object, mapping: map<string, string>, after: View)
    requires WellTyped(c) && "exp" !in c.custom && Lookup(m, "exp") == Lookup(MapOf(c), "exp")
    requires Reads(format, c, m, mapping, after)
    ensures after.standard["exp"] == c.standard["exp"]
  {
  }

  // ---- The checks on a token's claims ---------------------------------------------------------

  /** The names in the map after a conversion. */
  function NamesAfter(format: Format, c: View, m: Object, mapping: map<string, string>): set<string>
    requires WellTyped(c)
  {
    var standard := StandardFrom(format, c.fields, c.standard, m);
    (set k | k in c.fields && standard[k] != Zero(c.fields[k]))
      + set k | k in m && k !in c.fields :: Rename(c.fields, mapping, k)
  }

  lemma ConversionNames(format: Format, c: View, m: Object, mapping: map<string, string>, after: View)
    requires Converts(format, c, m, mapping, after)
    ensures MapOf(after).Keys == NamesAfter(format, c, m, mapping)
  {
    var order :| Enumerates(order, m.Keys) && after.custom == Store(c.fields, m, mapping, order);
    forall t
      ensures t in MapOf(after) <==> t in NamesAfter(format, c, m, mapping)
    {
      StoreContents(c.fields, m, mapping, order, t);
    }
  }

  /** What `Meets` comes to for a token, before it is converted. */
  predicate TokenMeets(spec: Spec, format: Format, decoded: View, raw: Object, mapping: map<string, string>)
    requires WellTyped(decoded)
  {
    && (forall n | n in spec.required :: n in NamesAfter(format, decoded, raw, mapping))
    && (|| spec.skipAudience || spec.audience == []
        || SharesAudience(StandardFrom(format, decoded.fields, decoded.standard, raw)["aud"], spec.audience))
  }

  /** Whichever order the token's claims are read in, the checks on them come out the same. */
  lemma SpecIgnoresOrder(
    spec: Spec, format: Format, decoded: View, raw: Object, mapping: map<string, string>, verified: View)
    requires Converts(format, decoded, raw, mapping, verified)
    ensures Meets(spec, verified) <==> TokenMeets(spec, format, decoded, raw, mapping)
  {
    ConversionNames(format, decoded, raw, mapping, verified);
    assert forall n :: n in MapOf(verified) <==> n in MapOf(verified).Keys;
  }

  // ---- What reaches the lookup --------------------------------------------------------------

  /** Claim `t` with value `v` can stay as it is: its name is final and its field, if any, shows it. */
  predicate Final(fields: Fields, mapping: map<string, string>, t: string, v: Value) {
    && Rename(fields, mapping, t) == t
    && (t in fields ==> fields[t] != Custom && Faithful(fields[t], v))
  }

  /** What `m` has under names that are kept as `t` carries `v`. */
  predicate Agrees(fields: Fields, mapping: map<string, string>, m: Object, t: string, v: Value) {
    forall k | k in m && Rename(fields, mapping, k) == t :: m[k] == v
  }

  /** The same for the claims that are custom themselves. */
  predicate CustomsAgree(fields: Fields, mapping: map<string, string>, m: Object, t: string, v: Value) {
    forall k | k in m && k !in fields && Rename(fields, mapping, k) == t :: m[k] == v
  }

  predicate HasCustom(fields: Fields, mapping: map<string, string>, m: Object, t: string) {
    exists k :: k in m && k !in fields && Rename(fields, mapping, k) == t
  }

  /** The claims of `m` that are kept as `t` are there and all carry `v`. */
  predicate Brings(fields: Fields, mapping: map<string, string>, m: Object, t: string, v: Value) {
    && Final(fields, mapping, t, v)
    && (exists k :: k in m && Rename(fields, mapping, k) == t)
    && Agrees(fields, mapping, m, t, v)
  }

  /** No other custom claim of `c` moves to `t`. */
  predicate Alone(c: View, mapping: map<string, string>, t: string) {
    Renamed(c, mapping) || (t in c.fields && t !in mapping.Values)
  }

  lemma CustomIsKept(format: Format, c: View, m: Object, mapping: map<string, string>, after: View, t: string, v: Value)
    requires Converts(format, c, m, mapping, after) && CustomsAgree(c.fields, mapping, m, t, v)
    ensures t in after.custom ==> after.custom[t] == v
    ensures t in after.custom <==> HasCustom(c.fields, mapping, m, t)
  {
    var order :| Enumerates(order, m.Keys) && after.custom == Store(c.fields, m, mapping, order);
    StoreContents(c.fields, m, mapping, order, t);
  }

  lemma NoCustomBeside(format: Format, c: View, m: Object, mapping: map<string, string>, after: View, t: string)
    requires Converts(format, c, m, mapping, after) && t in c.fields && t !in mapping.Values
    ensures t !in after.custom
  {
    var order :| Enumerates(order, m.Keys) && after.custom == Store(c.fields, m, mapping, order);
    StoreContents(c.fields, m, mapping, order, t);
  }

  lemma FieldIsSet(format: Format, c: View, m: Object, mapping: map<string, string>, after: View, t: string, v: Value)
    requires Converts(format, c, m, mapping, after) && t in c.fields && t in m && m[t] == v
    requires c.fields[t] != Custom && Faithful(c.fields[t], v)
    ensures Shown(c.fields[t], after.standard[t]) == Some(v)
  {
    FaithfulMeaning(format, c.fields[t], c.standard[t], v);
  }

  /** After a conversion a claim is shown as the custom claims have it, which stand over its field. */
  lemma ShownAfter(format: Format, c: View, m: Object, mapping: map<string, string>, after: View, t: string, v: Value)
    requires Converts(format, c, m, mapping, after) && Final(c.fields, mapping, t, v)
    requires CustomsAgree(c.fields, mapping, m, t, v)
    requires !HasCustom(c.fields, mapping, m, t) ==> t in c.fields && t in m && m[t] == v
    ensures Lookup(MapOf(after), t) == Some(v)
  {
    CustomIsKept(format, c, m, mapping, after, t, v);
    if t !in after.custom {
      FieldIsSet(format, c, m, mapping, after, t, v);
    }
  }

  /** One conversion takes what its map brings under `t` to the same claim of the next map. */
  lemma CarriesOver(format: Format, c: View, m: Object, mapping: map<string, string>, after: View, t: string, v: Value)
    requires Converts(format, c, m, mapping, after) && Brings(c.fields, mapping, m, t, v)
    ensures Lookup(MapOf(after), t) == Some(v)
  {
    ShownAfter(format, c, m, mapping, after, t, v);
  }

  /** A claim shown after a conversion is brought again, under the same name only. */
  lemma ShownIsBrought(c: View, extra: Object, mapping: map<string, string>, t: string, v: Value)
    requires WellTyped(c) && Alone(c, mapping, t) && Lookup(MapOf(c), t) == Some(v)
    requires Final(c.fields, mapping, t, v) && Agrees(c.fields, mapping, extra, t, v)
    ensures Brings(c.fields, mapping, MapOf(c) + extra, t, v)
  {
    var m := MapOf(c) + extra;
    assert forall k | k in mapping :: mapping[k] in mapping.Values;
    assert t in m && Rename(c.fields, mapping, t) == t;
    forall k | k in m && Rename(c.fields, mapping, k) == t
      ensures m[k] == v
    {
      if k !in extra && k !in c.fields {
        assert k in c.custom;
      }
    }
  }

  lemma EnrichmentCarries(
    format: Format, verified: View, userInfo: Option<Object>, mapping: map<string, string>, enriched: View,
    t: string, v: Value)
    requires Enriches(format, verified, userInfo, mapping, enriched) && WellTyped(enriched)
    requires Alone(verified, mapping, t) && Lookup(MapOf(verified), t) == Some(v)
    requires Final(verified.fields, mapping, t, v)
    requires userInfo.Some? ==> Agrees(verified.fields, mapping, userInfo.value, t, v)
    ensures Lookup(MapOf(enriched), t) == Some(v)
  {
    if userInfo.Some? {
      ShownIsBrought(verified, userInfo.value, mapping, t, v);
      CarriesOver(format, verified, MapOf(verified) + userInfo.value, mapping, enriched, t, v);
    }
  }

  lemma ClientIsExtra(
    fields: Fields, m: Object, user: string, tag: string, mapping: map<string, string>, t: string, v: Value)
    returns (client: Object)
    requires {"client_id", "also_known_as"} <= fields.Keys && t != "client_id" && t != "also_known_as"
    ensures WithClient(m, user, tag) == m + client && Agrees(fields, mapping, client, t, v) && t !in client
  {
    client := map["client_id" := Str(user), "also_known_as" := Str(tag)];
  }

  lemma ClientIsBrought(c: View, user: string, tag: string, mapping: map<string, string>, t: string, v: Value)
    requires WellTyped(c) && Alone(c, mapping, t) && Lookup(MapOf(c), t) == Some(v)
    requires Final(c.fields, mapping, t, v) && t != "client_id" && t != "also_known_as"
    ensures Brings(c.fields, mapping, WithClient(MapOf(c), user, tag), t, v)
  {
    var client := ClientIsExtra(c.fields, MapOf(c), user, tag, mapping, t, v);
    ShownIsBrought(c, client, mapping, t, v);
  }

  lemma IdentityCarries(
    format: Format, enriched: View, user: string, tag: string, mapping: map<string, string>, last: View,
    t: string, v: Value)
    requires Identifies(format, enriched, user, tag, mapping, last)
    requires Alone(enriched, mapping, t) && Lookup(MapOf(enriched), t) == Some(v)
    requires Final(enriched.fields, mapping, t, v) && t != "client_id" && t != "also_known_as"
    ensures Lookup(MapOf(last), t) == Some(v)
  {
    ClientIsBrought(enriched, user, tag, mapping, t, v);
    CarriesOver(format, enriched, WithClient(MapOf(enriched), user, tag), mapping, last, t, v);
  }

  lemma EnrichedIsRenamed(
    format: Format, verified: View, userInfo: Option<Object>, mapping: map<string, string>, enriched: View)
    requires WellTyped(verified) && Settled(verified.fields, mapping) && Renamed(verified, mapping)
    requires Enriches(format, verified, userInfo, mapping, enriched)
    ensures Renamed(enriched, mapping)
  {
    if userInfo.Some? {
      ReadsAreRenamed(format, verified, MapOf(verified) + userInfo.value, mapping, enriched);
    }
  }

  /**
   * A claim of the token reaches the lookup unchanged, under its mapped name, standard or not,
   * unless UserInfo has another value for it or the name is one of the two that the broker sets.
   */
  lemma TokenClaimReachesLookup(
    format: Format, decoded: View, raw: Object, userInfo: Option<Object>, user: string, tag: string,
    mapping: map<string, string>, last: View, t: string, v: Value)
    requires Settled(decoded.fields, mapping) || (t in decoded.fields && t !in mapping.Values)
    requires Pipeline(format, decoded, raw, userInfo, user, tag, mapping, last) && WellTyped(last)
    requires t != "client_id" && t != "also_known_as" && Brings(decoded.fields, mapping, raw, t, v)
    requires userInfo.Some? ==> Agrees(decoded.fields, mapping, userInfo.value, t, v)
    ensures Lookup(MapOf(last), t) == Some(v)
  {
    var verified: View, enriched: View :|
      && Converts(format, decoded, raw, mapping, verified)
      && Enriches(format, verified, userInfo, mapping, enriched)
      && Identifies(format, enriched, user, tag, mapping, last);
    CarriesOver(format, decoded, raw, mapping, verified, t, v);
    if Settled(decoded.fields, mapping) {
      ReadsAreRenamed(format, decoded, raw, mapping, verified);
      EnrichedIsRenamed(format, verified, userInfo, mapping, enriched);
    }
    EnrichmentCarries(format, verified, userInfo, mapping, enriched, t, v);
    IdentityCarries(format, enriched, user, tag, mapping, last, t, v);
  }

  /** UserInfo's value `w` for `t` shows after the UserInfo step: nothing of the struct contends with it. */
  lemma EnrichmentWins(
    format: Format, c: View, info: Object, mapping: map<string, string>, after: View, t: string, w: Value)
    requires WellTyped(c) && Renamed(c, mapping) && Brings(c.fields, mapping, info, t, w)
    requires Converts(format, c, MapOf(c) + info, mapping, after)
    requires t in info || t in c.fields || (t in c.custom ==> c.custom[t] == w)
    ensures Lookup(MapOf(after), t) == Some(w)
  {
    OnlyInfoContends(c, info, mapping, t, w);
    if !HasCustom(c.fields, mapping, MapOf(c) + info, t) {
      SourceIsField(c, info, mapping, t, w);
    }
    ShownAfter(format, c, MapOf(c) + info, mapping, after, t, w);
  }

  lemma OnlyInfoContends(c: View, info: Object, mapping: map<string, string>, t: string, w: Value)
    requires WellTyped(c) && Renamed(c, mapping) && Agrees(c.fields, mapping, info, t, w)
    requires t in info || t in c.fields || (t in c.custom ==> c.custom[t] == w)
    ensures CustomsAgree(c.fields, mapping, MapOf(c) + info, t, w)
  {
    assert forall k | k in MapOf(c) && k !in c.fields :: k in c.custom && Rename(c.fields, mapping, k) == k;
  }

  lemma SourceIsField(c: View, info: Object, mapping: map<string, string>, t: string, w: Value)
    requires WellTyped(c) && Brings(c.fields, mapping, info, t, w)
    requires !HasCustom(c.fields, mapping, MapOf(c) + info, t)
    ensures t in c.fields && t in MapOf(c) + info && (MapOf(c) + info)[t] == w
  {
    var k :| k in info && Rename(c.fields, mapping, k) == t;
    assert k in MapOf(c) + info;
  }

  /**
   * A claim from UserInfo reaches the lookup, unless the token has another value for it that
   * UserInfo does not replace under its final name; a standard claim needs no such care.
   */
  lemma UserInfoClaimReachesLookup(
    format: Format, decoded: View, raw: Object, info: Object, user: string, tag: string,
    mapping: map<string, string>, last: View, t: string, w: Value)
    requires Settled(decoded.fields, mapping)
    requires Pipeline(format, decoded, raw, Some(info), user, tag, mapping, last) && WellTyped(last)
    requires t != "client_id" && t != "also_known_as" && Brings(decoded.fields, mapping, info, t, w)
    requires t in info || t in decoded.fields || Agrees(decoded.fields, mapping, raw, t, w)
    ensures Lookup(MapOf(last), t) == Some(w)
  {
    var verified: View, enriched: View :|
      && Converts(format, decoded, raw, mapping, verified)
      && Enriches(format, verified, Some(info), mapping, enriched)
      && Identifies(format, enriched, user, tag, mapping, last);
    ReadsAreRenamed(format, decoded, raw, mapping, verified);
    EnrichedIsRenamed(format, verified, Some(info), mapping, enriched);
    if Agrees(decoded.fields, mapping, raw, t, w) {
      CustomIsKept(format, decoded, raw, mapping, verified, t, w);
    }
    EnrichmentWins(format, verified, info, mapping, enriched, t, w);
    IdentityCarries(format, enriched, user, tag, mapping, last, t, w);
  }

  /** What a lookup of the request's role binding can rely on. */
  ghost predicate ShowsClient(context: Object, user: string, tag: string) {
    && Lookup(context, "client_id") == (if user == "" then None else Some(Str(user)))
    && Lookup(context, "also_known_as") == (if tag == "" then None else Some(Str(tag)))
  }

  /** Under a settled mapping the client identity in the context is the broker's own. */
  lemma PipelineShowsClient(
    format: Format, decoded: View, raw: Object, userInfo: Option<Object>, user: string, tag: string,
    mapping: map<string, string>, last: View)
    requires Settled(decoded.fields, mapping)
    requires Pipeline(format, decoded, raw, userInfo, user, tag, mapping, last) && WellTyped(last)
    ensures ShowsClient(MapOf(last), user, tag)
  {
    var verified: View, enriched: View :|
      && Converts(format, decoded, raw, mapping, verified)
      && Enriches(format, verified, userInfo, mapping, enriched)
      && Identifies(format, enriched, user, tag, mapping, last);
    ReadsAreRenamed(format, decoded, raw, mapping, verified);
    EnrichedIsRenamed(format, verified, userInfo, mapping, enriched);
    ClientIdentityWins(format, enriched, user, tag, mapping, last);
  }

  // ---- The expiry -----------------------------------------------------------------------------

  /** A number field takes what is laid over the map, and otherwise stays, zero included. */
  lemma NumberAfter(
    format: Format, c: View, extra: Object, mapping: map<string, string>, after: View, t: string)
    requires WellTyped(c) && Converts(format, c, MapOf(c) + extra, mapping, after)
    requires t in c.fields && c.fields[t] == Number && t !in mapping.Values && t !in c.custom
    ensures t !in after.custom
    ensures after.standard[t] == if t in extra then Num(IntOf(extra[t])) else c.standard[t]
  {
    NoCustomBeside(format, c, MapOf(c) + extra, mapping, after, t);
  }

  /** The number field `t` of `decoded` once the token and UserInfo have been read. */
  function NumberOf(decoded: View, raw: Object, userInfo: Option<Object>, t: string): Value
    requires t in decoded.standard
  {
    if userInfo.Some? && t in userInfo.value then Num(IntOf(userInfo.value[t]))
    else if t in raw then Num(IntOf(raw[t]))
    else decoded.standard[t]
  }

  lemma NumberIsLast(
    format: Format, decoded: View, raw: Object, userInfo: Option<Object>, user: string, tag: string,
    mapping: map<string, string>, last: View, t: string)
    requires WellTyped(decoded) && t in decoded.fields && decoded.fields[t] == Number && t !in mapping.Values
    requires t != "client_id" && t != "also_known_as"
    requires Pipeline(format, decoded, raw, userInfo, user, tag, mapping, last) && WellTyped(last)
    ensures last.fields == decoded.fields
    ensures last.standard[t] == NumberOf(decoded, raw, userInfo, t)
  {
    var verified: View, enriched: View :|
      && Converts(format, decoded, raw, mapping, verified)
      && Enriches(format, verified, userInfo, mapping, enriched)
      && Identifies(format, enriched, user, tag, mapping, last);
    NoCustomBeside(format, decoded, raw, mapping, verified, t);
    if userInfo.Some? {
      NumberAfter(format, verified, userInfo.value, mapping, enriched, t);
    }
    NumberAfterClient(format, enriched, user, tag, mapping, last, t);
  }

  lemma NumberAfterClient(
    format: Format, enriched: View, user: string, tag: string, mapping: map<string, string>, last: View, t: string)
    requires Identifies(format, enriched, user, tag, mapping, last)
    requires t in enriched.fields && enriched.fields[t] == Number && t !in mapping.Values && t !in enriched.custom
    requires t != "client_id" && t != "also_known_as"
    ensures last.standard[t] == enriched.standard[t]
  {
    var client := ClientIsExtra(enriched.fields, MapOf(enriched), user, tag, mapping, t, Null);
    NumberAfter(format, enriched, client, mapping, last, t);
  }

  /**
   * The expiry that is minted from: UserInfo's if it has one, be it a number or not, else the
   * token's, as long as the mapping leads no other claim to that name.
   */
  lemma PipelineExpiry(
    format: Format, decoded: View, raw: Object, userInfo: Option<Object>, user: string, tag: string,
    mapping: map<string, string>, last: View)
    requires WellTyped(decoded) && "exp" !in mapping.Values
    requires Pipeline(format, decoded, raw, userInfo, user, tag, mapping, last) && WellTyped(last)
    ensures last.standard["exp"] == NumberOf(decoded, raw, userInfo, "exp")
  {
    assert |"exp"| < |"client_id"| && |"exp"| < |"also_known_as"|;
    NumberIsLast(format, decoded, raw, userInfo, user, tag, mapping, last, "exp");
  }
}
