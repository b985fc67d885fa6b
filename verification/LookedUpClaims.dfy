/**
 * Which claims the lookup sees when token and UserInfo both bring them, and when they are mapped to
 * a standard name (auth_callback.go, idp_jwt_claim.go).
 */
module LookedUpClaims {
  import opened Values
  import opened Claims
  import opened ClaimsLaws
  import opened ClaimsPipeline
  import opened ClaimsPanics

  /** A walk over the joined map that ends with the token's claim under its final name keeps it. */
  lemma TokenValueKept(
    format: Format, verified: View, info: Object, mapping: map<string, string>, t: string, v: Value)
    returns (enriched: View)
    requires WellTyped(verified) && t !in verified.fields && Rename(verified.fields, mapping, t) == t
    requires t !in info && Lookup(verified.custom, t) == Some(v)
    requires NoNullLists(verified.fields, MapOf(verified) + info)
    ensures Enriches(format, verified, Some(info), mapping, enriched) && WellTyped(enriched)
    ensures Lookup(MapOf(enriched), t) == Some(v)
  {
    enriched := ReadEndingWith(format, verified, MapOf(verified) + info, mapping, t);
  }

  lemma AnyIdentity(
    format: Format, enriched: View, user: string, tag: string, mapping: map<string, string>)
    returns (last: View)
    requires WellTyped(enriched) && NoNullLists(enriched.fields, MapOf(enriched))
    ensures Identifies(format, enriched, user, tag, mapping, last)
  {
    ClientIsNoList(enriched, user, tag);
    var m := WithClient(MapOf(enriched), user, tag);
    var order := SomeOrder(m.Keys);
    last := ReadInOrder(format, enriched, m, mapping, order);
  }

  /** The token's value for a custom claim can reach the lookup although UserInfo has it as well. */
  lemma TokenValueCanReach(
    format: Format, decoded: View, raw: Object, info: Object, user: string, tag: string,
    mapping: map<string, string>, t: string, v: Value)
    returns (last: View)
    requires WellTyped(decoded) && Settled(decoded.fields, mapping)
    requires !PipelinePanics(format, decoded, raw, Some(info), mapping)
    requires t !in decoded.fields && t !in info && t != "client_id" && t != "also_known_as"
    requires Brings(decoded.fields, mapping, raw, t, v)
    ensures Pipeline(format, decoded, raw, Some(info), user, tag, mapping, last) && WellTyped(last)
    ensures Lookup(MapOf(last), t) == Some(v)
  {
    var order := SomeOrder(raw.Keys);
    var verified := ReadInOrder(format, decoded, raw, mapping, order);
    CustomIsKept(format, decoded, raw, mapping, verified, t, v);
    assert !LaterPanic(format, verified, Some(info), mapping);
    var enriched := TokenValueKept(format, verified, info, mapping, t, v);
    last := AnyIdentity(format, enriched, user, tag, mapping);
    ReadsAreRenamed(format, decoded, raw, mapping, verified);
    EnrichedIsRenamed(format, verified, Some(info), mapping, enriched);
    IdentityCarries(format, enriched, user, tag, mapping, last, t, v);
  }

  /** And so can UserInfo's, whatever the token has. */
  lemma UserInfoValueCanReach(
    format: Format, decoded: View, raw: Object, info: Object, user: string, tag: string,
    mapping: map<string, string>, t: string, w: Value)
    returns (last: View)
    requires WellTyped(decoded) && Settled(decoded.fields, mapping)
    requires !PipelinePanics(format, decoded, raw, Some(info), mapping)
    requires t !in decoded.fields && t != "client_id" && t != "also_known_as"
    requires Brings(decoded.fields, mapping, info, t, w)
    ensures Pipeline(format, decoded, raw, Some(info), user, tag, mapping, last) && WellTyped(last)
    ensures Lookup(MapOf(last), t) == Some(w)
  {
    var order := SomeOrder(raw.Keys);
    var verified := ReadInOrder(format, decoded, raw, mapping, order);
    assert !LaterPanic(format, verified, Some(info), mapping);
    var k :| k in info && Rename(decoded.fields, mapping, k) == t;
    var enriched := ReadEndingWith(format, verified, MapOf(verified) + info, mapping, k);
    assert Enriches(format, verified, Some(info), mapping, enriched);
    last := AnyIdentity(format, enriched, user, tag, mapping);
    ReadsAreRenamed(format, decoded, raw, mapping, verified);
    EnrichedIsRenamed(format, verified, Some(info), mapping, enriched);
    IdentityCarries(format, enriched, user, tag, mapping, last, t, w);
  }

  /**
   * When token and UserInfo both bring a claim, UserInfo's value is what every lookup of the
   * request sees exactly if the values are the same, or the name is a standard one, or UserInfo has
   * the claim under its final name. Otherwise the order in which Go walks the map decides.
   */
  lemma UserInfoWinsIff(
    format: Format, decoded: View, raw: Object, info: Object, user: string, tag: string,
    mapping: map<string, string>, t: string, v: Value, w: Value)
    requires WellTyped(decoded) && Settled(decoded.fields, mapping)
    requires !PipelinePanics(format, decoded, raw, Some(info), mapping)
    requires t != "client_id" && t != "also_known_as"
    requires Brings(decoded.fields, mapping, raw, t, v) && Brings(decoded.fields, mapping, info, t, w)
    ensures (forall last: View
               | Pipeline(format, decoded, raw, Some(info), user, tag, mapping, last) && WellTyped(last) ::
               Lookup(MapOf(last), t) == Some(w))
      <==> v == w || t in decoded.fields || t in info
  {
    if v == w || t in decoded.fields || t in info {
      forall last: View | Pipeline(format, decoded, raw, Some(info), user, tag, mapping, last) && WellTyped(last)
        ensures Lookup(MapOf(last), t) == Some(w)
      {
        UserInfoClaimReachesLookup(format, decoded, raw, info, user, tag, mapping, last, t, w);
      }
    } else {
      var last := TokenValueCanReach(format, decoded, raw, info, user, tag, mapping, t, v);
    }
  }

  // ---- An input on which the order decides ------------------------------------------------------

  const DEPT := "https://idp/dept"

  function Department(name: string): Object {
    map[DEPT := Str(name)]
  }

  function DeptMapping(): map<string, string> {
    map[DEPT := "dept"]
  }

  function Empty(): View {
    View(CLAIM_FIELDS, map k | k in CLAIM_FIELDS :: Zero(CLAIM_FIELDS[k]), map[])
  }

  lemma DeptIsCustom()
    ensures DEPT !in CLAIM_FIELDS && "dept" !in CLAIM_FIELDS && DEPT != "dept"
    ensures "dept" != "client_id" && "dept" != "also_known_as"
  {
    assert |DEPT| == 16 && |"dept"| == 4;
  }

  lemma DeptIsBrought(name: string)
    ensures Settled(CLAIM_FIELDS, DeptMapping())
    ensures Brings(CLAIM_FIELDS, DeptMapping(), Department(name), "dept", Str(name))
    ensures "dept" !in Department(name)
  {
    DeptIsCustom();
    assert DEPT in Department(name) && Rename(CLAIM_FIELDS, DeptMapping(), DEPT) == "dept";
  }

  lemma DeptNeverPanics(format: Format, a: string, b: string)
    ensures WellTyped(Empty())
    ensures !PipelinePanics(format, Empty(), Department(a), Some(Department(b)), DeptMapping())
  {
    FieldTableIsValid();
    DeptIsBrought(a);
    PanicsIff(format, Empty(), Department(a), Some(Department(b)), DeptMapping());
  }

  /** Token and UserInfo with different departments under the IdP's name: either can be looked up. */
  lemma EitherDepartmentCanWin(format: Format, user: string, tag: string) returns (x: View, y: View)
    ensures Pipeline(format, Empty(), Department("a"), Some(Department("b")), user, tag, DeptMapping(), x)
    ensures Pipeline(format, Empty(), Department("a"), Some(Department("b")), user, tag, DeptMapping(), y)
    ensures WellTyped(x) && Lookup(MapOf(x), "dept") == Some(Str("a"))
    ensures WellTyped(y) && Lookup(MapOf(y), "dept") == Some(Str("b"))
  {
    DeptIsCustom();
    DeptIsBrought("a");
    DeptIsBrought("b");
    DeptNeverPanics(format, "a", "b");
    x := TokenValueCanReach(
      format, Empty(), Department("a"), Department("b"), user, tag, DeptMapping(), "dept", Str("a"));
    y := UserInfoValueCanReach(
      format, Empty(), Department("a"), Department("b"), user, tag, DeptMapping(), "dept", Str("b"));
  }

  /** The name that a claim has in the end: the one it is mapped to, or its own. */
  function KeptAs(mapping: map<string, string>, k: string): string {
    if k in mapping then mapping[k] else k
  }

  /** A custom claim that shares its final name with no other is looked up with the token's value. */
  lemma LoneClaimReachesLookup(
    format: Format, decoded: View, raw: Object, user: string, tag: string, mapping: map<string, string>, last: View,
    k: string)
    requires WellTyped(decoded) && Settled(decoded.fields, mapping)
    requires Pipeline(format, decoded, raw, None, user, tag, mapping, last) && WellTyped(last)
    requires k in raw && k !in decoded.fields && KeptAs(mapping, k) !in decoded.fields
    requires forall j | j in raw && j != k && j !in decoded.fields :: KeptAs(mapping, j) != KeptAs(mapping, k)
    ensures Lookup(MapOf(last), KeptAs(mapping, k)) == Some(raw[k])
  {
    var t := KeptAs(mapping, k);
    assert Rename(decoded.fields, mapping, k) == t;
    LoneIsBrought(decoded.fields, raw, mapping, k);
    assert t !in {"client_id", "also_known_as"};
    TokenClaimReachesLookup(format, decoded, raw, None, user, tag, mapping, last, t, raw[k]);
  }

  lemma LoneIsBrought(fields: Fields, raw: Object, mapping: map<string, string>, k: string)
    requires Settled(fields, mapping) && k in raw && k !in fields && KeptAs(mapping, k) !in fields
    requires forall j | j in raw && j != k && j !in fields :: KeptAs(mapping, j) != KeptAs(mapping, k)
    ensures Brings(fields, mapping, raw, KeptAs(mapping, k), raw[k])
  {
    assert forall j | j in raw && j !in fields :: Rename(fields, mapping, j) == KeptAs(mapping, j);
    assert Rename(fields, mapping, k) == KeptAs(mapping, k);
  }

  // ---- The documented mapping to a standard name --------------------------------------------------

  const ROLES := "https://idp/roles"

  lemma RolesAreStandard()
    ensures ROLES !in CLAIM_FIELDS && "roles" in CLAIM_FIELDS && CLAIM_FIELDS["roles"] == Raw
    ensures "roles" != "client_id" && "roles" != "also_known_as"
  {
    assert |ROLES| == 17 && |"roles"| == 5;
  }

  function RolesMapping(): map<string, string> {
    map[ROLES := "roles"]
  }

  lemma NamesAreFaithful(names: seq<Value>)
    requires forall n | n in names :: n.Str?
    ensures Faithful(Raw, List(names))
  {
    assert forall i | 0 <= i < |names| :: names[i] in names && Json(names[i]) == names[i];
    assert Json(List(names)).items == names;
  }

  lemma RolesAreBrought(v: Value)
    requires Faithful(Raw, v)
    ensures Settled(CLAIM_FIELDS, RolesMapping())
    ensures Brings(CLAIM_FIELDS, RolesMapping(), map[ROLES := v], "roles", v)
  {
    RolesAreStandard();
    var raw: Object := map[ROLES := v];
    assert ROLES in raw && Rename(CLAIM_FIELDS, RolesMapping(), ROLES) == "roles";
  }

  /** Roles under the IdP's own name, mapped to `roles`, reach the lookup as the standard claim. */
  lemma MappedRolesReachLookup(format: Format, names: seq<Value>, user: string, tag: string, last: View)
    requires forall n | n in names :: n.Str?
    requires Pipeline(format, Empty(), map[ROLES := List(names)], None, user, tag, RolesMapping(), last)
    requires WellTyped(last)
    ensures Lookup(MapOf(last), "roles") == Some(List(names))
  {
    RolesAreStandard();
    NamesAreFaithful(names);
    RolesAreBrought(List(names));
    TokenClaimReachesLookup(
      format, Empty(), map[ROLES := List(names)], None, user, tag, RolesMapping(), last, "roles", List(names));
  }
}
