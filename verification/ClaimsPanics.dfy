/** When one of the three conversions of a request can panic (idp_jwt_claim.go, auth_callback.go). */
module ClaimsPanics {
  import opened Values
  import opened Claims
  import opened ClaimsLaws
  import opened ClaimsPipeline

  /** Claim `k` is a null that is read into `groups` or `roles` under the name it is kept by. */
  predicate IsNullList(fields: Fields, mapping: map<string, string>, m: Object, k: string) {
    k in m && m[k] == Null && KindOf(fields, Rename(fields, mapping, k)) == Raw
  }

  /** A null of the token panics at once or, when it is renamed, unless UserInfo replaces it in time. */
  predicate TokenPanics(fields: Fields, mapping: map<string, string>, raw: Object, userInfo: Option<Object>) {
    exists k | k in raw ::
      && IsNullList(fields, mapping, raw, k)
      && (k in fields || userInfo.None? || Rename(fields, mapping, k) !in userInfo.value)
  }

  /** With UserInfo there is one conversion more, and a mapping that is not settled renames again. */
  predicate TokenPanicsLater(fields: Fields, mapping: map<string, string>, raw: Object, userInfo: Option<Object>) {
    userInfo.Some? && exists k | k in raw ::
      && k !in fields && raw[k] == Null
      && Rename(fields, mapping, k) !in userInfo.value && Rename(fields, mapping, k) !in fields
      && KindOf(fields, Rename(fields, mapping, Rename(fields, mapping, k))) == Raw
  }

  predicate UserInfoPanics(fields: Fields, mapping: map<string, string>, userInfo: Option<Object>) {
    userInfo.Some? && exists k | k in userInfo.value :: IsNullList(fields, mapping, userInfo.value, k)
  }

  // ---- A panic has such a cause -----------------------------------------------------------

  /** A field that holds nil is not shown. */
  lemma ShownNullIsCustom(c: View, t: string)
    requires WellTyped(c) && t in MapOf(c) && MapOf(c)[t] == Null
    ensures t in c.custom
  {
    assert t in StandardMap(c) ==> c.standard[t] != Null;
  }

  lemma KeptNullHasSource(format: Format, c: View, m: Object, mapping: map<string, string>, after: View, t: string)
    returns (k: string)
    requires Converts(format, c, m, mapping, after) && t in after.custom && after.custom[t] == Null
    ensures k in m && k !in c.fields && Rename(c.fields, mapping, k) == t && m[k] == Null
  {
    var order :| Enumerates(order, m.Keys) && after.custom == Store(c.fields, m, mapping, order);
    StoreContents(c.fields, m, mapping, order, t);
    k :| k in order && k !in c.fields && Rename(c.fields, mapping, k) == t && after.custom[t] == m[k];
  }

  /** A null shown under `groups` or `roles` was kept there by the last conversion. */
  lemma NullIsRenamed(format: Format, c: View, m: Object, mapping: map<string, string>, after: View, t: string)
    returns (k: string)
    requires Converts(format, c, m, mapping, after) && KindOf(c.fields, t) == Raw
    requires t in MapOf(after) && MapOf(after)[t] == Null
    ensures k in m && k !in c.fields && Rename(c.fields, mapping, k) == t && m[k] == Null
  {
    ShownNullIsCustom(after, t);
    k := KeptNullHasSource(format, c, m, mapping, after, t);
  }

  lemma ShownNullHasCause(
    format: Format, decoded: View, raw: Object, userInfo: Option<Object>, mapping: map<string, string>,
    verified: View, t: string)
    requires Converts(format, decoded, raw, mapping, verified) && KindOf(decoded.fields, t) == Raw
    requires t in MapOf(verified) && MapOf(verified)[t] == Null
    requires userInfo.Some? ==> t !in userInfo.value
    ensures TokenPanics(decoded.fields, mapping, raw, userInfo)
  {
    var k := NullIsRenamed(format, decoded, raw, mapping, verified, t);
    assert IsNullList(decoded.fields, mapping, raw, k);
  }

  lemma UserInfoNullHasCause(fields: Fields, mapping: map<string, string>, userInfo: Object, t: string)
    requires KindOf(fields, t) == Raw && t in userInfo && userInfo[t] == Null
    ensures UserInfoPanics(fields, mapping, Some(userInfo))
  {
    assert IsNullList(fields, mapping, userInfo, t);
  }

  /** A null that the UserInfo step renames comes from UserInfo, or from the token under its new name. */
  lemma EnrichedNullHasCause(
    format: Format, decoded: View, raw: Object, info: Object, mapping: map<string, string>,
    verified: View, enriched: View, t: string)
    requires Converts(format, decoded, raw, mapping, verified)
    requires Converts(format, verified, MapOf(verified) + info, mapping, enriched)
    requires KindOf(decoded.fields, t) == Raw && t in MapOf(enriched) && MapOf(enriched)[t] == Null
    ensures UserInfoPanics(decoded.fields, mapping, Some(info))
      || TokenPanicsLater(decoded.fields, mapping, raw, Some(info))
  {
    var k := NullIsRenamed(format, verified, MapOf(verified) + info, mapping, enriched, t);
    if k in info {
      assert IsNullList(decoded.fields, mapping, info, k);
    } else {
      var j := KeptNullHasSource(format, decoded, raw, mapping, verified, k);
      assert j in raw && Rename(decoded.fields, mapping, j) == k;
    }
  }

  lemma LaterPanicHasCause(
    format: Format, decoded: View, raw: Object, userInfo: Option<Object>, mapping: map<string, string>, verified: View)
    requires Converts(format, decoded, raw, mapping, verified) && LaterPanic(format, verified, userInfo, mapping)
    ensures TokenPanics(decoded.fields, mapping, raw, userInfo) || UserInfoPanics(decoded.fields, mapping, userInfo)
      || TokenPanicsLater(decoded.fields, mapping, raw, userInfo)
  {
    if userInfo.Some? && !NoNullLists(verified.fields, MapOf(verified) + userInfo.value) {
      var m := MapOf(verified) + userInfo.value;
      var t :| t in m && KindOf(verified.fields, t) == Raw && m[t] == Null;
      if t in userInfo.value {
        UserInfoNullHasCause(decoded.fields, mapping, userInfo.value, t);
      } else {
        ShownNullHasCause(format, decoded, raw, userInfo, mapping, verified, t);
      }
    } else {
      var enriched: View :| Enriches(format, verified, userInfo, mapping, enriched)
        && WellTyped(enriched) && !NoNullLists(enriched.fields, MapOf(enriched));
      var t :| t in MapOf(enriched) && KindOf(enriched.fields, t) == Raw && MapOf(enriched)[t] == Null;
      match userInfo
      case None => ShownNullHasCause(format, decoded, raw, userInfo, mapping, verified, t);
      case Some(info) => EnrichedNullHasCause(format, decoded, raw, info, mapping, verified, enriched, t);
    }
  }

  // ---- Each such cause can panic ----------------------------------------------------------

  /** Any map without a null list can be converted, and a walk may end with any of its custom claims. */
  lemma ReadEndingWith(format: Format, c: View, m: Object, mapping: map<string, string>, k: string)
    returns (after: View)
    requires WellTyped(c) && NoNullLists(c.fields, m) && k in m && k !in c.fields
    ensures Converts(format, c, m, mapping, after)
    ensures Lookup(after.custom, Rename(c.fields, mapping, k)) == Some(m[k])
  {
    var rest := SomeOrder(m.Keys - {k});
    StoreLast(c.fields, m, mapping, rest, k);
    after := ReadInOrder(format, c, m, mapping, rest + [k]);
  }

  lemma ReadInOrder(format: Format, c: View, m: Object, mapping: map<string, string>, order: seq<string>)
    returns (after: View)
    requires WellTyped(c) && NoNullLists(c.fields, m) && Enumerates(order, m.Keys)
    ensures Converts(format, c, m, mapping, after) && after.custom == Store(c.fields, m, mapping, order)
  {
    ConvertIsTyped(format, c, m);
    after := View(c.fields, StandardFrom(format, c.fields, c.standard, m), Store(c.fields, m, mapping, order));
  }

  lemma TokenPanicHappens(
    format: Format, decoded: View, raw: Object, userInfo: Option<Object>, mapping: map<string, string>)
    requires WellTyped(decoded) && TokenPanics(decoded.fields, mapping, raw, userInfo)
    ensures PipelinePanics(format, decoded, raw, userInfo, mapping)
  {
    var fields := decoded.fields;
    var k :| k in raw && IsNullList(fields, mapping, raw, k)
      && (k in fields || userInfo.None? || Rename(fields, mapping, k) !in userInfo.value);
    if NoNullLists(fields, raw) {
      var t := Rename(fields, mapping, k);
      var verified := ReadEndingWith(format, decoded, raw, mapping, k);
      assert t in MapOf(verified) && MapOf(verified)[t] == Null;
      if userInfo.Some? {
        var m := MapOf(verified) + userInfo.value;
        assert t in m && m[t] == Null;
      } else {
        assert Enriches(format, verified, userInfo, mapping, verified);
      }
      assert LaterPanic(format, verified, userInfo, mapping);
    }
  }

  lemma TokenPanicHappensLater(
    format: Format, decoded: View, raw: Object, userInfo: Option<Object>, mapping: map<string, string>)
    requires WellTyped(decoded) && TokenPanicsLater(decoded.fields, mapping, raw, userInfo)
    ensures PipelinePanics(format, decoded, raw, userInfo, mapping)
  {
    var fields := decoded.fields;
    var k :| k in raw && k !in fields && raw[k] == Null
      && Rename(fields, mapping, k) !in userInfo.value && Rename(fields, mapping, k) !in fields
      && KindOf(fields, Rename(fields, mapping, Rename(fields, mapping, k))) == Raw;
    if NoNullLists(fields, raw) {
      var verified := ReadEndingWith(format, decoded, raw, mapping, k);
      RenamedNullPanics(format, verified, userInfo.value, mapping, Rename(fields, mapping, k));
    }
  }

  lemma RenamedNullPanics(format: Format, verified: View, info: Object, mapping: map<string, string>, j: string)
    requires WellTyped(verified) && j !in verified.fields && j !in info && Lookup(verified.custom, j) == Some(Null)
    requires KindOf(verified.fields, Rename(verified.fields, mapping, j)) == Raw
    ensures LaterPanic(format, verified, Some(info), mapping)
  {
    var m := MapOf(verified) + info;
    assert j in m && m[j] == Null;
    if NoNullLists(verified.fields, m) {
      var t := Rename(verified.fields, mapping, j);
      var enriched := ReadEndingWith(format, verified, m, mapping, j);
      assert t in MapOf(enriched) && MapOf(enriched)[t] == Null;
      assert Enriches(format, verified, Some(info), mapping, enriched);
    }
  }

  lemma UserInfoPanicHappens(
    format: Format, decoded: View, raw: Object, userInfo: Option<Object>, mapping: map<string, string>)
    requires WellTyped(decoded) && UserInfoPanics(decoded.fields, mapping, userInfo)
    ensures PipelinePanics(format, decoded, raw, userInfo, mapping)
  {
    var fields, info := decoded.fields, userInfo.value;
    if NoNullLists(fields, raw) {
      var order := SomeOrder(raw.Keys);
      var verified := ReadInOrder(format, decoded, raw, mapping, order);
      EnrichmentPanics(format, verified, info, mapping);
    }
  }

  lemma EnrichmentPanics(format: Format, verified: View, info: Object, mapping: map<string, string>)
    requires WellTyped(verified) && UserInfoPanics(verified.fields, mapping, Some(info))
    ensures LaterPanic(format, verified, Some(info), mapping)
  {
    var k :| k in info && IsNullList(verified.fields, mapping, info, k);
    var m := MapOf(verified) + info;
    assert k in m && m[k] == Null;
    if NoNullLists(verified.fields, m) {
      var t := Rename(verified.fields, mapping, k);
      var enriched := ReadEndingWith(format, verified, m, mapping, k);
      assert t in MapOf(enriched) && MapOf(enriched)[t] == Null;
      assert Enriches(format, verified, Some(info), mapping, enriched);
    }
  }

  lemma PanicHasCause(
    format: Format, decoded: View, raw: Object, userInfo: Option<Object>, mapping: map<string, string>)
    requires WellTyped(decoded) && PipelinePanics(format, decoded, raw, userInfo, mapping)
    ensures TokenPanics(decoded.fields, mapping, raw, userInfo) || UserInfoPanics(decoded.fields, mapping, userInfo)
      || TokenPanicsLater(decoded.fields, mapping, raw, userInfo)
  {
    if !NoNullLists(decoded.fields, raw) {
      var k :| k in raw && KindOf(decoded.fields, k) == Raw && raw[k] == Null;
      assert IsNullList(decoded.fields, mapping, raw, k);
    } else {
      var verified: View :|
        Converts(format, decoded, raw, mapping, verified) && LaterPanic(format, verified, userInfo, mapping);
      LaterPanicHasCause(format, decoded, raw, userInfo, mapping, verified);
    }
  }

  /**
   * A request can panic exactly when UserInfo has a null that is read into `groups` or `roles`, or
   * the token has one that UserInfo does not replace before it is; under a settled mapping the
   * token's can be renamed there only once.
   */
  lemma PanicsIff(
    format: Format, decoded: View, raw: Object, userInfo: Option<Object>, mapping: map<string, string>)
    requires WellTyped(decoded)
    ensures PipelinePanics(format, decoded, raw, userInfo, mapping) <==>
      || TokenPanics(decoded.fields, mapping, raw, userInfo)
      || TokenPanicsLater(decoded.fields, mapping, raw, userInfo)
      || UserInfoPanics(decoded.fields, mapping, userInfo)
    ensures Settled(decoded.fields, mapping) ==> !TokenPanicsLater(decoded.fields, mapping, raw, userInfo)
  {
    if TokenPanics(decoded.fields, mapping, raw, userInfo) {
      TokenPanicHappens(format, decoded, raw, userInfo, mapping);
    }
    if TokenPanicsLater(decoded.fields, mapping, raw, userInfo) {
      TokenPanicHappensLater(format, decoded, raw, userInfo, mapping);
    }
    if UserInfoPanics(decoded.fields, mapping, userInfo) {
      UserInfoPanicHappens(format, decoded, raw, userInfo, mapping);
    }
    if PipelinePanics(format, decoded, raw, userInfo, mapping) {
      PanicHasCause(format, decoded, raw, userInfo, mapping);
    }
  }

  /** A request that cannot panic has a context, whatever its mapping. */
  lemma PanicsOrConverts(
    format: Format, decoded: View, raw: Object, userInfo: Option<Object>, user: string, tag: string,
    mapping: map<string, string>)
    returns (last: View)
    requires WellTyped(decoded) && !PipelinePanics(format, decoded, raw, userInfo, mapping)
    ensures Pipeline(format, decoded, raw, userInfo, user, tag, mapping, last)
  {
    var order := SomeOrder(raw.Keys);
    var verified := ReadInOrder(format, decoded, raw, mapping, order);
    assert !LaterPanic(format, verified, userInfo, mapping);
    var enriched := EnrichmentOf(format, verified, userInfo, mapping);
    ClientIsNoList(enriched, user, tag);
    var m := WithClient(MapOf(enriched), user, tag);
    order := SomeOrder(m.Keys);
    last := ReadInOrder(format, enriched, m, mapping, order);
    assert Identifies(format, enriched, user, tag, mapping, last);
  }

  lemma EnrichmentOf(format: Format, verified: View, userInfo: Option<Object>, mapping: map<string, string>)
    returns (enriched: View)
    requires WellTyped(verified) && !LaterPanic(format, verified, userInfo, mapping)
    ensures Enriches(format, verified, userInfo, mapping, enriched) && WellTyped(enriched)
    ensures NoNullLists(enriched.fields, MapOf(enriched))
  {
    enriched := verified;
    if userInfo.Some? {
      var m := MapOf(verified) + userInfo.value;
      var order := SomeOrder(m.Keys);
      enriched := ReadInOrder(format, verified, m, mapping, order);
    }
    assert Enriches(format, verified, userInfo, mapping, enriched);
  }
}
