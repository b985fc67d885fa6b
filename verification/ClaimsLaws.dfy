/** Stability of claims under repeated conversion, and independence from map order. */
module ClaimsLaws {
  import opened Values
  import opened Claims

  // ---- Map order ------------------------------------------------------------------------

  /** Claims that end up under the same key carry the same value. */
  predicate NoConflict(fields: Fields, m: Object, mapping: map<string, string>) {
    forall a, b | a in m && b in m && a !in fields && b !in fields
      && Rename(fields, mapping, a) == Rename(fields, mapping, b) :: m[a] == m[b]
  }

  /** Under key `t` stands the claim of the last name in the order that is kept there. */
  lemma {:induction false} StoreContents(
    fields: Fields, m: Object, mapping: map<string, string>, order: seq<string>, t: string)
    requires forall k | k in order :: k in m
    ensures t in Store(fields, m, mapping, order) <==>
      exists k :: k in order && k !in fields && Rename(fields, mapping, k) == t
    ensures t in Store(fields, m, mapping, order) ==>
      exists k | k in order && k !in fields && Rename(fields, mapping, k) == t ::
        Store(fields, m, mapping, order)[t] == m[k]
  {
    if order != [] {
      var init, k := order[..|order| - 1], order[|order| - 1];
      assert order == init + [k];
      StoreContents(fields, m, mapping, init, t);
      if k !in fields && Rename(fields, mapping, k) == t {
        assert k in order && Store(fields, m, mapping, order)[t] == m[k];
      } else if t in Store(fields, m, mapping, init) {
        var j :| j in init && j !in fields && Rename(fields, mapping, j) == t && Store(fields, m, mapping, init)[t] == m[j];
        assert j in order;
      }
    }
  }

  lemma SameStore(fields: Fields, m: Object, mapping: map<string, string>, a: seq<string>, b: seq<string>)
    requires NoConflict(fields, m, mapping) && Enumerates(a, m.Keys) && Enumerates(b, m.Keys)
    ensures Store(fields, m, mapping, a) == Store(fields, m, mapping, b)
  {
    var l, r := Store(fields, m, mapping, a), Store(fields, m, mapping, b);
    forall t
      ensures t in l <==> t in r
      ensures t in l ==> l[t] == r[t]
    {
      StoreContents(fields, m, mapping, a, t);
      StoreContents(fields, m, mapping, b, t);
    }
  }

  lemma {:induction false} SomeOrder(keys: set<string>) returns (order: seq<string>)
    ensures Enumerates(order, keys)
    decreases keys
  {
    if keys == {} {
      order := [];
    } else {
      var k :| k in keys;
      var rest := SomeOrder(keys - {k});
      order := rest + [k];
    }
  }

  /**
   * Go walks a map in any order. Every walk stores the same custom claims exactly when no two
   * claims with different values are kept under one key.
   */
  lemma OrderIrrelevantIff(fields: Fields, m: Object, mapping: map<string, string>)
    ensures (forall a, b | Enumerates(a, m.Keys) && Enumerates(b, m.Keys) ::
               Store(fields, m, mapping, a) == Store(fields, m, mapping, b))
      <==> NoConflict(fields, m, mapping)
  {
    if NoConflict(fields, m, mapping) {
      forall a, b | Enumerates(a, m.Keys) && Enumerates(b, m.Keys)
        ensures Store(fields, m, mapping, a) == Store(fields, m, mapping, b)
      {
        SameStore(fields, m, mapping, a, b);
      }
    } else {
      var a, b :| a in m && b in m && a !in fields && b !in fields
        && Rename(fields, mapping, a) == Rename(fields, mapping, b) && m[a] != m[b];
      var x, y := ConflictShows(fields, m, mapping, a, b);
    }
  }

  /** Two walks that end with conflicting claims, in either order. */
  lemma ConflictShows(fields: Fields, m: Object, mapping: map<string, string>, a: string, b: string)
    returns (x: seq<string>, y: seq<string>)
    requires a in m && b in m && a !in fields && b !in fields && m[a] != m[b]
    requires Rename(fields, mapping, a) == Rename(fields, mapping, b)
    ensures Enumerates(x, m.Keys) && Enumerates(y, m.Keys)
    ensures Store(fields, m, mapping, x) != Store(fields, m, mapping, y)
  {
    var rest := SomeOrder(m.Keys - {a, b});
    x, y := rest + [a] + [b], rest + [b] + [a];
    EndsEnumerate(m.Keys, rest, a, b);
    EndsEnumerate(m.Keys, rest, b, a);
    StoreLast(fields, m, mapping, rest + [a], b);
    StoreLast(fields, m, mapping, rest + [b], a);
  }

  lemma StoreLast(fields: Fields, m: Object, mapping: map<string, string>, init: seq<string>, k: string)
    requires k !in fields && forall n | n in init + [k] :: n in m
    ensures var s := Store(fields, m, mapping, init + [k]); var t := Rename(fields, mapping, k);
      t in s && s[t] == m[k]
  {
    assert (init + [k])[..|init|] == init;
  }

  lemma EndsEnumerate(keys: set<string>, rest: seq<string>, a: string, b: string)
    requires a in keys && b in keys && a != b && Enumerates(rest, keys - {a, b})
    ensures Enumerates(rest + [a] + [b], keys)
  {
  }

  // ---- Reading back what was written ------------------------------------------------------

  /** Mapping a second time changes no name: no target is itself a source of another. */
  predicate Settled(fields: Fields, mapping: map<string, string>) {
    forall s | s in mapping && s !in fields :: Rename(fields, mapping, mapping[s]) == mapping[s]
  }

  /** Every custom claim already has the name that the mapping gives it. */
  predicate Renamed(c: View, mapping: map<string, string>) {
    forall k | k in c.custom :: Rename(c.fields, mapping, k) == k
  }

  lemma ReadsAreRenamed(format: Format, c: View, m: Object, mapping: map<string, string>, after: View)
    requires WellTyped(c) && Settled(c.fields, mapping) && Reads(format, c, m, mapping, after)
    ensures Renamed(after, mapping)
  {
    var order :| Enumerates(order, m.Keys) && after.custom == Store(c.fields, m, mapping, order);
    forall t | t in after.custom
      ensures Rename(c.fields, mapping, t) == t
    {
      StoreContents(c.fields, m, mapping, order, t);
    }
  }

  /**
   * One conversion gives every custom claim its final name, whatever the struct, the claims and
   * the order of the map, exactly when the mapping is settled.
   */
  lemma SettledIff(format: Format, fields: Fields, mapping: map<string, string>)
    requires ValidFields(fields)
    ensures Settled(fields, mapping) <==>
      (forall c: View, m: Object, after: View
        | WellTyped(c) && c.fields == fields && Reads(format, c, m, mapping, after) :: Renamed(after, mapping))
  {
    if Settled(fields, mapping) {
      forall c: View, m: Object, after: View
        | WellTyped(c) && c.fields == fields && Reads(format, c, m, mapping, after)
        ensures Renamed(after, mapping)
      {
        ReadsAreRenamed(format, c, m, mapping, after);
      }
    } else {
      var x :| x in mapping && x !in fields && Rename(fields, mapping, mapping[x]) != mapping[x];
      var c := View(fields, map k | k in fields :: Zero(fields[k]), map[]);
      var after := ReadOfOne(format, c, mapping, x);
      assert !Renamed(after, mapping);
    }
  }

  /** Reading a single mapped claim keeps it under its target. */
  lemma ReadOfOne(format: Format, c: View, mapping: map<string, string>, x: string) returns (after: View)
    requires WellTyped(c) && x in mapping && x !in c.fields
    ensures Reads(format, c, map[x := Null], mapping, after)
    ensures after.fields == c.fields && mapping[x] in after.custom
  {
    var m: Object := map[x := Null];
    var order := [x];
    assert Enumerates(order, m.Keys);
    after := View(c.fields, StandardFrom(format, c.fields, c.standard, m), Store(c.fields, m, mapping, order));
    StoreContents(c.fields, m, mapping, order, mapping[x]);
    assert x in order && Rename(c.fields, mapping, x) == mapping[x];
  }

  /** What an IdP's claims checks ask of a struct, in terms of its map and its audiences. */
  lemma SpecMeaning(spec: Spec, c: View, audience: seq<string>)
    requires WellTyped(c) && c.standard["aud"] == StrList(audience)
    ensures Meets(spec, c) <==>
      && (forall i | 0 <= i < |spec.required| :: spec.required[i] in MapOf(c))
      && (!spec.skipAudience && |spec.audience| > 0 ==>
            exists i, j | 0 <= i < |audience| && 0 <= j < |spec.audience| :: audience[i] == spec.audience[j])
  {
    if i, j :| 0 <= i < |audience| && 0 <= j < |spec.audience| && audience[i] == spec.audience[j] {
      assert audience[i] in audience && audience[i] in spec.audience;
    }
    if SharesAudience(StrList(audience), spec.audience) {
      var a :| a in audience && a in spec.audience;
      var i :| 0 <= i < |audience| && audience[i] == a;
      var j :| 0 <= j < |spec.audience| && spec.audience[j] == a;
    }
  }

  /** What the audience field takes: a string alone, a list as it is, a generic list text by text. */
  lemma AudienceMeaning(format: Format, field: Value, v: Value)
    ensures var r := Convert(format, Audience, field, v);
      && (v.Str? ==> r == StrList([v.s]))
      && (v.StrList? ==> r == v)
      && (v.List? ==>
            && r.StrList? && |r.strings| == |v.items|
            && forall i | 0 <= i < |v.items| :: r.strings[i] ==
                 match v.items[i] case Str(s) => s case Null => "" case _ => format(v.items[i]))
      && (!v.Str? && !v.StrList? && !v.List? ==> r == field)
  {
  }

  /** What the other fields take: texts as they are or formatted, only a true flag, only numbers. */
  lemma FieldMeaning(format: Format, field: Value, v: Value)
    ensures Convert(format, Text, field, v) ==
      match v case Str(s) => v case Null => Str("") case _ => Str(format(v))
    ensures Convert(format, Flag, field, v) == if v == Bool(true) then Bool(true) else Bool(false)
    ensures Convert(format, Number, field, v) == if v.Num? then v else Num(0)
    ensures Convert(format, Raw, field, v) == v
  {
  }

  /**
   * The map of a struct, name by name: a custom claim as it is; else a standard one unless it is
   * empty, a list of audiences as a generic list.
   */
  lemma MapMeaning(c: View, k: string)
    requires WellTyped(c)
    ensures k in c.custom ==> k in MapOf(c) && MapOf(c)[k] == c.custom[k]
    ensures k !in c.custom && k !in c.fields ==> k !in MapOf(c)
    ensures k !in c.custom && k in c.fields ==>
      var v := c.standard[k];
      && (k in MapOf(c) <==>
            !(v == Null || (c.fields[k] == Text && v == Str("")) || (c.fields[k] == Flag && v == Bool(false))
              || (c.fields[k] == Number && v == Num(0)) || (c.fields[k] == Audience && v == StrList([]))))
      && (k in MapOf(c) && !v.StrList? && !v.List? && !v.Map? && !v.StrMap? ==> MapOf(c)[k] == v)
      && (k in MapOf(c) && v.StrList? ==>
            && MapOf(c)[k].List? && |MapOf(c)[k].items| == |v.strings|
            && forall i | 0 <= i < |v.strings| :: MapOf(c)[k].items[i] == Str(v.strings[i]))
  {
  }

  /** A custom claim under a standard name that its struct field can hold and show again. */
  predicate Faithful(kind: Kind, v: Value) {
    match kind
    case Text => v.Str? && v.s != ""
    case Flag => v == Bool(true)
    case Number => v.Num? && v.n != 0
    case Audience => v.List? && v.items != [] && forall i | i in v.items :: i.Str?
    case Raw => v != Null && Json(v) == v
    case Custom => true
  }

  lemma {:induction false} JsonTwice(v: Value)
    ensures Json(Json(v)) == Json(v)
    decreases v
  {
    match v
    case List(items) =>
      forall i | 0 <= i < |items|
        ensures Json(Json(items[i])) == Json(items[i])
      {
        JsonTwice(items[i]);
      }
    case Map(fields) =>
      forall k | k in fields
        ensures Json(Json(fields[k])) == Json(fields[k])
      {
        JsonTwice(fields[k]);
      }
    case StrMap(entries) =>
    case _ =>
  }

  function Shown(kind: Kind, field: Value): Option<Value> {
    if field == Zero(kind) then None else Some(Json(field))
  }

  /** A field shows a claim unchanged exactly when the claim is faithful to its kind. */
  lemma FaithfulMeaning(format: Format, kind: Kind, field: Value, v: Value)
    requires Typed(kind, field) && kind != Custom && (kind == Raw ==> v != Null)
    ensures Shown(kind, Convert(format, kind, field, v)) == Some(v) <==> Faithful(kind, v)
  {
    if kind == Audience && v.List? {
      var texts := seq(|v.items|, i requires 0 <= i < |v.items| => ToText(format, v.items[i]));
      var shown := Json(StrList(texts));
      assert forall i | 0 <= i < |v.items| :: shown.items[i] == Str(texts[i]);
      if forall i | i in v.items :: i.Str? {
        assert forall i | 0 <= i < |v.items| :: v.items[i] in v.items;
        assert shown.items == v.items;
      } else {
        var i :| 0 <= i < |v.items| && !v.items[i].Str?;
        assert shown.items[i] != v.items[i];
      }
      assert texts == [] <==> v.items == [];
    }
  }

  /** A field shown as a claim is read back as the same claim. */
  lemma FieldReadsBack(format: Format, kind: Kind, field: Value)
    requires Typed(kind, field) && kind != Custom && field != Zero(kind)
    ensures Shown(kind, Convert(format, kind, field, Json(field))) == Some(Json(field))
  {
    JsonTwice(field);
    FaithfulMeaning(format, kind, field, Json(field));
    if field.StrList? {
      assert forall i | i in Json(field).items :: i.Str?;
    }
  }

  /** The custom claims kept when a struct is written out and read back. */
  lemma CustomReadsBack(format: Format, c: View, mapping: map<string, string>, after: View)
    requires WellTyped(c) && Renamed(c, mapping)
    requires Reads(format, c, MapOf(c), mapping, after)
    ensures forall k :: k in after.custom <==> k in c.custom && k !in c.fields
    ensures forall k | k in after.custom :: after.custom[k] == c.custom[k]
  {
    var m := MapOf(c);
    var order :| Enumerates(order, m.Keys) && after.custom == Store(c.fields, m, mapping, order);
    forall t
      ensures t in after.custom <==> t in c.custom && t !in c.fields
      ensures t in after.custom ==> after.custom[t] == c.custom[t]
    {
      StoreContents(c.fields, m, mapping, order, t);
      assert forall k | k in m && k !in c.fields :: k in c.custom && Rename(c.fields, mapping, k) == k;
      if t in c.custom && t !in c.fields {
        assert t in order && Rename(c.fields, mapping, t) == t;
      }
    }
  }

  lemma StandardReadsBack(format: Format, c: View, mapping: map<string, string>, after: View, k: string)
    requires WellTyped(c) && Renamed(c, mapping) && NoNullLists(c.fields, MapOf(c)) && k in c.fields
    requires Reads(format, c, MapOf(c), mapping, after) && WellTyped(after)
    ensures k in c.custom ==> (Lookup(MapOf(after), k) == Some(c.custom[k]) <==> Faithful(KindOf(c.fields, k), c.custom[k]))
    ensures k !in c.custom ==> Lookup(MapOf(after), k) == Lookup(MapOf(c), k)
  {
    CustomReadsBack(format, c, mapping, after);
    var field := c.standard[k];
    assert Lookup(MapOf(after), k) == Shown(KindOf(c.fields, k), after.standard[k]);
    if k in c.custom {
      FaithfulMeaning(format, KindOf(c.fields, k), field, c.custom[k]);
    } else if field != Zero(KindOf(c.fields, k)) {
      FieldReadsBack(format, KindOf(c.fields, k), field);
    }
  }

  lemma ClaimReadsBack(format: Format, c: View, mapping: map<string, string>, after: View, k: string)
    requires WellTyped(c) && WellTyped(after) && Renamed(c, mapping) && NoNullLists(c.fields, MapOf(c))
    requires Reads(format, c, MapOf(c), mapping, after)
    ensures Lookup(MapOf(after), k) == Lookup(MapOf(c), k) <==>
      (k in c.custom ==> Faithful(KindOf(c.fields, k), c.custom[k]))
  {
    if k in c.fields {
      StandardReadsBack(format, c, mapping, after, k);
    } else {
      CustomReadsBack(format, c, mapping, after);
    }
  }

  function Lookup(m: Object, k: string): Option<Value> {
    if k in m then Some(m[k]) else None
  }

  /**
   * Writing a struct out and reading it back leaves its map unchanged exactly when every
   * custom claim under a standard name is faithful to that name's field.
   */
  lemma ReadBackIff(format: Format, c: View, mapping: map<string, string>, after: View)
    requires WellTyped(c) && WellTyped(after) && Renamed(c, mapping) && NoNullLists(c.fields, MapOf(c))
    requires Reads(format, c, MapOf(c), mapping, after)
    ensures MapOf(after) == MapOf(c) <==> forall k | k in c.custom :: Faithful(KindOf(c.fields, k), c.custom[k])
  {
    forall k
      ensures Lookup(MapOf(after), k) == Lookup(MapOf(c), k) <==>
        (k in c.custom ==> Faithful(KindOf(c.fields, k), c.custom[k]))
    {
      ClaimReadsBack(format, c, mapping, after, k);
    }
    if MapOf(after) == MapOf(c) {
      forall k | k in c.custom
        ensures Faithful(KindOf(c.fields, k), c.custom[k])
      {
        assert Lookup(MapOf(after), k) == Lookup(MapOf(c), k);
      }
    }
    if forall k | k in c.custom :: Faithful(KindOf(c.fields, k), c.custom[k]) {
      SameLookups(MapOf(after), MapOf(c));
    }
  }

  lemma SameLookups(a: Object, b: Object)
    requires forall k :: Lookup(a, k) == Lookup(b, k)
    ensures a == b
  {
    forall k
      ensures k in a <==> k in b
      ensures k in a ==> a[k] == b[k]
    {
      assert Lookup(a, k) == Lookup(b, k);
    }
  }

  /** After one round, faithful or not, the map never changes again. */
  lemma SecondRoundIsIdle(format: Format, c: View, mapping: map<string, string>, once: View, twice: View)
    requires WellTyped(c) && WellTyped(once) && WellTyped(twice) && Renamed(c, mapping)
    requires Reads(format, c, MapOf(c), mapping, once) && NoNullLists(c.fields, MapOf(once))
    requires Reads(format, once, MapOf(once), mapping, twice)
    ensures MapOf(twice) == MapOf(once)
  {
    CustomReadsBack(format, c, mapping, once);
    forall k | k in once.custom
      ensures Faithful(KindOf(c.fields, k), once.custom[k])
    {
    }
    ReadBackIff(format, once, mapping, twice);
  }

  /** The names that custom claims have after one more round. */
  function NextNames(c: View, mapping: map<string, string>): set<string> {
    set k | k in c.custom && k !in c.fields :: Rename(c.fields, mapping, k)
  }

  lemma RoundRenames(format: Format, c: View, mapping: map<string, string>, after: View)
    requires WellTyped(c) && Reads(format, c, MapOf(c), mapping, after)
    ensures after.custom.Keys == NextNames(c, mapping)
  {
    var m := MapOf(c);
    var order :| Enumerates(order, m.Keys) && after.custom == Store(c.fields, m, mapping, order);
    forall t
      ensures t in after.custom <==> t in NextNames(c, mapping)
    {
      StoreContents(c.fields, m, mapping, order, t);
    }
  }

  /**
   * Every round renames every custom claim, so one whose target is again a source moves on twice
   * in two rounds, and nothing keeps its first target there.
   */
  lemma UnsettledMappingKeepsRenaming(
    format: Format, c: View, mapping: map<string, string>, x: string, once: View, twice: View)
    requires x in c.custom && x !in c.fields && x in mapping
    requires mapping[x] !in c.fields && mapping[x] in mapping && WellTyped(c) && WellTyped(once)
    requires Reads(format, c, MapOf(c), mapping, once) && Reads(format, once, MapOf(once), mapping, twice)
    ensures once.custom.Keys == NextNames(c, mapping) && twice.custom.Keys == NextNames(once, mapping)
    ensures mapping[x] in once.custom && mapping[mapping[x]] in twice.custom
    ensures mapping[x] in twice.custom <==>
      exists k | k in once.custom :: k !in c.fields && Rename(c.fields, mapping, k) == mapping[x]
  {
    RoundRenames(format, c, mapping, once);
    RoundRenames(format, once, mapping, twice);
    assert Rename(c.fields, mapping, x) == mapping[x];
    assert Rename(c.fields, mapping, mapping[x]) == mapping[mapping[x]];
  }
}
