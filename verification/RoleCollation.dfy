/** Collating the roles of a binding into one set of permissions and limits (config_rbac.go). */
module RoleCollation {
  import opened Values

  /** The unlimited value of a NATS limit. */
  const NO_LIMIT: int := -1

  datatype Permissions = Permissions(
    pubAllow: seq<string>, pubDeny: seq<string>,
    subAllow: seq<string>, subDeny: seq<string>,
    respMaxMsgs: int, respExpires: int)

  datatype Limits = Limits(
    src: seq<string>, times: seq<string>, locale: string,
    subs: int, data: int, payload: int)

  datatype Role = Role(name: string, permissions: Permissions, limits: Limits)

  datatype Collated = Collated(permissions: Permissions, limits: Limits)

  // ---- Description of the collated result --------------------------------------------

  /** The elements of `s` without repeats, in order of first occurrence. */
  function FirstOccurrences(s: seq<string>): seq<string> {
    if s == [] then []
    else
      var init, last := s[..|s| - 1], s[|s| - 1];
      FirstOccurrences(init) + if last in init then [] else [last]
  }

  /** One list of every role, one after the other. */
  function Gather(roles: seq<Role>, field: Role -> seq<string>): seq<string> {
    if roles == [] then [] else Gather(roles[..|roles| - 1], field) + field(roles[|roles| - 1])
  }

  /** The last positive number of the roles, zero when there is none. */
  function LastPositive(roles: seq<Role>, field: Role -> int): int {
    if roles == [] then 0
    else
      var last := field(roles[|roles| - 1]);
      if last > 0 then last else LastPositive(roles[..|roles| - 1], field)
  }

  function PubAllow(r: Role): seq<string> { r.permissions.pubAllow }
  function PubDeny(r: Role): seq<string> { r.permissions.pubDeny }
  function SubAllow(r: Role): seq<string> { r.permissions.subAllow }
  function SubDeny(r: Role): seq<string> { r.permissions.subDeny }
  function Src(r: Role): seq<string> { r.limits.src }
  function MaxMsgs(r: Role): int { r.permissions.respMaxMsgs }
  function Expires(r: Role): int { r.permissions.respExpires }

  function Summary(roles: seq<Role>): Collated {
    Collated(
      Permissions(
        FirstOccurrences(Gather(roles, PubAllow)), FirstOccurrences(Gather(roles, PubDeny)),
        FirstOccurrences(Gather(roles, SubAllow)), FirstOccurrences(Gather(roles, SubDeny)),
        LastPositive(roles, MaxMsgs), LastPositive(roles, Expires)),
      if roles == [] then Limits([], [], "", NO_LIMIT, NO_LIMIT, NO_LIMIT)
      else roles[|roles| - 1].limits.(src := FirstOccurrences(Gather(roles, Src))))
  }

  /** The first configured role of that name. */
  function Find(all: seq<Role>, name: string): Option<Role> {
    if all == [] then None else if all[0].name == name then Some(all[0]) else Find(all[1..], name)
  }

  predicate Known(all: seq<Role>, names: seq<string>) {
    forall n | n in names :: Find(all, n).Some?
  }

  function Resolved(all: seq<Role>, names: seq<string>): seq<Role>
    requires Known(all, names)
  {
    seq(|names|, i requires 0 <= i < |names| => Find(all, names[i]).value)
  }

  function FirstUnknown(all: seq<Role>, names: seq<string>): (n: string)
    requires !Known(all, names)
    ensures n in names && Find(all, n).None?
  {
    if Find(all, names[0]).None? then names[0] else FirstUnknown(all, names[1..])
  }

  /** What a list of role names stands for; an unknown name is the error. */
  function Collate(all: seq<Role>, names: seq<string>): Result<Collated, string> {
    if Known(all, names) then Ok(Summary(Resolved(all, names))) else Err(FirstUnknown(all, names))
  }

  // ---- The code ----------------------------------------------------------------------

  /** Appends to `list` each of `items` that it does not hold yet (`StringList.Add`). */
  method Add(list: seq<string>, items: seq<string>, ghost added: seq<string>) returns (r: seq<string>)
    requires list == FirstOccurrences(added)
    ensures r == FirstOccurrences(added + items)
  {
    r := list;
    assert added + items[..0] == added;
    for i := 0 to |items|
      invariant r == FirstOccurrences(added + items[..i])
    {
      ghost var soFar := added + items[..i];
      ghost var next := added + items[..i + 1];
      assert next[..|next| - 1] == soFar && next[|next| - 1] == items[i];
      FirstOccurrencesMembers(soFar);
      if items[i] !in r {
        r := r + [items[i]];
      }
    }
    assert items[..|items|] == items;
  }

  /** The permissions and limits under construction, updated in place role by role. */
  class Collation {
    var permissions: Permissions
    var limits: Limits

    constructor ()
      ensures View() == Summary([])
    {
      permissions := Permissions([], [], [], [], 0, 0);
      limits := Limits([], [], "", NO_LIMIT, NO_LIMIT, NO_LIMIT);
    }

    function View(): Collated
      reads this
    {
      Collated(permissions, limits)
    }

    method CollatePermissions(other: Permissions, ghost before: seq<Role>, ghost role: Role)
      requires permissions == Summary(before).permissions && other == role.permissions
      modifies this`permissions
      ensures permissions == Summary(before + [role]).permissions
    {
      GatherSnoc(before, role);
      LastPositiveSnoc(before, role);
      var pubAllow := Add(permissions.pubAllow, other.pubAllow, Gather(before, PubAllow));
      var pubDeny := Add(permissions.pubDeny, other.pubDeny, Gather(before, PubDeny));
      var subAllow := Add(permissions.subAllow, other.subAllow, Gather(before, SubAllow));
      var subDeny := Add(permissions.subDeny, other.subDeny, Gather(before, SubDeny));
      permissions := permissions.(pubAllow := pubAllow, pubDeny := pubDeny,
                                  subAllow := subAllow, subDeny := subDeny);
      if other.respExpires > 0 {
        permissions := permissions.(respExpires := other.respExpires);
      }
      if other.respMaxMsgs > 0 {
        permissions := permissions.(respMaxMsgs := other.respMaxMsgs);
      }
    }

    method CollateLimits(other: Limits, ghost before: seq<Role>, ghost role: Role)
      requires limits == Summary(before).limits && other == role.limits
      modifies this`limits
      ensures limits == Summary(before + [role]).limits
    {
      GatherSnoc(before, role);
      var src := Add(limits.src, other.src, Gather(before, Src));
      limits := limits.(src := src, times := other.times, locale := other.locale);
      limits := limits.(subs := other.subs, data := other.data, payload := other.payload);
    }

    method AddRole(role: Role, ghost before: seq<Role>)
      requires View() == Summary(before)
      modifies this
      ensures View() == Summary(before + [role])
    {
      CollatePermissions(role.permissions, before, role);
      CollateLimits(role.limits, before, role);
    }
  }

  lemma ResolvedSnoc(all: seq<Role>, names: seq<string>, name: string)
    requires Known(all, names) && Find(all, name).Some?
    ensures Known(all, names + [name])
    ensures Resolved(all, names + [name]) == Resolved(all, names) + [Find(all, name).value]
  {
  }

  method LookupRole(all: seq<Role>, name: string) returns (role: Option<Role>)
    ensures role == Find(all, name)
  {
    for i := 0 to |all|
      invariant Find(all, name) == Find(all[i..], name)
    {
      if all[i].name == name {
        return Some(all[i]);
      }
    }
    return None;
  }

  method CollateRoles(all: seq<Role>, names: seq<string>) returns (r: Result<Collated, string>)
    ensures r == Collate(all, names)
  {
    var collation := new Collation();
    for i := 0 to |names|
      invariant Known(all, names[..i])
      invariant collation.View() == Summary(Resolved(all, names[..i]))
    {
      var role := LookupRole(all, names[i]);
      if role.None? {
        FirstUnknownAt(all, names, i);
        return Err(names[i]);
      }
      assert names[..i + 1] == names[..i] + [names[i]];
      ResolvedSnoc(all, names[..i], names[i]);
      collation.AddRole(role.value, Resolved(all, names[..i]));
    }
    assert names[..|names|] == names;
    return Ok(collation.View());
  }

  // ---- Laws --------------------------------------------------------------------------

  lemma {:induction false} FirstOccurrencesMembers(s: seq<string>)
    ensures forall x :: x in FirstOccurrences(s) <==> x in s
  {
    if s != [] {
      FirstOccurrencesMembers(s[..|s| - 1]);
      assert s == s[..|s| - 1] + [s[|s| - 1]];
    }
  }

  /** Where `x` first stands in `s`. */
  function FirstIndex(s: seq<string>, x: string): nat
    requires x in s
  {
    if s[0] == x then 0 else 1 + FirstIndex(s[1..], x)
  }

  lemma {:induction false} FirstIndexMeaning(s: seq<string>, x: string)
    requires x in s
    ensures FirstIndex(s, x) < |s| && s[FirstIndex(s, x)] == x && x !in s[..FirstIndex(s, x)]
  {
    if s[0] != x {
      FirstIndexMeaning(s[1..], x);
      assert s[..FirstIndex(s, x)] == [s[0]] + s[1..][..FirstIndex(s[1..], x)];
    }
  }

  lemma {:induction false} FirstIndexOfPrefix(s: seq<string>, t: seq<string>, x: string)
    requires x in s
    ensures FirstIndex(s + t, x) == FirstIndex(s, x)
  {
    if s[0] != x {
      FirstIndexOfPrefix(s[1..], t, x);
      assert (s + t)[1..] == s[1..] + t;
    }
  }

  /** No repeats, and the order is that of first occurrence. */
  lemma {:induction false} FirstOccurrencesOrdered(s: seq<string>)
    ensures var f := FirstOccurrences(s);
            && (forall x | x in f :: x in s)
            && (forall i, j | 0 <= i < j < |f| :: FirstIndex(s, f[i]) < FirstIndex(s, f[j]))
  {
    FirstOccurrencesMembers(s);
    if s != [] {
      var init, last := s[..|s| - 1], s[|s| - 1];
      assert s == init + [last];
      FirstOccurrencesOrdered(init);
      FirstOccurrencesMembers(init);
      var f, g := FirstOccurrences(s), FirstOccurrences(init);
      forall i | 0 <= i < |g|
        ensures FirstIndex(s, g[i]) == FirstIndex(init, g[i]) < |init|
      {
        FirstIndexOfPrefix(init, [last], g[i]);
        FirstIndexMeaning(init, g[i]);
      }
      if last !in init {
        FirstIndexMeaning(s, last);
      }
      forall i, j | 0 <= i < j < |f|
        ensures FirstIndex(s, f[i]) < FirstIndex(s, f[j])
      {
        assert f[i] == g[i];
        if j < |g| {
          assert f[j] == g[j];
        } else {
          assert s[..|init|] == init && f[j] == last;
        }
      }
    }
  }

  lemma GatherSnoc(before: seq<Role>, role: Role)
    ensures Gather(before + [role], PubAllow) == Gather(before, PubAllow) + PubAllow(role)
    ensures Gather(before + [role], PubDeny) == Gather(before, PubDeny) + PubDeny(role)
    ensures Gather(before + [role], SubAllow) == Gather(before, SubAllow) + SubAllow(role)
    ensures Gather(before + [role], SubDeny) == Gather(before, SubDeny) + SubDeny(role)
    ensures Gather(before + [role], Src) == Gather(before, Src) + Src(role)
  {
    assert (before + [role])[..|before|] == before;
  }

  lemma LastPositiveSnoc(before: seq<Role>, role: Role)
    ensures LastPositive(before + [role], MaxMsgs) ==
            if MaxMsgs(role) > 0 then MaxMsgs(role) else LastPositive(before, MaxMsgs)
    ensures LastPositive(before + [role], Expires) ==
            if Expires(role) > 0 then Expires(role) else LastPositive(before, Expires)
  {
    assert (before + [role])[..|before|] == before;
  }

  lemma {:induction false} FirstUnknownAt(all: seq<Role>, names: seq<string>, i: nat)
    requires i < |names| && Known(all, names[..i]) && Find(all, names[i]).None?
    ensures !Known(all, names) && FirstUnknown(all, names) == names[i]
  {
    assert names[i] in names;
    if i > 0 {
      assert names[0] in names[..i];
      assert names[1..][..i - 1] == names[..i][1..];
      FirstUnknownAt(all, names[1..], i - 1);
    }
  }

  lemma {:induction false} GatherMembers(roles: seq<Role>, field: Role -> seq<string>, x: string)
    ensures x in Gather(roles, field) <==> exists r :: r in roles && x in field(r)
  {
    if roles != [] {
      var init, last := roles[..|roles| - 1], roles[|roles| - 1];
      assert roles == init + [last];
      GatherMembers(init, field, x);
    }
  }

  lemma SameMembers(a: seq<Role>, b: seq<Role>, field: Role -> seq<string>, x: string)
    requires forall r :: r in a <==> r in b
    ensures x in FirstOccurrences(Gather(a, field)) <==> x in FirstOccurrences(Gather(b, field))
  {
    FirstOccurrencesMembers(Gather(a, field));
    FirstOccurrencesMembers(Gather(b, field));
    GatherMembers(a, field, x);
    GatherMembers(b, field, x);
  }

  /** Reordering or repeating the roles of a binding grants and denies the same subjects. */
  lemma RoleOrderKeepsSubjects(all: seq<Role>, a: seq<string>, b: seq<string>, x: string)
    requires forall n :: n in a <==> n in b
    ensures Collate(all, a).Ok? <==> Collate(all, b).Ok?
    ensures Collate(all, a).Ok? ==>
              var l, r := Collate(all, a).value, Collate(all, b).value;
              && (x in l.permissions.pubAllow <==> x in r.permissions.pubAllow)
              && (x in l.permissions.pubDeny <==> x in r.permissions.pubDeny)
              && (x in l.permissions.subAllow <==> x in r.permissions.subAllow)
              && (x in l.permissions.subDeny <==> x in r.permissions.subDeny)
              && (x in l.limits.src <==> x in r.limits.src)
  {
    if Known(all, a) {
      ResolvedMembers(all, a, b);
      ResolvedMembers(all, b, a);
      var l, r := Resolved(all, a), Resolved(all, b);
      SameMembers(l, r, PubAllow, x);
      SameMembers(l, r, PubDeny, x);
      SameMembers(l, r, SubAllow, x);
      SameMembers(l, r, SubDeny, x);
      SameMembers(l, r, Src, x);
    }
  }

  lemma ResolvedMembers(all: seq<Role>, a: seq<string>, b: seq<string>)
    requires Known(all, a) && Known(all, b) && forall n | n in a :: n in b
    ensures forall r | r in Resolved(all, a) :: r in Resolved(all, b)
  {
    forall r | r in Resolved(all, a)
      ensures r in Resolved(all, b)
    {
      var i :| 0 <= i < |a| && Resolved(all, a)[i] == r;
      assert a[i] in b;
      var j :| 0 <= j < |b| && b[j] == a[i];
      assert Resolved(all, b)[j] == r;
    }
  }

  /** Response limits come from the last role that sets one; the others never matter. */
  lemma {:induction false} LastPositiveMeaning(roles: seq<Role>, field: Role -> int)
    ensures var v := LastPositive(roles, field);
            || (v == 0 && forall r | r in roles :: field(r) <= 0)
            || (v > 0 && exists i | 0 <= i < |roles| ::
                  field(roles[i]) == v && forall j | i < j < |roles| :: field(roles[j]) <= 0)
  {
    if roles != [] {
      var init, last := roles[..|roles| - 1], roles[|roles| - 1];
      assert roles == init + [last];
      LastPositiveMeaning(init, field);
      var v := LastPositive(roles, field);
      if field(last) > 0 {
        assert field(roles[|roles| - 1]) == v;
      } else if v > 0 {
        var i :| 0 <= i < |init| && field(init[i]) == v && forall j | i < j < |init| :: field(init[j]) <= 0;
        assert field(roles[i]) == v;
      }
    }
  }
}
