/** What collated roles mean, field by field, in terms of the configured roles alone. */
module RoleCollationLaws {
  import opened Values
  import opened RoleCollation

  /** The first role of the name, and none only when there is no such role. */
  lemma {:induction false} FindIsFirst(all: seq<Role>, name: string)
    ensures Find(all, name).None? <==> forall r | r in all :: r.name != name
    ensures Find(all, name).Some? ==> exists i | 0 <= i < |all| ::
      && Find(all, name).value == all[i] && all[i].name == name
      && forall j | 0 <= j < i :: all[j].name != name
  {
    if all != [] && all[0].name != name {
      FindIsFirst(all[1..], name);
      assert all == [all[0]] + all[1..];
      if Find(all, name).Some? {
        var i :| 0 <= i < |all[1..]| && Find(all, name).value == all[1..][i] && all[1..][i].name == name
          && forall j | 0 <= j < i :: all[1..][j].name != name;
        assert all[i + 1] == all[1..][i];
        assert forall j | 1 <= j < i + 1 :: all[j] == all[1..][j - 1];
      }
    }
  }

  lemma ListMembers(all: seq<Role>, names: seq<string>, field: Role -> seq<string>, x: string)
    requires Known(all, names)
    ensures x in FirstOccurrences(Gather(Resolved(all, names), field))
      <==> exists n :: n in names && x in field(Find(all, n).value)
  {
    var roles := Resolved(all, names);
    FirstOccurrencesMembers(Gather(roles, field));
    GatherMembers(roles, field, x);
    if r :| r in roles && x in field(r) {
      var i :| 0 <= i < |roles| && roles[i] == r;
      assert names[i] in names && Find(all, names[i]).value == r;
    }
    if n :| n in names && x in field(Find(all, n).value) {
      var i :| 0 <= i < |names| && names[i] == n;
      assert roles[i] in roles;
    }
  }

  /** A subject is allowed or denied, a source admitted, exactly where some named role says so. */
  lemma CollatedSubjects(all: seq<Role>, names: seq<string>, x: string)
    requires Collate(all, names).Ok?
    ensures forall n | n in names :: Find(all, n).Some?
    ensures var c := Collate(all, names).value;
      && (x in c.permissions.pubAllow <==> exists n :: n in names && x in Find(all, n).value.permissions.pubAllow)
      && (x in c.permissions.pubDeny <==> exists n :: n in names && x in Find(all, n).value.permissions.pubDeny)
      && (x in c.permissions.subAllow <==> exists n :: n in names && x in Find(all, n).value.permissions.subAllow)
      && (x in c.permissions.subDeny <==> exists n :: n in names && x in Find(all, n).value.permissions.subDeny)
      && (x in c.limits.src <==> exists n :: n in names && x in Find(all, n).value.limits.src)
  {
    ListMembers(all, names, PubAllow, x);
    ListMembers(all, names, PubDeny, x);
    ListMembers(all, names, SubAllow, x);
    ListMembers(all, names, SubDeny, x);
    ListMembers(all, names, Src, x);
  }

  predicate NoRepeats(s: seq<string>) {
    forall i, j | 0 <= i < j < |s| :: s[i] != s[j]
  }

  lemma FirstOccurrencesOnce(s: seq<string>)
    ensures NoRepeats(FirstOccurrences(s))
  {
    FirstOccurrencesOrdered(s);
  }

  lemma CollatedOnce(all: seq<Role>, names: seq<string>)
    requires Collate(all, names).Ok?
    ensures var c := Collate(all, names).value;
      && NoRepeats(c.permissions.pubAllow) && NoRepeats(c.permissions.pubDeny)
      && NoRepeats(c.permissions.subAllow) && NoRepeats(c.permissions.subDeny) && NoRepeats(c.limits.src)
  {
    var roles := Resolved(all, names);
    FirstOccurrencesOnce(Gather(roles, PubAllow));
    FirstOccurrencesOnce(Gather(roles, PubDeny));
    FirstOccurrencesOnce(Gather(roles, SubAllow));
    FirstOccurrencesOnce(Gather(roles, SubDeny));
    FirstOccurrencesOnce(Gather(roles, Src));
  }

  /** The other limits are those of the last role, unlimited and empty without one. */
  lemma CollatedLimits(all: seq<Role>, names: seq<string>)
    requires Collate(all, names).Ok?
    ensures var l := Collate(all, names).value.limits;
      names == [] ==> l.times == [] && l.locale == "" && l.subs == -1 && l.data == -1 && l.payload == -1
    ensures names != [] ==>
      && Find(all, names[|names| - 1]).Some?
      && var l, last := Collate(all, names).value.limits, Find(all, names[|names| - 1]).value.limits;
         && l.times == last.times && l.locale == last.locale
         && l.subs == last.subs && l.data == last.data && l.payload == last.payload
  {
  }

  /** `v` is the last positive number that the named roles have for a field, zero without one. */
  ghost predicate LastSet(all: seq<Role>, names: seq<string>, field: Role -> int, v: int)
    requires Known(all, names)
  {
    || (v == 0 && forall n | n in names :: field(Find(all, n).value) <= 0)
    || (v > 0 && exists i | 0 <= i < |names| ::
          && field(Find(all, names[i]).value) == v
          && forall j | i < j < |names| :: field(Find(all, names[j]).value) <= 0)
  }

  lemma LastPositiveIsLastSet(all: seq<Role>, names: seq<string>, field: Role -> int)
    requires Known(all, names)
    ensures LastSet(all, names, field, LastPositive(Resolved(all, names), field))
  {
    var roles := Resolved(all, names);
    LastPositiveMeaning(roles, field);
    var v := LastPositive(roles, field);
    if v > 0 {
      var i :| 0 <= i < |roles| && field(roles[i]) == v && forall j | i < j < |roles| :: field(roles[j]) <= 0;
      assert field(Find(all, names[i]).value) == v;
      assert forall j | i < j < |names| :: roles[j] == Find(all, names[j]).value;
    } else {
      forall n | n in names
        ensures field(Find(all, n).value) <= 0
      {
        var i :| 0 <= i < |names| && names[i] == n;
        assert roles[i] in roles;
      }
    }
  }

  /** Each response limit is the last positive one of its own kind. */
  lemma CollatedResponses(all: seq<Role>, names: seq<string>)
    requires Collate(all, names).Ok?
    ensures var p := Collate(all, names).value.permissions;
      && LastSet(all, names, (r: Role) => r.permissions.respMaxMsgs, p.respMaxMsgs)
      && LastSet(all, names, (r: Role) => r.permissions.respExpires, p.respExpires)
  {
    var m, x := (r: Role) => r.permissions.respMaxMsgs, (r: Role) => r.permissions.respExpires;
    LastPositiveIsLastSet(all, names, MaxMsgs);
    LastPositiveIsLastSet(all, names, Expires);
    SameField(all, names, MaxMsgs, m, LastPositive(Resolved(all, names), MaxMsgs));
    SameField(all, names, Expires, x, LastPositive(Resolved(all, names), Expires));
  }

  lemma SameField(all: seq<Role>, names: seq<string>, f: Role -> int, g: Role -> int, v: int)
    requires Known(all, names) && LastSet(all, names, f, v) && forall r: Role :: f(r) == g(r)
    ensures LastSet(all, names, g, v)
  {
    if v > 0 {
      var i :| 0 <= i < |names| && f(Find(all, names[i]).value) == v
        && forall j | i < j < |names| :: f(Find(all, names[j]).value) <= 0;
      assert g(Find(all, names[i]).value) == v;
    }
  }

  /** Collating fails exactly when a name is not configured, with the first such name. */
  lemma CollateFailsIff(all: seq<Role>, names: seq<string>)
    ensures Collate(all, names).Ok? <==> forall n | n in names :: exists r :: r in all && r.name == n
    ensures Collate(all, names).Err? ==> exists i | 0 <= i < |names| ::
      && Collate(all, names).error == names[i]
      && (forall r | r in all :: r.name != names[i])
      && forall j | 0 <= j < i :: exists r :: r in all && r.name == names[j]
  {
    forall n
      ensures Find(all, n).None? <==> forall r | r in all :: r.name != n
    {
      FindIsFirst(all, n);
    }
    if Collate(all, names).Err? {
      var i := LeastUnknown(all, names, 0);
      FirstUnknownAt(all, names, i);
      assert forall j | 0 <= j < i :: names[j] in names[..i];
    }
  }

  lemma LeastUnknown(all: seq<Role>, names: seq<string>, from: nat) returns (i: nat)
    requires from <= |names| && Known(all, names[..from]) && !Known(all, names)
    ensures i < |names| && Known(all, names[..i]) && Find(all, names[i]).None?
    decreases |names| - from
  {
    assert names[..|names|] == names;
    assert from < |names|;
    if Find(all, names[from]).None? {
      i := from;
    } else {
      assert names[..from + 1] == names[..from] + [names[from]];
      i := LeastUnknown(all, names, from + 1);
    }
  }
}
