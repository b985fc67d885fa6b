/** What a folded configuration contains, and when files may be grouped freely. */
module ConfigMergeLaws {
  import opened Values
  import opened ConfigMerge

  // ---- Independent description of the merged document --------------------------------

  datatype Shape = MapShape | ListShape | PrimitiveShape

  function ShapeOf(v: Value): Shape {
    if v.Map? then MapShape else if v.List? then ListShape else PrimitiveShape
  }

  /** The values that the files give to key `k`, in file order. */
  function ValuesAt(files: seq<Object>, k: string): seq<Value> {
    if files == [] then []
    else
      var last := files[|files| - 1];
      ValuesAt(files[..|files| - 1], k) + if k in last then [last[k]] else []
  }

  /** Where the longest stretch of one kind that ends before `n` begins. */
  function RunStart(vs: seq<Value>, n: nat): (start: nat)
    requires 0 < n <= |vs|
    ensures start < n
    ensures forall i | start <= i < n :: ShapeOf(vs[i]) == ShapeOf(vs[n - 1])
    ensures start > 0 ==> ShapeOf(vs[start - 1]) != ShapeOf(vs[start])
  {
    if n > 1 && ShapeOf(vs[n - 2]) == ShapeOf(vs[n - 1]) then RunStart(vs, n - 1) else n - 1
  }

  /** The longest suffix of `vs` whose values all have the kind of the last one. */
  function LastRun(vs: seq<Value>): (run: seq<Value>)
    requires vs != []
    ensures run != [] && run[|run| - 1] == vs[|vs| - 1] && SameShape(run)
  {
    vs[RunStart(vs, |vs|)..]
  }

  predicate SameShape(vs: seq<Value>) {
    forall i | 0 <= i < |vs| :: ShapeOf(vs[i]) == ShapeOf(vs[|vs| - 1])
  }

  function Flatten(vs: seq<Value>): seq<Value> {
    if vs == [] then []
    else Flatten(vs[..|vs| - 1]) + if vs[|vs| - 1].List? then vs[|vs| - 1].items else []
  }

  function Fields(v: Value): Object {
    if v.Map? then v.fields else map[]
  }

  function AllFields(vs: seq<Value>): seq<Object> {
    seq(|vs|, i requires 0 <= i < |vs| => Fields(vs[i]))
  }

  /** A run of one kind: primitives keep the last, lists concatenate, maps fold. */
  function Join(run: seq<Value>): Value
    requires run != []
  {
    var last := run[|run| - 1];
    match ShapeOf(last)
    case PrimitiveShape => last
    case ListShape => List(Flatten(run))
    case MapShape => Map(Fold(AllFields(run)))
  }

  /** The value at a path of keys below a document. */
  function Lookup(doc: Object, path: seq<string>): Option<Value>
    requires path != []
    decreases |path|
  {
    if path[0] !in doc then None
    else if |path| == 1 then Some(doc[path[0]])
    else if doc[path[0]].Map? then Lookup(doc[path[0]].fields, path[1..])
    else None
  }

  /** The run of values, one from each contributing file, that decides what stands at `path`. */
  function Contributors(files: seq<Object>, path: seq<string>): seq<Value>
    requires path != []
    decreases |path|
  {
    var vs := ValuesAt(files, path[0]);
    if vs == [] then []
    else
      var run := LastRun(vs);
      if |path| == 1 then run
      else if run[|run| - 1].Map? then Contributors(AllFields(run), path[1..])
      else []
  }

  lemma {:induction false} RunStartIsLocal(vs: seq<Value>, v: Value, n: nat)
    requires 0 < n <= |vs|
    ensures RunStart(vs + [v], n) == RunStart(vs, n)
  {
    if n > 1 {
      RunStartIsLocal(vs, v, n - 1);
    }
  }

  lemma LastRunSnoc(vs: seq<Value>, v: Value)
    requires vs != []
    ensures LastRun(vs + [v]) == if ShapeOf(vs[|vs| - 1]) == ShapeOf(v) then LastRun(vs) + [v] else [v]
  {
    RunStartIsLocal(vs, v, |vs|);
  }

  lemma JoinKeepsShape(run: seq<Value>)
    requires run != []
    ensures ShapeOf(Join(run)) == ShapeOf(run[|run| - 1])
  {
  }

  lemma JoinSnoc(run: seq<Value>, v: Value)
    requires run != [] && SameShape(run + [v])
    ensures Join(run + [v]) == Combine(Join(run), v)
  {
    var all := run + [v];
    assert all[..|run|] == run;
    assert ShapeOf(all[|run|]) == ShapeOf(all[|run| - 1]);
    if v.List? {
      JoinKeepsShape(run);
    } else if v.Map? {
      JoinKeepsShape(run);
      assert AllFields(all)[..|run|] == AllFields(run);
      assert Join(all) == Map(Fold(AllFields(all)));
      assert Fold(AllFields(all)) == Merge(Fold(AllFields(run)), v.fields);
    }
  }

  /** One more value at the end: it continues the last run, or starts a new one. */
  lemma JoinLastRun(vs: seq<Value>, v: Value)
    requires vs != []
    ensures Join(LastRun(vs + [v])) == Combine(Join(LastRun(vs)), v)
  {
    var run := LastRun(vs);
    LastRunSnoc(vs, v);
    JoinKeepsShape(run);
    if ShapeOf(vs[|vs| - 1]) == ShapeOf(v) {
      JoinSnoc(run, v);
    } else {
      JoinSingle(v);
    }
  }

  /** One level of the fold law: each key holds the join of its last run. */
  lemma {:induction false} KeyLaw(files: seq<Object>, k: string)
    ensures k in Fold(files) <==> ValuesAt(files, k) != []
    ensures k in Fold(files) ==> Fold(files)[k] == Join(LastRun(ValuesAt(files, k)))
  {
    if files != [] {
      var init, last := files[..|files| - 1], files[|files| - 1];
      KeyLaw(init, k);
      var before := ValuesAt(init, k);
      if k !in last {
        assert ValuesAt(files, k) == before;
      } else if before != [] {
        JoinLastRun(before, last[k]);
      } else {
        assert LastRun([last[k]]) == [last[k]];
        assert ValuesAt(files, k) == [last[k]];
        JoinSingle(last[k]);
      }
    }
  }

  lemma JoinSingle(v: Value)
    ensures Join([v]) == v
  {
    if v.Map? {
      var docs := AllFields([v]);
      assert docs == [v.fields] && docs[..|docs| - 1] == [];
      assert Fold(docs) == Merge(map[], v.fields) == v.fields;
    } else if v.List? {
      assert Flatten([v]) == Flatten([]) + v.items;
    }
  }

  /**
   * The fold law at every depth: what any list of files leaves at any path is the join of
   * the path's contributors, and nothing when it has none.
   */
  lemma {:induction false} PathLaw(files: seq<Object>, path: seq<string>)
    requires path != []
    ensures Lookup(Fold(files), path) ==
            if Contributors(files, path) == [] then None else Some(Join(Contributors(files, path)))
    decreases |path|
  {
    KeyLaw(files, path[0]);
    var vs := ValuesAt(files, path[0]);
    if vs != [] {
      var run := LastRun(vs);
      if |path| > 1 && run[|run| - 1].Map? {
        PathLaw(AllFields(run), path[1..]);
      }
    }
  }

  lemma {:induction false} ValuesAtConcat(xs: seq<Object>, ys: seq<Object>, k: string)
    ensures ValuesAt(xs + ys, k) == ValuesAt(xs, k) + ValuesAt(ys, k)
  {
    if ys == [] {
      assert xs + ys == xs;
    } else {
      ValuesAtConcat(xs, ys[..|ys| - 1], k);
      assert (xs + ys)[..|xs + ys| - 1] == xs + ys[..|ys| - 1];
    }
  }

  /** An empty file changes nothing, wherever it stands in the list. */
  lemma EmptyFileIsIdentity(xs: seq<Object>, ys: seq<Object>)
    ensures Fold(xs + [map[]] + ys) == Fold(xs + ys)
  {
    var l, r := Fold(xs + [map[]] + ys), Fold(xs + ys);
    forall k
      ensures k in l <==> k in r
      ensures k in l ==> l[k] == r[k]
    {
      KeyLaw(xs + [map[]] + ys, k);
      KeyLaw(xs + ys, k);
      ValuesAtConcat(xs + [map[]], ys, k);
      ValuesAtConcat(xs, [map[]], k);
      ValuesAtConcat(xs, ys, k);
      var empty: seq<Object> := [map[]];
      assert ValuesAt(empty, k) == ValuesAt(empty[..0], k) + [] == [];
      assert ValuesAt(xs, k) + [] == ValuesAt(xs, k);
    }
  }

  // ---- Grouping ----------------------------------------------------------------------

  /** Laying `c` over `a` leaves no trace of `a`. */
  predicate Absorbed(a: Value, c: Value)
    decreases a
  {
    if ShapeOf(a) != ShapeOf(c) then true
    else match a
      case List(items) => items == []
      case Map(fields) => forall k | k in fields :: k in c.fields && Absorbed(fields[k], c.fields[k])
      case _ => true
  }

  /**
   * No value of another kind stands between two values that would otherwise have been
   * merged, at any path that all three documents reach.
   */
  predicate Regroupable(a: Value, b: Value, c: Value)
    decreases a
  {
    if ShapeOf(a) == ShapeOf(c) != ShapeOf(b) then Absorbed(a, c)
    else if a.Map? && b.Map? && c.Map? then
      forall k | k in a.fields && k in b.fields && k in c.fields ::
        Regroupable(a.fields[k], b.fields[k], c.fields[k])
    else true
  }

  lemma {:induction false} AbsorbedMeaning(a: Value, c: Value)
    ensures Absorbed(a, c) <==> Combine(a, c) == c
    decreases a
  {
    if a.Map? && c.Map? {
      forall k | k in a.fields && k in c.fields
        ensures Absorbed(a.fields[k], c.fields[k]) <==> Combine(a.fields[k], c.fields[k]) == c.fields[k]
      {
        AbsorbedMeaning(a.fields[k], c.fields[k]);
      }
      var m := Merge(a.fields, c.fields);
      if Absorbed(a, c) {
        assert m == c.fields;
      } else {
        var k :| k in a.fields && !(k in c.fields && Absorbed(a.fields[k], c.fields[k]));
        assert k in m;
        if k in c.fields {
          assert m[k] != c.fields[k];
        }
      }
    } else if a.List? && c.List? {
      assert |a.items + c.items| == |a.items| + |c.items|;
    }
  }

  /** Exactly when three documents may be merged in either grouping. */
  lemma {:induction false} AssociativeIff(a: Value, b: Value, c: Value)
    ensures Combine(Combine(a, b), c) == Combine(a, Combine(b, c)) <==> Regroupable(a, b, c)
    decreases a
  {
    if ShapeOf(a) == ShapeOf(c) != ShapeOf(b) {
      AbsorbedMeaning(a, c);
    } else if a.Map? && b.Map? && c.Map? {
      AssociativeMaps(a, b, c);
    } else if a.List? && b.List? && c.List? {
      assert (a.items + b.items) + c.items == a.items + (b.items + c.items);
    }
  }

  lemma {:induction false} AssociativeMaps(a: Value, b: Value, c: Value)
    requires a.Map? && b.Map? && c.Map?
    ensures Combine(Combine(a, b), c) == Combine(a, Combine(b, c)) <==> Regroupable(a, b, c)
    decreases a, 0
  {
    var l := Merge(Merge(a.fields, b.fields), c.fields);
    var r := Merge(a.fields, Merge(b.fields, c.fields));
    assert l.Keys == r.Keys;
    forall k | k in l
      ensures l[k] == r[k] <==>
              (k in a.fields && k in b.fields && k in c.fields ==> Regroupable(a.fields[k], b.fields[k], c.fields[k]))
    {
      if k in a.fields && k in b.fields && k in c.fields {
        AssociativeIff(a.fields[k], b.fields[k], c.fields[k]);
      }
    }
    if Regroupable(a, b, c) {
      assert l == r;
    } else {
      var k :| k in a.fields && k in b.fields && k in c.fields && !Regroupable(a.fields[k], b.fields[k], c.fields[k]);
      assert k in l && l[k] != r[k];
    }
  }

  /** Grouping matters: a map, then a scalar, then a map. */
  lemma MergeIsNotAssociative()
    ensures var a, b, c := Map(map["x" := Num(1)]), Str("off"), Map(map["y" := Num(2)]);
            Combine(Combine(a, b), c) != Combine(a, Combine(b, c))
  {
    var a, b, c := Map(map["x" := Num(1)]), Str("off"), Map(map["y" := Num(2)]);
    assert "x" in Combine(a, Combine(b, c)).fields;
  }

  /** Two values that agree in kind at every path they share. */
  predicate Agree(a: Value, b: Value)
    decreases a
  {
    && ShapeOf(a) == ShapeOf(b)
    && (a.Map? ==> forall k | k in a.fields && k in b.fields :: Agree(a.fields[k], b.fields[k]))
  }

  lemma {:induction false} AgreeingIsRegroupable(a: Value, b: Value, c: Value)
    requires Agree(a, b) && Agree(b, c) && Agree(a, c)
    ensures Regroupable(a, b, c)
    decreases a
  {
    if a.Map? {
      forall k | k in a.fields && k in b.fields && k in c.fields
        ensures Regroupable(a.fields[k], b.fields[k], c.fields[k])
      {
        AgreeingIsRegroupable(a.fields[k], b.fields[k], c.fields[k]);
      }
    }
  }

  lemma {:induction false} CombineAgrees(a: Value, b: Value, c: Value)
    requires Agree(a, c) && Agree(b, c)
    ensures Agree(Combine(a, b), c)
    decreases a
  {
    if a.Map? {
      forall k | k in a.fields && k in b.fields && k in c.fields
        ensures Agree(Combine(a.fields[k], b.fields[k]), c.fields[k])
      {
        CombineAgrees(a.fields[k], b.fields[k], c.fields[k]);
      }
    }
  }

  lemma {:induction false} AgreeSymmetric(a: Value, b: Value)
    requires Agree(a, b)
    ensures Agree(b, a)
    decreases a
  {
    if a.Map? {
      forall k | k in a.fields && k in b.fields
        ensures Agree(b.fields[k], a.fields[k])
      {
        AgreeSymmetric(a.fields[k], b.fields[k]);
      }
    }
  }

  ghost predicate PairwiseAgree(files: seq<Object>) {
    forall i, j | 0 <= i < j < |files| :: Agree(Map(files[i]), Map(files[j]))
  }

  lemma {:induction false} FoldAgrees(files: seq<Object>, v: Object)
    requires forall i | 0 <= i < |files| :: Agree(Map(files[i]), Map(v))
    ensures Agree(Map(Fold(files)), Map(v))
  {
    if files != [] {
      FoldAgrees(files[..|files| - 1], v);
      CombineAgrees(Map(Fold(files[..|files| - 1])), Map(files[|files| - 1]), Map(v));
    }
  }

  lemma {:induction false} FoldsAgree(xs: seq<Object>, ys: seq<Object>)
    requires forall i, j | 0 <= i < |xs| && 0 <= j < |ys| :: Agree(Map(xs[i]), Map(ys[j]))
    ensures Agree(Map(Fold(xs)), Map(Fold(ys)))
  {
    forall j | 0 <= j < |ys|
      ensures Agree(Map(ys[j]), Map(Fold(xs)))
    {
      FoldAgrees(xs, ys[j]);
      AgreeSymmetric(Map(Fold(xs)), Map(ys[j]));
    }
    FoldAgrees(ys, Fold(xs));
    AgreeSymmetric(Map(Fold(ys)), Map(Fold(xs)));
  }

  lemma AgreeingMerges(a: Object, b: Object, c: Object)
    requires Agree(Map(a), Map(b)) && Agree(Map(b), Map(c)) && Agree(Map(a), Map(c))
    ensures Merge(Merge(a, b), c) == Merge(a, Merge(b, c))
  {
    AgreeingIsRegroupable(Map(a), Map(b), Map(c));
    AssociativeIff(Map(a), Map(b), Map(c));
  }

  lemma PartsAgree(xs: seq<Object>, init: seq<Object>, y: Object)
    requires PairwiseAgree(xs + (init + [y]))
    ensures Agree(Map(Fold(xs)), Map(Fold(init)))
    ensures Agree(Map(Fold(xs)), Map(y)) && Agree(Map(Fold(init)), Map(y))
  {
    var all := xs + (init + [y]);
    forall i, j | 0 <= i < |xs| && 0 <= j < |init|
      ensures Agree(Map(xs[i]), Map(init[j]))
    {
      assert xs[i] == all[i] && init[j] == all[|xs| + j];
    }
    forall i | 0 <= i < |xs|
      ensures Agree(Map(xs[i]), Map(y))
    {
      assert xs[i] == all[i] && y == all[|all| - 1];
    }
    forall i | 0 <= i < |init|
      ensures Agree(Map(init[i]), Map(y))
    {
      assert init[i] == all[|xs| + i] && y == all[|all| - 1];
    }
    FoldsAgree(xs, init);
    FoldAgrees(xs, y);
    FoldAgrees(init, y);
  }

  /** Files that agree in kind wherever they overlap may be pre-merged in any grouping. */
  lemma {:induction false} AgreeingFilesRegroup(xs: seq<Object>, ys: seq<Object>)
    requires PairwiseAgree(xs + ys)
    ensures Fold(xs + ys) == Merge(Fold(xs), Fold(ys))
  {
    var all := xs + ys;
    if ys == [] {
      assert all == xs;
      assert Merge(Fold(xs), map[]) == Fold(xs);
    } else {
      var init, y := ys[..|ys| - 1], ys[|ys| - 1];
      assert ys == init + [y];
      assert all[..|all| - 1] == xs + init && all[|all| - 1] == y;
      AgreeingFilesRegroup(xs, init);
      PartsAgree(xs, init, y);
      AgreeingMerges(Fold(xs), Fold(init), y);
    }
  }
}
