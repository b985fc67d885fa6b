/** Merging several configuration files into one document (config.go). */
module ConfigMerge {
  import opened Values

  // ---- What merging means, value by value -------------------------------------------

  /** Later value `b` over earlier value `a`. */
  function Combine(a: Value, b: Value): Value
    decreases a, 1
  {
    if a.Map? && b.Map? then Map(Merge(a.fields, b.fields))
    else if a.List? && b.List? then List(a.items + b.items)
    else b
  }

  function Merge(base: Object, overlay: Object): (r: Object)
    ensures r.Keys == base.Keys + overlay.Keys
    decreases Map(base), 0
  {
    map k | k in base.Keys + overlay.Keys ::
      if k !in overlay then base[k]
      else if k !in base then overlay[k]
      else Combine(base[k], overlay[k])
  }

  /** All files, left to right. */
  function Fold(files: seq<Object>): Object {
    if files == [] then map[]
    else Merge(Fold(files[..|files| - 1]), files[|files| - 1])
  }

  // ---- The code ----------------------------------------------------------------------

  /** The first loop of `deepMerge`. */
  method Copy(base: Object) returns (result: Object)
    ensures result == base
  {
    result := map[];
    var todo := base.Keys;
    while todo != {}
      invariant todo <= base.Keys
      invariant result.Keys == base.Keys - todo
      invariant forall k | k in result :: result[k] == base[k]
      decreases todo
    {
      var k :| k in todo;
      result := result[k := base[k]];
      todo := todo - {k};
    }
  }

  /** `deepMerge`: copies the base, then lays the overlay over it, in any key order. */
  method DeepMerge(base: Object, overlay: Object) returns (result: Object)
    ensures result == Merge(base, overlay)
    decreases Map(base)
  {
    result := Copy(base);
    var todo := overlay.Keys;
    while todo != {}
      invariant todo <= overlay.Keys
      invariant result.Keys == base.Keys + (overlay.Keys - todo)
      invariant forall k | k in base && (k !in overlay || k in todo) :: result[k] == base[k]
      invariant forall k | k in overlay && k !in todo :: result[k] == Merge(base, overlay)[k]
      decreases todo
    {
      var k :| k in todo;
      var v := overlay[k];
      if k in result {
        var baseVal := result[k];
        assert baseVal == base[k];
        if baseVal.Map? && v.Map? {
          var merged := DeepMerge(baseVal.fields, v.fields);
          result := result[k := Map(merged)];
        } else if baseVal.List? && v.List? {
          result := result[k := List(baseVal.items + v.items)];
        } else {
          result := result[k := v];
        }
      } else {
        result := result[k := v];
      }
      todo := todo - {k};
    }
  }

  /** A file whose document is empty decodes to a nil map. */
  function Document(file: Option<Object>): Object {
    if file.Some? then file.value else map[]
  }

  function Documents(files: seq<Option<Object>>): seq<Object> {
    seq(|files|, i requires 0 <= i < |files| => Document(files[i]))
  }

  /**
   * The fold of `mergeConfigurationFiles` over the decoded files: a nil accumulator is
   * replaced, anything else is merged into.
   */
  method MergeConfigurationFiles(files: seq<Option<Object>>) returns (merged: Option<Object>)
    ensures merged.None? <==> forall i | 0 <= i < |files| :: files[i].None?
    ensures Document(merged) == Fold(Documents(files))
  {
    merged := None;
    var i := 0;
    while i < |files|
      invariant 0 <= i <= |files|
      invariant merged.None? <==> forall j | 0 <= j < i :: files[j].None?
      invariant Document(merged) == Fold(Documents(files)[..i])
    {
      ghost var docs := Documents(files);
      assert docs[..i + 1][..i] == docs[..i];
      if merged.None? {
        assert Merge(map[], docs[i]) == docs[i];
        merged := files[i];
      } else {
        var next := DeepMerge(merged.value, Document(files[i]));
        merged := Some(next);
      }
      i := i + 1;
    }
    assert Documents(files)[..|files|] == Documents(files);
  }
}
