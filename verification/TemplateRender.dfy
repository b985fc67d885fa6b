/** Rendering the templates embedded in the configuration text (template_fns.go). */
module TemplateRender {
  import opened Values
  import opened YamlUnescape

  /** `left_delim` and `right_delim`; neither is empty once the defaults are filled in. */
  datatype Params = Params(left: string, right: string)

  predicate ValidParams(p: Params) { p.left != "" && p.right != "" }

  /** A parsed template; only the engine looks inside. */
  datatype Template = Template(handle: nat)

  /** The template engine; parsing and execution may each fail. */
  datatype TemplateEngine = TemplateEngine(
    parse: (Params, string) -> Option<Template>,
    execute: (Template, Object) -> Option<string>)

  datatype Span = Span(start: nat, end: nat)

  // ---- Which parts of a text are templates -------------------------------------------

  /** `word` stands in `text` at `k`. */
  predicate At(text: string, k: nat, word: string) {
    k + |word| <= |text| && forall d | 0 <= d < |word| :: text[k + d] == word[d]
  }

  predicate OneLine(text: string, i: nat, j: nat)
    requires j <= |text|
  {
    forall k | i <= k < j :: text[k] != '\n'
  }

  /** `text[i..j]` is a left delimiter, a stretch of one line, and a right delimiter. */
  predicate IsMatch(text: string, p: Params, i: nat, j: nat) {
    && i + |p.left| + |p.right| <= j <= |text|
    && At(text, i, p.left)
    && OneLine(text, i + |p.left|, j - |p.right|)
    && At(text, j - |p.right|, p.right)
  }

  type Relation = (nat, nat) -> bool

  function MatchesOf(text: string, p: Params): Relation {
    (i: nat, j: nat) => IsMatch(text, p, i, j)
  }

  /** From `from` on: the leftmost match, the shortest there, then on from its end. */
  ghost predicate LeftmostShortest(m: Relation, from: nat, spans: seq<Span>)
    decreases |spans|
  {
    if spans == [] then forall i: nat, j: nat | from <= i :: !m(i, j)
    else
      var s := spans[0];
      && from <= s.start
      && m(s.start, s.end)
      && (forall i: nat, j: nat | from <= i < s.start :: !m(i, j))
      && (forall j: nat | j < s.end :: !m(s.start, j))
      && LeftmostShortest(m, s.end, spans[1..])
  }

  /** Spans in order, apart from each other, between `from` and `to`. */
  predicate Ordered(from: nat, spans: seq<Span>, to: nat)
    decreases |spans|
  {
    if spans == [] then from <= to
    else from <= spans[0].start <= spans[0].end && Ordered(spans[0].end, spans[1..], to)
  }

  /** The end of the shortest match from `i` whose right delimiter starts at `k` or later. */
  function MatchEnd(text: string, p: Params, i: nat, k: nat): (r: Option<nat>)
    requires ValidParams(p)
    requires i + |p.left| <= k <= |text| && At(text, i, p.left) && OneLine(text, i + |p.left|, k)
    requires forall j: nat | j < k + |p.right| :: !IsMatch(text, p, i, j)
    ensures r.Some? ==> IsMatch(text, p, i, r.value) && forall j: nat | j < r.value :: !IsMatch(text, p, i, j)
    ensures r.None? ==> forall j: nat :: !IsMatch(text, p, i, j)
    decreases |text| - k
  {
    if k + |p.right| > |text| then None
    else if At(text, k, p.right) then Some(k + |p.right|)
    else if k == |text| || text[k] == '\n' then None
    else MatchEnd(text, p, i, k + 1)
  }

  function NextMatch(text: string, p: Params, from: nat): (r: Option<Span>)
    requires ValidParams(p)
    ensures r.Some? ==>
      && from <= r.value.start < r.value.end && IsMatch(text, p, r.value.start, r.value.end)
      && (forall i: nat, j: nat | from <= i < r.value.start :: !IsMatch(text, p, i, j))
      && (forall j: nat | j < r.value.end :: !IsMatch(text, p, r.value.start, j))
    ensures r.None? ==> forall i: nat, j: nat | from <= i :: !IsMatch(text, p, i, j)
    decreases |text| - from
  {
    if from + |p.left| > |text| then None
    else if !At(text, from, p.left) then NextMatch(text, p, from + 1)
    else
      match MatchEnd(text, p, from, from + |p.left|)
      case Some(end) => Some(Span(from, end))
      case None => NextMatch(text, p, from + 1)
  }

  /** What the delimiter regex finds in `text`. */
  function FindAll(text: string, p: Params, from: nat): (spans: seq<Span>)
    requires ValidParams(p)
    ensures from <= |text| ==> Ordered(from, spans, |text|)
    decreases |text| - from
  {
    match NextMatch(text, p, from)
    case None => []
    case Some(s) => [s] + FindAll(text, p, s.end)
  }

  lemma {:induction false} FindAllIsLeftmostShortest(text: string, p: Params, from: nat)
    requires ValidParams(p)
    ensures LeftmostShortest(MatchesOf(text, p), from, FindAll(text, p, from))
    decreases |text| - from
  {
    match NextMatch(text, p, from)
    case None =>
    case Some(s) => FindAllIsLeftmostShortest(text, p, s.end);
  }

  /** The description has one answer. */
  lemma {:induction false} SpansUnique(m: Relation, from: nat, a: seq<Span>, b: seq<Span>)
    requires LeftmostShortest(m, from, a) && LeftmostShortest(m, from, b)
    ensures a == b
    decreases |a|
  {
    if a != [] && b != [] {
      assert a[0] == b[0];
      SpansUnique(m, a[0].end, a[1..], b[1..]);
    }
  }

  lemma {:induction false} OrderedEnds(from: nat, spans: seq<Span>, to: nat)
    requires Ordered(from, spans, to)
    ensures from <= to
    ensures forall i | 0 <= i < |spans| :: from <= spans[i].start <= spans[i].end <= to
    decreases |spans|
  {
    if spans != [] {
      OrderedEnds(spans[0].end, spans[1..], to);
    }
  }

  // ---- What rendering means -----------------------------------------------------------

  /** The text from `from` on: gaps as they are, each span replaced. */
  function Stitch(replace: string -> string, text: string, from: nat, spans: seq<Span>): string
    requires Ordered(from, spans, |text|)
    decreases |spans|
  {
    OrderedEnds(from, spans, |text|);
    if spans == [] then text[from..]
    else
      var s := spans[0];
      text[from..s.start] + replace(text[s.start..s.end]) + Stitch(replace, text, s.end, spans[1..])
  }

  /** The text of a match is YAML-escaped; the template parser sees it unescaped. */
  function Compile(engine: TemplateEngine, p: Params, m: string): Option<Template> {
    engine.parse(p, Unescape(m))
  }

  /** Compile a match afresh and run it; a match that fails either way stays as it is. */
  function Renderer(engine: TemplateEngine, p: Params, mappings: Object): string -> string {
    input =>
      match Compile(engine, p, input)
      case None => input
      case Some(t) => match engine.execute(t, mappings) case None => input case Some(r) => r
  }

  function Render(engine: TemplateEngine, p: Params, text: string, mappings: Object): string
    requires ValidParams(p)
  {
    Stitch(Renderer(engine, p, mappings), text, 0, FindAll(text, p, 0))
  }

  function FindAllString(text: string, p: Params): seq<string>
    requires ValidParams(p)
  {
    var spans := FindAll(text, p, 0);
    OrderedEnds(0, spans, |text|);
    seq(|spans|, i requires 0 <= i < |spans| => text[spans[i].start..spans[i].end])
  }

  // ---- The code ------------------------------------------------------------------------

  class TemplateCache {
    const engine: TemplateEngine
    const params: Params
    var templates: map<string, Template>

    ghost predicate Valid()
      reads this
    {
      && ValidParams(params)
      && forall m | m in templates :: Compile(engine, params, m) == Some(templates[m])
    }

    /** `newTemplateCache`: compiles each distinct match once, leaving out those that fail. */
    constructor (engine: TemplateEngine, content: string, params: Params)
      requires ValidParams(params)
      ensures Valid() && this.engine == engine && this.params == params
      ensures forall m :: m in templates <==> m in FindAllString(content, params) && Compile(engine, params, m).Some?
    {
      this.engine := engine;
      this.params := params;
      this.templates := map[];
      new;
      var found := FindAllString(content, params);
      for i := 0 to |found|
        invariant this.engine == engine && this.params == params
        invariant Valid()
        invariant forall m :: m in templates <==> m in found[..i] && Compile(engine, params, m).Some?
      {
        var m := found[i];
        assert found[..i + 1] == found[..i] + [m];
        if m in templates {
          continue;
        }
        var compiled := Compile(engine, params, m);
        if compiled.None? {
          continue;
        }
        templates := templates[m := compiled.value];
      }
    }

    method ExecuteTemplate(template: Template, input: string, mappings: Object) returns (r: string)
      ensures r == match engine.execute(template, mappings) case None => input case Some(s) => s
    {
      var rendered := engine.execute(template, mappings);
      if rendered.None? {
        return input;
      }
      return rendered.value;
    }

    method TryRenderTemplate(input: string, mappings: Object) returns (r: string)
      ensures r == Renderer(engine, params, mappings)(input)
    {
      var template := Compile(engine, params, input);
      if template.None? {
        return input;
      }
      r := ExecuteTemplate(template.value, input, mappings);
    }

    /** One match: by its compiled template, or compiled now when the cache has none. */
    method RenderMatch(originalMatch: string, mappings: Object) returns (replacement: string)
      requires Valid()
      ensures replacement == Renderer(engine, params, mappings)(originalMatch)
    {
      if originalMatch in templates {
        replacement := ExecuteTemplate(templates[originalMatch], originalMatch, mappings);
      } else {
        replacement := TryRenderTemplate(originalMatch, mappings);
      }
    }

    /**
     * `renderAll`: match positions belong to `content`; `offset` carries them over to the text
     * being rewritten.
     */
    method RenderAll(content: string, mappings: Object) returns (result: string)
      requires Valid()
      ensures result == Render(engine, params, content, mappings)
    {
      var matches := FindAll(content, params, 0);
      result := content;
      var offset := 0;
      ghost var replace := Renderer(engine, params, mappings);
      ghost var done := "";
      ghost var from: nat := 0;
      for i := 0 to |matches|
        invariant from <= |content| && Ordered(from, matches[i..], |content|)
        invariant result == done + content[from..] && offset == |done| - from
        invariant Render(engine, params, content, mappings)
               == done + Stitch(replace, content, from, matches[i..])
      {
        var s := matches[i];
        assert s == matches[i..][0] && matches[i..][1..] == matches[i + 1..];
        OrderedEnds(from, matches[i..], |content|);
        StitchStep(replace, content, from, matches[i..], done);
        var start, end := s.start + offset, s.end + offset;
        SpliceStep(result, done, content, from, s, start, end);
        var originalMatch := result[start..end];
        var replacement := RenderMatch(originalMatch, mappings);
        done := done + content[from..s.start] + replacement;
        result := result[..start] + replacement + result[end..];
        offset := offset + |replacement| - (end - start);
        from := s.end;
      }
    }
  }

  /** Positions of `content`, moved by the length change so far, find the same text again. */
  lemma SpliceStep(result: string, done: string, content: string, from: nat, s: Span, start: int, end: int)
    requires from <= s.start <= s.end <= |content| && result == done + content[from..]
    requires start == s.start + |done| - from && end == s.end + |done| - from
    ensures 0 <= start <= end <= |result|
    ensures result[..start] == done + content[from..s.start]
    ensures result[start..end] == content[s.start..s.end]
    ensures result[end..] == content[s.end..]
  {
  }

  lemma StitchStep(replace: string -> string, text: string, from: nat, spans: seq<Span>, done: string)
    requires spans != [] && Ordered(from, spans, |text|)
    ensures var s := spans[0];
      && from <= s.start <= s.end <= |text|
      && done + Stitch(replace, text, from, spans)
         == done + text[from..s.start] + replace(text[s.start..s.end]) + Stitch(replace, text, s.end, spans[1..])
  {
    OrderedEnds(from, spans, |text|);
    var s := spans[0];
    Associate(done, text[from..s.start], replace(text[s.start..s.end]), Stitch(replace, text, s.end, spans[1..]));
  }

  lemma Associate(a: string, b: string, c: string, d: string)
    ensures a + (b + c + d) == a + b + c + d
  {
  }

  /**
   * `renderAllTemplates`: the cache is built from the text it then renders. Like every other
   * valid cache, it gives what compiling each match afresh gives.
   */
  method RenderAllTemplates(engine: TemplateEngine, content: string, mappings: Object, p: Params) returns (result: string)
    requires ValidParams(p)
    ensures result == Render(engine, p, content, mappings)
  {
    var cache := new TemplateCache(engine, content, p);
    result := cache.RenderAll(content, mappings);
  }

  // ---- Rendering works line by line ----------------------------------------------------

  predicate InOneLine(p: Params) { '\n' !in p.left && '\n' !in p.right }

  lemma MatchIsOneLine(text: string, p: Params, i: nat, j: nat)
    requires IsMatch(text, p, i, j) && InOneLine(p)
    ensures OneLine(text, i, j)
  {
    forall k | i <= k < j
      ensures text[k] != '\n'
    {
      if k < i + |p.left| {
        assert text[i + (k - i)] == p.left[k - i];
      } else if k >= j - |p.right| {
        var d := k - (j - |p.right|);
        assert text[j - |p.right| + d] == p.right[d];
      }
    }
  }

  lemma WordInLines(a: string, b: string, text: string, k: nat, word: string)
    requires text == a + "\n" + b
    ensures k + |word| <= |a| ==> (At(text, k, word) <==> At(a, k, word))
    ensures k > |a| ==> (At(text, k, word) <==> At(b, k - |a| - 1, word))
  {
  }

  lemma LineInLines(a: string, b: string, text: string, i: nat, j: nat)
    requires text == a + "\n" + b && j <= |text|
    ensures j <= |a| ==> (OneLine(text, i, j) <==> OneLine(a, i, j))
    ensures |a| < i <= j ==> (OneLine(text, i, j) <==> OneLine(b, i - |a| - 1, j - |a| - 1))
  {
    var n := |a| + 1;
    if j <= |a| && !OneLine(a, i, j) {
      var k :| i <= k < j && a[k] == '\n';
      assert text[k] == '\n';
    }
    if n <= i <= j && !OneLine(b, i - n, j - n) {
      var k :| i - n <= k < j - n && b[k] == '\n';
      assert text[k + n] == '\n';
    }
  }

  lemma MatchSplits(a: string, b: string, text: string, p: Params, n: nat, i: nat, j: nat)
    requires ValidParams(p) && InOneLine(p) && text == a + "\n" + b && n == |a| + 1
    ensures
      IsMatch(text, p, i, j) <==> IsMatch(a, p, i, j) || (i >= n && j >= n && IsMatch(b, p, i - n, j - n))
  {
    if i + |p.left| + |p.right| <= j <= |text| {
      WordInLines(a, b, text, i, p.left);
      WordInLines(a, b, text, j - |p.right|, p.right);
      LineInLines(a, b, text, i + |p.left|, j - |p.right|);
      if IsMatch(text, p, i, j) {
        MatchIsOneLine(text, p, i, j);
        assert text[|a|] == '\n';
      }
    }
  }

  predicate SplitAt(t: Relation, x: Relation, y: Relation, n: nat, i: nat, j: nat) {
    && (t(i, j) <==> x(i, j) || (i >= n && j >= n && y(i - n, j - n)))
    && (x(i, j) ==> i < n && j < n)
  }

  /** `t` is `x`, all below `n`, together with `y` moved on by `n`. */
  ghost predicate Splits(t: Relation, x: Relation, y: Relation, n: nat) {
    forall i: nat, j: nat :: SplitAt(t, x, y, n, i, j)
  }

  lemma SplitsEverywhere(t: Relation, x: Relation, y: Relation, n: nat)
    requires Splits(t, x, y, n)
    ensures forall i: nat, j: nat :: t(i, j) <==> x(i, j) || (i >= n && j >= n && y(i - n, j - n))
    ensures forall i: nat, j: nat | x(i, j) :: i < n && j < n
  {
    forall i: nat, j: nat
      ensures t(i, j) <==> x(i, j) || (i >= n && j >= n && y(i - n, j - n))
      ensures x(i, j) ==> i < n && j < n
    {
      assert SplitAt(t, x, y, n, i, j);
    }
  }

  /** The matches of two lines: those of the first, and those of the second, `n` further on. */
  lemma LinesSplit(a: string, b: string, p: Params, text: string, t: Relation, x: Relation, y: Relation, n: nat)
    requires ValidParams(p) && InOneLine(p) && text == a + "\n" + b && n == |a| + 1
    requires t == MatchesOf(text, p) && x == MatchesOf(a, p) && y == MatchesOf(b, p)
    ensures Splits(t, x, y, n)
  {
    forall i: nat, j: nat
      ensures SplitAt(t, x, y, n, i, j)
    {
      MatchSplits(a, b, text, p, n, i, j);
      MatchEnds(a, p, i, j);
    }
  }

  lemma MatchEnds(text: string, p: Params, i: nat, j: nat)
    requires ValidParams(p)
    ensures IsMatch(text, p, i, j) ==> i <= j <= |text|
  {
  }

  function Shift(spans: seq<Span>, n: nat): seq<Span> {
    if spans == [] then [] else [Span(spans[0].start + n, spans[0].end + n)] + Shift(spans[1..], n)
  }

  lemma {:induction false} SpansOfSecond(t: Relation, a: Relation, b: Relation, n: nat, from: nat, spans: seq<Span>)
    requires Splits(t, a, b, n)
    requires LeftmostShortest(b, from, spans)
    ensures LeftmostShortest(t, from + n, Shift(spans, n))
    decreases |spans|
  {
    SplitsEverywhere(t, a, b, n);
    if spans != [] {
      SpansOfSecond(t, a, b, n, spans[0].end, spans[1..]);
    }
  }

  lemma {:induction false} SpansOfBoth(
    t: Relation, a: Relation, b: Relation, n: nat, from: nat, xs: seq<Span>, ys: seq<Span>)
    requires Splits(t, a, b, n)
    requires from < n
    requires LeftmostShortest(a, from, xs) && LeftmostShortest(b, 0, ys)
    ensures LeftmostShortest(t, from, xs + Shift(ys, n))
    decreases |xs|
  {
    var zs := Shift(ys, n);
    SplitsEverywhere(t, a, b, n);
    if xs == [] {
      SpansOfSecond(t, a, b, n, 0, ys);
      assert xs + zs == zs;
      EarlierStart(t, from, n, zs);
    } else {
      SpansOfBoth(t, a, b, n, xs[0].end, xs[1..], ys);
      assert (xs + zs)[1..] == xs[1..] + zs;
    }
  }

  lemma EarlierStart(m: Relation, from: nat, n: nat, spans: seq<Span>)
    requires from <= n && LeftmostShortest(m, n, spans)
    requires forall i: nat, j: nat | from <= i < n :: !m(i, j)
    ensures LeftmostShortest(m, from, spans)
  {
  }

  lemma {:induction false} ShiftOrdered(from: nat, spans: seq<Span>, to: nat, n: nat, from': nat, to': nat)
    requires Ordered(from, spans, to) && from' == from + n && to' == to + n
    ensures Ordered(from', Shift(spans, n), to')
    decreases |spans|
  {
    if spans != [] {
      ShiftOrdered(spans[0].end, spans[1..], to, n, spans[0].end + n, to');
    }
  }

  lemma FirstLine(a: string, b: string, i: nat, j: nat)
    requires i <= j <= |a|
    ensures (a + "\n" + b)[i..j] == a[i..j]
    ensures (a + "\n" + b)[i..] == a[i..] + ("\n" + b)
  {
  }

  lemma SecondLine(a: string, b: string, text: string, i: nat, j: nat, i': nat, j': nat)
    requires text == a + "\n" + b && i <= j <= |b| && i' == i + |a| + 1 && j' == j + |a| + 1
    ensures text[i'..j'] == b[i..j]
    ensures text[i'..] == b[i..]
  {
  }

  lemma {:induction false} StitchSecond(
    replace: string -> string, a: string, b: string, text: string, from: nat, spans: seq<Span>, at: nat)
    requires text == a + "\n" + b && at == from + |a| + 1
    requires Ordered(from, spans, |b|) && Ordered(at, Shift(spans, |a| + 1), |text|)
    ensures Stitch(replace, text, at, Shift(spans, |a| + 1)) == Stitch(replace, b, from, spans)
    decreases |spans|
  {
    OrderedEnds(from, spans, |b|);
    if spans == [] {
      SecondLine(a, b, text, from, from, at, at);
    } else {
      var s, t := spans[0], Shift(spans, |a| + 1)[0];
      SecondLine(a, b, text, from, s.start, at, t.start);
      SecondLine(a, b, text, s.start, s.end, t.start, t.end);
      StitchSecond(replace, a, b, text, s.end, spans[1..], t.end);
    }
  }

  /** Starting earlier only adds the text skipped. */
  lemma StitchFrom(replace: string -> string, text: string, from: nat, middle: nat, spans: seq<Span>)
    requires from <= middle && Ordered(middle, spans, |text|) && Ordered(from, spans, |text|)
    ensures middle <= |text|
    ensures Stitch(replace, text, from, spans) == text[from..middle] + Stitch(replace, text, middle, spans)
  {
    OrderedEnds(middle, spans, |text|);
    if spans == [] {
      assert text[from..] == text[from..middle] + text[middle..];
    } else {
      var s := spans[0];
      assert text[from..s.start] == text[from..middle] + text[middle..s.start];
      Associate(text[from..middle], text[middle..s.start], replace(text[s.start..s.end]),
                Stitch(replace, text, s.end, spans[1..]));
    }
  }

  lemma RestOfFirst(a: string, b: string, text: string, from: nat)
    requires text == a + "\n" + b && from <= |a|
    ensures text[from..|a| + 1] == a[from..] + "\n"
  {
  }

  /** Before the first span of the second line stands what is left of the first line. */
  lemma StitchBoundary(
    replace: string -> string, a: string, b: string, text: string, from: nat, ys: seq<Span>)
    requires text == a + "\n" + b && from <= |a|
    requires Ordered(0, ys, |b|) && Ordered(from, Shift(ys, |a| + 1), |text|)
    ensures Stitch(replace, text, from, Shift(ys, |a| + 1))
         == a[from..] + "\n" + Stitch(replace, b, 0, ys)
  {
    var n, zs := |a| + 1, Shift(ys, |a| + 1);
    ShiftOrdered(0, ys, |b|, n, n, |text|);
    StitchFrom(replace, text, from, n, zs);
    assert Stitch(replace, text, n, zs) == Stitch(replace, b, 0, ys) by {
      StitchSecond(replace, a, b, text, 0, ys, n);
    }
    RestOfFirst(a, b, text, from);
  }

  lemma {:induction false} OrderedBoth(from: nat, xs: seq<Span>, middle: nat, n: nat, ys: seq<Span>, to: nat)
    requires Ordered(from, xs, middle) && middle <= n && Ordered(n, ys, to)
    ensures Ordered(from, xs + ys, to)
    decreases |xs|
  {
    if xs == [] {
      assert xs + ys == ys;
      OrderedEnds(n, ys, to);
    } else {
      assert (xs + ys)[1..] == xs[1..] + ys;
      OrderedBoth(xs[0].end, xs[1..], middle, n, ys, to);
    }
  }

  lemma {:induction false} StitchBoth(
    replace: string -> string, a: string, b: string, text: string, from: nat, xs: seq<Span>, ys: seq<Span>)
    requires text == a + "\n" + b
    requires Ordered(from, xs, |a|) && Ordered(0, ys, |b|)
    requires Ordered(from, xs + Shift(ys, |a| + 1), |text|)
    ensures Stitch(replace, text, from, xs + Shift(ys, |a| + 1))
         == Stitch(replace, a, from, xs) + ("\n" + Stitch(replace, b, 0, ys))
    decreases |xs|
  {
    var zs := Shift(ys, |a| + 1);
    OrderedEnds(from, xs, |a|);
    if xs == [] {
      assert xs + zs == zs;
      StitchBoundary(replace, a, b, text, from, ys);
    } else {
      var s := xs[0];
      assert (xs + zs)[1..] == xs[1..] + zs;
      FirstLine(a, b, from, s.start);
      FirstLine(a, b, s.start, s.end);
      StitchBoth(replace, a, b, text, s.end, xs[1..], ys);
    }
  }

  lemma FindAllOfBoth(a: string, b: string, p: Params, text: string)
    requires ValidParams(p) && InOneLine(p) && text == a + "\n" + b
    ensures FindAll(text, p, 0) == FindAll(a, p, 0) + Shift(FindAll(b, p, 0), |a| + 1)
  {
    var xs, ys, n := FindAll(a, p, 0), FindAll(b, p, 0), |a| + 1;
    var t, x, y := MatchesOf(text, p), MatchesOf(a, p), MatchesOf(b, p);
    FindAllIsLeftmostShortest(a, p, 0);
    FindAllIsLeftmostShortest(b, p, 0);
    FindAllIsLeftmostShortest(text, p, 0);
    LinesSplit(a, b, p, text, t, x, y, n);
    SpansOfBoth(t, x, y, n, 0, xs, ys);
    SpansUnique(t, 0, FindAll(text, p, 0), xs + Shift(ys, n));
  }

  /** With delimiters that hold no newline, no line's templates reach into another line. */
  lemma RenderLineByLine(engine: TemplateEngine, p: Params, a: string, b: string, mappings: Object)
    requires ValidParams(p) && InOneLine(p)
    ensures Render(engine, p, a + "\n" + b, mappings)
         == Render(engine, p, a, mappings) + "\n" + Render(engine, p, b, mappings)
  {
    var text, n := a + "\n" + b, |a| + 1;
    var xs, ys := FindAll(a, p, 0), FindAll(b, p, 0);
    FindAllOfBoth(a, b, p, text);
    ShiftOrdered(0, ys, |b|, n, n, |text|);
    OrderedBoth(0, xs, |a|, n, Shift(ys, n), |text|);
    StitchBoth(Renderer(engine, p, mappings), a, b, text, 0, xs, ys);
  }
}
