/** What becomes of a template in a configuration text (template_fns.go). */
module TemplateLaws {
  import opened Values
  import opened YamlUnescape
  import opened TemplateRender

  /** A match is a left delimiter, a body without a line break, and a right delimiter. */
  lemma MatchMeaning(text: string, p: Params, i: nat, j: nat)
    requires i <= j <= |text|
    ensures IsMatch(text, p, i, j) <==>
      exists body: string :: '\n' !in body && text[i..j] == p.left + body + p.right
  {
    var l, r := |p.left|, |p.right|;
    if IsMatch(text, p, i, j) {
      var body := text[i + l..j - r];
      assert text[i..j] == p.left + body + p.right by {
        assert text[i..i + l] == p.left && text[j - r..j] == p.right;
        assert text[i..j] == text[i..i + l] + body + text[j - r..j];
      }
      forall k | 0 <= k < |body|
        ensures body[k] != '\n'
      {
        assert body[k] == text[i + l + k];
      }
    }
    if body: string :| '\n' !in body && text[i..j] == p.left + body + p.right {
      BodyIsMatch(text, p, i, j, body);
    }
  }

  lemma BodyIsMatch(text: string, p: Params, i: nat, j: nat, body: string)
    requires i <= j <= |text| && '\n' !in body && text[i..j] == p.left + body + p.right
    ensures IsMatch(text, p, i, j)
  {
    var m := text[i..j];
    assert forall d | 0 <= d < |m| :: text[i + d] == m[d];
    WordsOfMatch(p, m, body);
    forall k | i + |p.left| <= k < j - |p.right|
      ensures text[k] != '\n'
    {
      assert text[k] == m[k - i] && m[k - i] == body[k - i - |p.left|];
    }
    assert forall d | 0 <= d < |p.left| :: text[i + d] == p.left[d];
    forall d | 0 <= d < |p.right|
      ensures text[j - |p.right| + d] == p.right[d]
    {
      assert text[j - |p.right| + d] == m[|m| - |p.right| + d];
    }
  }

  lemma WordsOfMatch(p: Params, m: string, body: string)
    requires m == p.left + body + p.right
    ensures |m| == |p.left| + |body| + |p.right|
    ensures forall d | 0 <= d < |p.left| :: m[d] == p.left[d]
    ensures forall d | 0 <= d < |p.right| :: m[|m| - |p.right| + d] == p.right[d]
    ensures forall d | 0 <= d < |body| :: m[|p.left| + d] == body[d]
  {
  }

  /** A text in which nothing matches stays as it is. */
  lemma NoMatchNoChange(engine: TemplateEngine, p: Params, text: string, mappings: Object)
    requires ValidParams(p) && forall i: nat, j: nat :: !IsMatch(text, p, i, j)
    ensures Render(engine, p, text, mappings) == text
  {
    assert FindAll(text, p, 0) == [];
  }

  /** `m` stands in the text between `before` and `after`, and is all that matches. */
  predicate OnlyMatch(p: Params, text: string, before: string, m: string, after: string)
    requires ValidParams(p)
  {
    text == before + m + after && FindAll(text, p, 0) == [Span(|before|, |before| + |m|)]
  }

  lemma Between(before: string, m: string, after: string, text: string, n: nat, e: nat)
    requires text == before + m + after && n == |before| && e == n + |m|
    ensures text[0..n] == before && text[n..e] == m && text[e..] == after
  {
  }

  /** The one match of the text is replaced, and nothing else. */
  lemma OneReplaced(
    engine: TemplateEngine, p: Params, text: string, before: string, m: string, after: string, mappings: Object)
    requires ValidParams(p) && OnlyMatch(p, text, before, m, after)
    ensures Render(engine, p, text, mappings) == before + Renderer(engine, p, mappings)(m) + after
  {
    var n, e := |before|, |before| + |m|;
    Between(before, m, after, text, n, e);
    OneSpan(Renderer(engine, p, mappings), text, n, e);
  }

  lemma OneSpan(replace: string -> string, text: string, n: nat, e: nat)
    requires n <= e <= |text|
    ensures Ordered(0, [Span(n, e)], |text|)
    ensures Stitch(replace, text, 0, [Span(n, e)]) == text[0..n] + replace(text[n..e]) + text[e..]
  {
    assert [Span(n, e)][1..] == [];
  }

  lemma EscapedIsCompiled(engine: TemplateEngine, p: Params, t: string, mappings: Object)
    ensures Renderer(engine, p, mappings)(Escape(t)) ==
      match engine.parse(p, t)
      case None => Escape(t)
      case Some(template) => match engine.execute(template, mappings) case None => Escape(t) case Some(r) => r
  {
    UnescapeUndoesEscape(t);
    assert Compile(engine, p, Escape(t)) == engine.parse(p, t);
  }

  /**
   * A template that was written into a double-quoted scalar is parsed as it was before; what it
   * renders to takes the place of its escaped form, between the text around it.
   */
  lemma EscapedTemplateRenders(
    engine: TemplateEngine, p: Params, text: string, before: string, t: string, after: string, mappings: Object,
    template: Template, rendered: string)
    requires ValidParams(p) && OnlyMatch(p, text, before, Escape(t), after)
    requires engine.parse(p, t) == Some(template) && engine.execute(template, mappings) == Some(rendered)
    ensures Render(engine, p, text, mappings) == before + rendered + after
  {
    EscapedIsCompiled(engine, p, t, mappings);
    OneReplaced(engine, p, text, before, Escape(t), after, mappings);
  }

  /** One that cannot be parsed, or fails when it runs, stays in the text, escapes and all. */
  lemma FailingTemplateStays(
    engine: TemplateEngine, p: Params, text: string, before: string, t: string, after: string, mappings: Object)
    requires ValidParams(p) && OnlyMatch(p, text, before, Escape(t), after)
    requires engine.parse(p, t).None? || engine.execute(engine.parse(p, t).value, mappings).None?
    ensures Render(engine, p, text, mappings) == text
  {
    EscapedIsCompiled(engine, p, t, mappings);
    OneReplaced(engine, p, text, before, Escape(t), after, mappings);
  }

  /** Between the left delimiter and `to` no right delimiter begins. */
  predicate NoneBegins(p: Params, text: string, to: nat) {
    forall k: nat | |p.left| <= k < to :: !At(text, k, p.right)
  }

  /** Delimiters around a body of one line in which no right delimiter begins are the only match. */
  lemma LoneTemplate(p: Params, text: string, body: string)
    requires ValidParams(p) && text == p.left + body + p.right && '\n' !in body
    requires NoneBegins(p, text, |p.left| + |body|)
    ensures OnlyMatch(p, text, "", text, "")
  {
    LoneIsMatch(p, text, body);
    NoShorterMatch(p, text, body);
    LoneMatch(p, text);
  }

  lemma LoneMatch(p: Params, text: string)
    requires ValidParams(p) && IsMatch(text, p, 0, |text|)
    requires forall j: nat | j < |text| :: !IsMatch(text, p, 0, j)
    ensures OnlyMatch(p, text, "", text, "")
  {
    LoneSpan(p, text);
    NothingAround(text);
  }

  lemma NothingAround(text: string)
    ensures "" + text + "" == text
  {
  }

  lemma LoneIsMatch(p: Params, text: string, body: string)
    requires ValidParams(p) && text == p.left + body + p.right && '\n' !in body
    ensures IsMatch(text, p, 0, |text|)
  {
    assert text[0..|text|] == text;
    BodyIsMatch(text, p, 0, |text|, body);
  }

  lemma NoShorterMatch(p: Params, text: string, body: string)
    requires ValidParams(p) && text == p.left + body + p.right
    requires NoneBegins(p, text, |p.left| + |body|)
    ensures forall j: nat | j < |text| :: !IsMatch(text, p, 0, j)
  {
    forall j: nat | j < |text|
      ensures !IsMatch(text, p, 0, j)
    {
      if |p.left| + |p.right| <= j {
        var k: nat := j - |p.right|;
        assert !At(text, k, p.right);
      }
    }
  }

  lemma LoneSpan(p: Params, text: string)
    requires ValidParams(p) && IsMatch(text, p, 0, |text|)
    requires forall j: nat | j < |text| :: !IsMatch(text, p, 0, j)
    ensures FindAll(text, p, 0) == [Span(0, |text|)]
  {
    assert NextMatch(text, p, 0) == Some(Span(0, |text|));
    assert NextMatch(text, p, |text|) == None;
    assert FindAll(text, p, |text|) == [];
  }
}
