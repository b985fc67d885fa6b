/** Undoing YAML double-quoted escapes before a template is parsed (template_fns.go). */
module YamlUnescape {
  import opened GoStrings

  const QUOTE: char := '\"'
  const SLASH: char := '\\'

  /** The code: two whole passes, first for quotes, then for backslashes. */
  function Unescape(input: string): string {
    var quotes := ReplaceAll(input, [SLASH, QUOTE], [QUOTE]);
    ReplaceAll(quotes, [SLASH, SLASH], [SLASH])
  }

  /**
   * What unescaping should do: one pass that reads each escape once. Sections 5.7 and 7.3.1
   * of YAML 1.2.2 define both escapes; any other backslash stands for itself.
   */
  function OnePass(s: string): string {
    if |s| >= 2 && s[0] == SLASH && (s[1] == QUOTE || s[1] == SLASH) then [s[1]] + OnePass(s[2..])
    else if s == "" then ""
    else [s[0]] + OnePass(s[1..])
  }

  /** Writing a string inside a double-quoted scalar. */
  function Escape(s: string): string {
    if s == "" then ""
    else (if s[0] == QUOTE || s[0] == SLASH then [SLASH, s[0]] else [s[0]]) + Escape(s[1..])
  }

  // ---- Two passes are one pass --------------------------------------------------------

  function Quotes(s: string): string { ReplaceAll(s, [SLASH, QUOTE], [QUOTE]) }
  function Slashes(s: string): string { ReplaceAll(s, [SLASH, SLASH], [SLASH]) }

  lemma QuotesStep(s: string)
    requires s != ""
    ensures |s| >= 2 && s[0] == SLASH && s[1] == QUOTE ==> Quotes(s) == [QUOTE] + Quotes(s[2..])
    ensures !(|s| >= 2 && s[0] == SLASH && s[1] == QUOTE) ==> Quotes(s) == [s[0]] + Quotes(s[1..])
  {
    if |s| >= 2 {
      assert s[..2] == [s[0], s[1]];
    } else {
      assert s == [s[0]] + s[1..];
    }
  }

  lemma SlashesStep(s: string)
    requires s != ""
    ensures |s| >= 2 && s[0] == SLASH && s[1] == SLASH ==> Slashes(s) == [SLASH] + Slashes(s[2..])
    ensures !(|s| >= 2 && s[0] == SLASH && s[1] == SLASH) ==> Slashes(s) == [s[0]] + Slashes(s[1..])
  {
    if |s| >= 2 {
      assert s[..2] == [s[0], s[1]];
    } else {
      assert s == [s[0]] + s[1..];
    }
  }

  /** A character other than a backslash passes through the second pass untouched. */
  lemma PlainPrefix(c: char, t: string)
    requires c != SLASH
    ensures Slashes([c] + t) == [c] + Slashes(t)
  {
    SlashesStep([c] + t);
    assert ([c] + t)[1..] == t;
  }

  lemma SlashPrefix(c: char, t: string)
    requires c != SLASH
    ensures Slashes([SLASH, c] + t) == [SLASH, c] + Slashes(t)
    ensures Slashes([SLASH, SLASH] + t) == [SLASH] + Slashes(t)
  {
    SlashesStep([SLASH, c] + t);
    assert ([SLASH, c] + t)[1..] == [c] + t;
    PlainPrefix(c, t);
    SlashesStep([SLASH, SLASH] + t);
    assert ([SLASH, SLASH] + t)[2..] == t;
  }

  /** For every input, well-formed or not, the two passes read exactly what one pass reads. */
  lemma {:induction false} UnescapeIsOnePass(s: string)
    ensures Unescape(s) == OnePass(s)
    decreases |s|
  {
    if s == "" {
    } else if s[0] != SLASH {
      QuotesStep(s);
      UnescapeIsOnePass(s[1..]);
      PlainPrefix(s[0], Quotes(s[1..]));
    } else if |s| == 1 {
      QuotesStep(s);
      assert Quotes(s) == s;
      SlashesStep(s);
    } else if s[1] == QUOTE {
      QuotesStep(s);
      UnescapeIsOnePass(s[2..]);
      PlainPrefix(QUOTE, Quotes(s[2..]));
    } else if s[1] != SLASH {
      QuotesStep(s);
      QuotesStep(s[1..]);
      assert s[1..][1..] == s[2..];
      UnescapeIsOnePass(s[2..]);
      assert Quotes(s) == [SLASH, s[1]] + Quotes(s[2..]);
      SlashPrefix(s[1], Quotes(s[2..]));
      calc {
        Unescape(s);
        [SLASH, s[1]] + OnePass(s[2..]);
        { assert s[1..][1..] == s[2..]; }
        [SLASH] + OnePass(s[1..]);
        OnePass(s);
      }
    } else {
      SlashPair(s);
    }
  }

  lemma {:induction false} SlashPair(s: string)
    requires |s| >= 2 && s[0] == SLASH && s[1] == SLASH
    ensures Unescape(s) == OnePass(s)
    decreases |s|, 0
  {
    var t := s[2..];
    QuotesStep(s);
    QuotesStep(s[1..]);
    assert s[1..][1..] == t;
    if t != "" && t[0] == QUOTE {
      // The quote pass takes the second backslash; the first is left before a bare quote.
      assert s[1..][2..] == t[1..];
      UnescapeIsOnePass(t[1..]);
      assert Quotes(s) == [SLASH, QUOTE] + Quotes(t[1..]);
      SlashPrefix(QUOTE, Quotes(t[1..]));
      assert OnePass(s) == [SLASH] + OnePass(t) == [SLASH] + ([QUOTE] + OnePass(t[1..]));
    } else {
      UnescapeIsOnePass(t);
      assert Quotes(s) == [SLASH, SLASH] + Quotes(t);
      SlashPrefix(QUOTE, Quotes(t));
    }
  }

  lemma {:induction false} OnePassUndoesEscape(s: string)
    ensures OnePass(Escape(s)) == s
  {
    if s != "" {
      OnePassUndoesEscape(s[1..]);
      var e := Escape(s);
      if s[0] == QUOTE || s[0] == SLASH {
        assert e[2..] == Escape(s[1..]);
      } else {
        assert e[1..] == Escape(s[1..]);
      }
    }
  }

  /** Unescaping gives back every string that was escaped. */
  lemma UnescapeUndoesEscape(s: string)
    ensures Unescape(Escape(s)) == s
  {
    UnescapeIsOnePass(Escape(s));
    OnePassUndoesEscape(s);
  }

  /** The order of the passes matters: backslashes first would eat the quote's escape. */
  lemma PassesDoNotCommute()
    ensures Quotes(Slashes([SLASH, SLASH, QUOTE])) != Unescape([SLASH, SLASH, QUOTE])
  {
    var s := [SLASH, SLASH, QUOTE];
    UnescapeIsOnePass(s);
    assert s[2..] == [QUOTE] && s[2..][1..] == [];
    assert OnePass([QUOTE]) == [QUOTE] + OnePass([]);
    assert OnePass(s) == [SLASH, QUOTE];
    SlashesStep(s);
    SlashesStep([QUOTE]);
    assert Slashes(s) == [SLASH, QUOTE];
    QuotesStep([SLASH, QUOTE]);
    assert Quotes([SLASH, QUOTE]) == [QUOTE];
  }
}
