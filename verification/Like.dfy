/** SQL `LIKE` as SQLite matches it, and the two ways internal/memory/sqlite.go turns a key prefix into a
    pattern. Letter comparison is a parameter: SQLite folds ASCII case unless configured otherwise. */
module Like {
  import opened Text

  type CharEq = (char, char) -> bool

  const ESC: char := '\\'

  function Matches(pat: string, s: string, esc: Option<char>, eq: CharEq): bool
    decreases |pat| + |s|
  {
    if pat == [] then s == []
    else if pat[0] == '%' then Matches(pat[1..], s, esc, eq) || (s != [] && Matches(pat, s[1..], esc, eq))
    else if esc == Some(pat[0]) then
      |pat| >= 2 && s != [] && eq(pat[1], s[0]) && Matches(pat[2..], s[1..], esc, eq)
    else s != [] && (pat[0] == '_' || eq(pat[0], s[0])) && Matches(pat[1..], s[1..], esc, eq)
  }

  predicate Special(c: char) {
    c == ESC || c == '%' || c == '_'
  }

  /** The three replacements of DeletePrefix, the escape character first. */
  function Escape(p: string): string {
    ReplaceAll(ReplaceAll(ReplaceAll(p, ESC, [ESC, ESC]), '%', [ESC, '%']), '_', [ESC, '_'])
  }

  /** likePrefix, the pattern of List. */
  function LikePrefix(prefix: string): string {
    if prefix == "" then "%" else prefix + "%"
  }

  predicate PrefixUnder(eq: CharEq, p: string, s: string) {
    |p| <= |s| && forall i :: 0 <= i < |p| ==> eq(p[i], s[i])
  }

  lemma {:induction false} ReplaceAllAppend(a: string, b: string, c: char, with: string)
    ensures ReplaceAll(a + b, c, with) == ReplaceAll(a, c, with) + ReplaceAll(b, c, with)
  {
    if a == [] {
      assert a + b == b;
    } else {
      assert (a + b)[1..] == a[1..] + b;
      ReplaceAllAppend(a[1..], b, c, with);
    }
  }

  /** The three passes together escape each special character once. */
  lemma EscapeHead(p: string)
    requires p != []
    ensures Escape(p) == (if Special(p[0]) then [ESC, p[0]] else [p[0]]) + Escape(p[1..])
  {
    var c := p[0];
    var h1 := if c == ESC then [ESC, ESC] else [c];
    var t1 := ReplaceAll(p[1..], ESC, [ESC, ESC]);
    ReplaceAllAppend(h1, t1, '%', [ESC, '%']);
    var h2, t2 := ReplaceAll(h1, '%', [ESC, '%']), ReplaceAll(t1, '%', [ESC, '%']);
    ReplaceAllAppend(h2, t2, '_', [ESC, '_']);
    assert h1 == [c] || h1 == [ESC, ESC];
    assert h1[1..] == [] || h1[1..] == [ESC];
    assert h2 == (if c == ESC then [ESC, ESC] else if c == '%' then [ESC, '%'] else [c]);
    assert h2[1..] == [] || h2[1..] == [ESC] || h2[1..] == ['%'];
    assert ReplaceAll(h2[1..], '_', [ESC, '_']) == h2[1..];
    assert ReplaceAll(h2, '_', [ESC, '_']) == if Special(c) then [ESC, c] else [c];
  }

  lemma {:induction false} PercentMatchesAll(s: string, esc: Option<char>, eq: CharEq)
    ensures Matches("%", s, esc, eq)
  {
    if s != [] { PercentMatchesAll(s[1..], esc, eq); }
  }

  /** DeletePrefix's escaped pattern matches a key exactly when the key starts with the prefix, for every
      prefix, wildcards and backslashes included. */
  lemma {:induction false} EscapedPatternIsPrefix(p: string, s: string, eq: CharEq)
    ensures Matches(Escape(p) + "%", s, Some('\\'), eq) <==> PrefixUnder(eq, p, s)
  {
    if p == [] {
      assert Escape(p) + "%" == "%";
      PercentMatchesAll(s, Some(ESC), eq);
    } else {
      EscapeHead(p);
      var pat := Escape(p) + "%";
      if Special(p[0]) {
        assert pat[0] == ESC && pat[1] == p[0] && pat[2..] == Escape(p[1..]) + "%";
      } else {
        assert pat[0] == p[0] && pat[1..] == Escape(p[1..]) + "%";
      }
      if s != [] {
        EscapedPatternIsPrefix(p[1..], s[1..], eq);
        PrefixUnderTail(eq, p, s);
      }
    }
  }

  lemma PrefixUnderTail(eq: CharEq, p: string, s: string)
    requires p != [] && s != []
    ensures PrefixUnder(eq, p, s) <==> eq(p[0], s[0]) && PrefixUnder(eq, p[1..], s[1..])
  {
    if eq(p[0], s[0]) && PrefixUnder(eq, p[1..], s[1..]) {
      forall i | 0 <= i < |p| ensures eq(p[i], s[i]) {
        if i > 0 { assert eq(p[1..][i - 1], s[1..][i - 1]); }
      }
    }
    if PrefixUnder(eq, p, s) {
      forall i | 0 <= i < |p| - 1 ensures eq(p[1..][i], s[1..][i]) { assert eq(p[i + 1], s[i + 1]); }
    }
  }

  predicate Wild(c: char) {
    c == '%' || c == '_'
  }

  /** A key that agrees with the prefix wherever the prefix has no wildcard. */
  predicate AgreesOffWildcards(eq: CharEq, p: string, s: string) {
    |p| <= |s| && forall i :: 0 <= i < |p| ==> Wild(p[i]) || eq(p[i], s[i])
  }

  lemma {:induction false} UnescapedMatchesAgreeing(p: string, s: string, eq: CharEq)
    requires AgreesOffWildcards(eq, p, s)
    ensures Matches(p + "%", s, None, eq)
  {
    if p == [] {
      assert p + "%" == "%";
      PercentMatchesAll(s, None, eq);
    } else {
      assert (p + "%")[1..] == p[1..] + "%";
      assert AgreesOffWildcards(eq, p[1..], s[1..]) by {
        forall i | 0 <= i < |p[1..]| ensures Wild(p[1..][i]) || eq(p[1..][i], s[1..][i]) {
          assert Wild(p[i + 1]) || eq(p[i + 1], s[i + 1]);
        }
      }
      UnescapedMatchesAgreeing(p[1..], s[1..], eq);
      if p[0] == '%' {
        assert Matches(p + "%", s[1..], None, eq);
      } else {
        assert Wild(p[0]) || eq(p[0], s[0]);
      }
    }
  }

  lemma {:induction false} WildcardFreeIsPrefix(p: string, s: string, eq: CharEq)
    requires forall i :: 0 <= i < |p| ==> !Wild(p[i])
    ensures Matches(p + "%", s, None, eq) <==> PrefixUnder(eq, p, s)
  {
    if p == [] {
      assert p + "%" == "%";
      PercentMatchesAll(s, None, eq);
    } else {
      assert (p + "%")[1..] == p[1..] + "%" && (p + "%")[0] == p[0];
      if s != [] {
        WildcardFreeIsPrefix(p[1..], s[1..], eq);
        PrefixUnderTail(eq, p, s);
      }
    }
  }

  /** List's unescaped pattern never misses a key that starts with the prefix. */
  lemma ListPatternIsSuperset(prefix: string, s: string, eq: CharEq)
    requires PrefixUnder(eq, prefix, s)
    ensures Matches(LikePrefix(prefix), s, None, eq)
  {
    if prefix == "" { PercentMatchesAll(s, None, eq); } else { UnescapedMatchesAgreeing(prefix, s, eq); }
  }

  /** It matches nothing else exactly when the prefix has no `%` and no `_`. */
  lemma ListPatternIsExactIffNoWildcard(prefix: string, eq: CharEq)
    requires (forall c :: eq(c, c)) && !eq('%', 'a') && !eq('_', 'a')
    ensures (forall s :: Matches(LikePrefix(prefix), s, None, eq) <==> PrefixUnder(eq, prefix, s))
            <==> forall i :: 0 <= i < |prefix| ==> !Wild(prefix[i])
  {
    if forall i :: 0 <= i < |prefix| ==> !Wild(prefix[i]) {
      forall s ensures Matches(LikePrefix(prefix), s, None, eq) <==> PrefixUnder(eq, prefix, s) {
        if prefix == "" { PercentMatchesAll(s, None, eq); } else { WildcardFreeIsPrefix(prefix, s, eq); }
      }
    } else {
      var i :| 0 <= i < |prefix| && Wild(prefix[i]);
      var s := prefix[i := 'a'];
      UnescapedMatchesAgreeing(prefix, s, eq);
      assert !eq(prefix[i], s[i]) && !PrefixUnder(eq, prefix, s);
    }
  }
}
