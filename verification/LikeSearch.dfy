/** The notification inbox search: user text becomes an ILIKE pattern that must match it
    literally, wildcards included.

    Like follows section 9.7.1 of the PostgreSQL documentation with the default escape
    character; ILIKE folds case on both sides first, by a fold that leaves the three
    special characters alone and maps nothing else onto them.
  */
module LikeSearch {
  function ReplaceAll(s: string, c: char, with: string): string {
    if s == "" then "" else (if s[0] == c then with else [s[0]]) + ReplaceAll(s[1..], c, with)
  }

  /** The three replacements, backslash first. */
  function SearchPattern(search: string): string {
    "%" + ReplaceAll(ReplaceAll(ReplaceAll(search, '\\', "\\\\"), '%', "\\%"), '_', "\\_") + "%"
  }

  predicate Special(c: char) {
    c == '\\' || c == '%' || c == '_'
  }

  /** One pass: a backslash before each special character. */
  function Escape(s: string): string {
    if s == "" then "" else (if Special(s[0]) then ['\\', s[0]] else [s[0]]) + Escape(s[1..])
  }

  predicate Like(p: string, t: string)
    decreases |p| + |t|
  {
    if p == "" then t == ""
    else if p[0] == '%' then Like(p[1..], t) || (t != "" && Like(p, t[1..]))
    else if p[0] == '_' then t != "" && Like(p[1..], t[1..])
    else if p[0] == '\\' then |p| > 1 && t != "" && p[1] == t[0] && Like(p[2..], t[1..])
    else t != "" && p[0] == t[0] && Like(p[1..], t[1..])
  }

  /** Patterns the server accepts: none ends in an escape with nothing to escape. */
  predicate Accepted(p: string) {
    p == "" || (if p[0] == '\\' then |p| > 1 && Accepted(p[2..]) else Accepted(p[1..]))
  }

  ghost predicate OccursIn(s: string, t: string) {
    exists i :: 0 <= i <= |t| && s <= t[i..]
  }

  function Folded(fold: char -> char, s: string): string {
    seq(|s|, i requires 0 <= i < |s| => fold(s[i]))
  }

  ghost predicate LawfulFold(fold: char -> char) {
    forall c, d :: Special(d) ==> (fold(c) == d <==> c == d)
  }

  predicate ILike(fold: char -> char, p: string, t: string) {
    Like(Folded(fold, p), Folded(fold, t))
  }

  // ---------------------------------------------------------------- the pattern

  lemma {:induction false} ReplaceAppend(a: string, b: string, c: char, with: string)
    ensures ReplaceAll(a + b, c, with) == ReplaceAll(a, c, with) + ReplaceAll(b, c, with)
    decreases |a|
  {
    if a == "" {
      assert a + b == b;
    } else {
      assert (a + b)[1..] == a[1..] + b;
      ReplaceAppend(a[1..], b, c, with);
    }
  }

  lemma ReplaceOne(a: char, c: char, with: string)
    ensures ReplaceAll([a], c, with) == if a == c then with else [a]
  {
    assert [a][1..] == "" && ReplaceAll([a][1..], c, with) == "";
  }

  lemma ReplaceTwo(a: char, b: char, c: char, with: string)
    requires a != c && b != c
    ensures ReplaceAll([a, b], c, with) == [a, b]
  {
    assert [a, b][1..] == [b];
    ReplaceOne(b, c, with);
  }

  /** One character through the three replacements. */
  lemma EscapeOne(c: char)
    ensures ReplaceAll(ReplaceAll(ReplaceAll([c], '\\', "\\\\"), '%', "\\%"), '_', "\\_") == Escape([c])
  {
    assert Escape([c]) == if Special(c) then ['\\', c] else [c];
    ReplaceOne(c, '\\', "\\\\");
    ReplaceOne(c, '%', "\\%");
    ReplaceOne(c, '_', "\\_");
    if c == '\\' {
      ReplaceTwo('\\', c, '%', "\\%");
    }
    if c == '\\' || c == '%' {
      ReplaceTwo('\\', c, '_', "\\_");
    }
  }

  /** Replacing one character after the other is escaping in one pass, because the
      backslashes the later steps add are not there yet when backslashes are doubled. */
  lemma {:induction false} ThreeReplacesAreOnePass(s: string)
    ensures ReplaceAll(ReplaceAll(ReplaceAll(s, '\\', "\\\\"), '%', "\\%"), '_', "\\_") == Escape(s)
    decreases |s|
  {
    if s != "" {
      var head, rest := [s[0]], s[1..];
      assert s == head + rest && head[1..] == "";
      ReplaceAppend(head, rest, '\\', "\\\\");
      var once, more := ReplaceAll(head, '\\', "\\\\"), ReplaceAll(rest, '\\', "\\\\");
      ReplaceAppend(once, more, '%', "\\%");
      ReplaceAppend(ReplaceAll(once, '%', "\\%"), ReplaceAll(more, '%', "\\%"), '_', "\\_");
      EscapeOne(s[0]);
      ThreeReplacesAreOnePass(rest);
      assert Escape(head) + Escape(rest) == Escape(s);
    }
  }

  lemma FoldKeepsSpecial(fold: char -> char, c: char)
    requires LawfulFold(fold)
    ensures Special(fold(c)) <==> Special(c)
    ensures Special(c) ==> fold(c) == c
    ensures fold('\\') == '\\' && fold('%') == '%'
  {
    var d := fold(c);
    assert Special(d) ==> c == d;
    assert Special(c) ==> (fold(c) == c <==> c == c);
    assert Special('\\') && Special('%');
  }

  lemma {:induction false} FoldKeepsEscape(fold: char -> char, s: string)
    requires LawfulFold(fold)
    ensures Folded(fold, Escape(s)) == Escape(Folded(fold, s))
    decreases |s|
  {
    if s != "" {
      FoldKeepsEscape(fold, s[1..]);
      assert Folded(fold, s)[1..] == Folded(fold, s[1..]);
      var head := if Special(s[0]) then ['\\', s[0]] else [s[0]];
      assert Folded(fold, head + Escape(s[1..])) == Folded(fold, head) + Folded(fold, Escape(s[1..]));
      FoldKeepsSpecial(fold, s[0]);
      assert Folded(fold, head) == if Special(s[0]) then ['\\', fold(s[0])] else [fold(s[0])];
    }
  }

  // ---------------------------------------------------------------- what it matches

  lemma {:induction false} EscapedMatchesLiterally(s: string, p: string, t: string)
    ensures Like(Escape(s) + p, t) <==> s <= t && Like(p, t[|s|..])
    decreases |s|
  {
    if s == "" {
      assert Escape(s) + p == p && t[0..] == t;
    } else {
      var whole := Escape(s) + p;
      var rest := Escape(s[1..]) + p;
      if Special(s[0]) {
        assert whole[2..] == rest;
      } else {
        assert whole[1..] == rest;
      }
      if t != "" && t[0] == s[0] {
        EscapedMatchesLiterally(s[1..], p, t[1..]);
        assert |s| <= |t| ==> t[1..][|s| - 1..] == t[|s|..];
        assert s <= t <==> s[1..] <= t[1..];
      }
    }
  }

  lemma {:induction false} PercentSkips(p: string, t: string)
    ensures Like("%" + p, t) <==> exists i :: 0 <= i <= |t| && Like(p, t[i..])
    decreases |t|
  {
    assert ("%" + p)[1..] == p && t[0..] == t;
    if t != "" {
      PercentSkips(p, t[1..]);
      if i :| 0 <= i <= |t[1..]| && Like(p, t[1..][i..]) {
        assert t[1..][i..] == t[i + 1..];
      }
      if i :| 0 < i <= |t| && Like(p, t[i..]) {
        assert t[1..][i - 1..] == t[i..];
      }
    }
  }

  lemma LonePercentMatchesAll(t: string)
    ensures Like("%", t)
  {
    PercentSkips("", t);
    assert "%" + "" == "%" && t[|t|..] == "" && Like("", t[|t|..]);
  }

  /** The search finds exactly the texts that contain the search string, up to case. */
  lemma SearchIsLiteral(fold: char -> char, search: string, text: string)
    requires LawfulFold(fold)
    ensures ILike(fold, SearchPattern(search), text) <==> OccursIn(Folded(fold, search), Folded(fold, text))
  {
    ThreeReplacesAreOnePass(search);
    FoldKeepsEscape(fold, search);
    var s, t := Folded(fold, search), Folded(fold, text);
    FoldKeepsSpecial(fold, '%');
    assert Folded(fold, "%") == "%";
    assert Folded(fold, SearchPattern(search)) == "%" + (Escape(s) + "%");
    PercentSkips(Escape(s) + "%", t);
    forall i | 0 <= i <= |t| ensures Like(Escape(s) + "%", t[i..]) <==> s <= t[i..] {
      EscapedMatchesLiterally(s, "%", t[i..]);
      if s <= t[i..] {
        LonePercentMatchesAll(t[i..][|s|..]);
      }
    }
  }

  lemma AcceptedAfter(c: char, p: string)
    requires Accepted(p)
    ensures Accepted((if Special(c) then ['\\', c] else [c]) + p)
  {
    assert ([c] + p)[1..] == p;
    assert (['\\', c] + p)[2..] == p;
  }

  lemma {:induction false} EscapedIsAccepted(s: string, p: string)
    requires Accepted(p)
    ensures Accepted(Escape(s) + p)
    decreases |s|
  {
    if s == "" {
      assert Escape(s) + p == p;
    } else {
      var head := if Special(s[0]) then ['\\', s[0]] else [s[0]];
      var rest := Escape(s[1..]);
      assert Escape(s) + p == head + (rest + p);
      EscapedIsAccepted(s[1..], p);
      AcceptedAfter(s[0], rest + p);
    }
  }

  /** No search string makes the server refuse the pattern. */
  lemma SearchIsAccepted(search: string)
    ensures Accepted(SearchPattern(search))
  {
    ThreeReplacesAreOnePass(search);
    EscapedIsAccepted(search, "%");
    assert SearchPattern(search)[1..] == Escape(search) + "%";
  }

  /** With the backslash last, a percent sign would be searched as a backslash. */
  lemma BackslashMustGoFirst()
    ensures var wrong := "%" + ReplaceAll(ReplaceAll("%", '%', "\\%"), '\\', "\\\\") + "%";
            OccursIn("%", "%") && !Like(wrong, "%")
  {
    assert "%"[1..] == "" && "\\%"[1..] == "%";
    assert ReplaceAll("%", '%', "\\%") == "\\%";
    assert ReplaceAll("\\%", '\\', "\\\\") == "\\\\%";
    var wrong := "%" + "\\\\%" + "%";
    assert wrong[1..] == "\\\\%%" && wrong[1..][2..] == "%%";
    assert !Like("\\\\%%", "%") && !Like("\\\\%%", "");
    assert "%" <= "%"[0..];
  }
}
