/** LIKE patterns with backslash escape, and the escaping of a literal into one. */
module LikeEscape {
  predicate Special(c: char) {
    c == '\\' || c == '%' || c == '_'
  }

  /** One global single-character replacement. */
  function ReplaceAll(s: string, c: char, text: string): string {
    if s == [] then [] else (if s[0] == c then text else [s[0]]) + ReplaceAll(s[1..], c, text)
  }

  /** The three replacements in their order: the escape character itself comes first. */
  function EscapeLikeWildcards(value: string): string {
    ReplaceAll(ReplaceAll(ReplaceAll(value, '\\', "\\\\"), '%', "\\%"), '_', "\\_")
  }

  /** Escaping in a single pass over the value. */
  function Escaped(value: string): string {
    if value == [] then [] else (if Special(value[0]) then ['\\', value[0]] else [value[0]]) + Escaped(value[1..])
  }

  lemma {:induction false} ReplaceAllSplits(a: string, b: string, c: char, text: string)
    ensures ReplaceAll(a + b, c, text) == ReplaceAll(a, c, text) + ReplaceAll(b, c, text)
  {
    if a == [] {
      assert a + b == b;
    } else {
      ReplaceAllSplits(a[1..], b, c, text);
      assert (a + b)[1..] == a[1..] + b;
    }
  }

  lemma ReplaceInOne(x: char, c: char, text: string)
    ensures ReplaceAll([x], c, text) == if x == c then text else [x]
  {
    assert ReplaceAll([x][1..], c, text) == [];
  }

  lemma ReplaceInTwo(x: char, y: char, c: char, text: string)
    ensures ReplaceAll([x, y], c, text) == (if x == c then text else [x]) + (if y == c then text else [y])
  {
    assert [x, y] == [x] + [y];
    ReplaceAllSplits([x], [y], c, text);
    ReplaceInOne(x, c, text);
    ReplaceInOne(y, c, text);
  }

  /** The three passes do what the single pass does: none of them touches what an earlier one inserted. */
  lemma {:induction false} ThreePassesAreOne(value: string)
    ensures EscapeLikeWildcards(value) == Escaped(value)
  {
    if value != [] {
      ThreePassesAreOne(value[1..]);
      var x := value[0];
      var rest := value[1..];
      var first := if x == '\\' then "\\\\" else [x];
      var rest1 := ReplaceAll(rest, '\\', "\\\\");
      ReplaceAllSplits(first, rest1, '%', "\\%");
      var second := ReplaceAll(first, '%', "\\%");
      ReplaceInOne(x, '%', "\\%");
      ReplaceInTwo('\\', '\\', '%', "\\%");
      ReplaceAllSplits(second, ReplaceAll(rest1, '%', "\\%"), '_', "\\_");
      ReplaceInOne(x, '_', "\\_");
      ReplaceInTwo('\\', '\\', '_', "\\_");
      ReplaceInTwo('\\', '%', '_', "\\_");
    }
  }

  /** PostgreSQL's LIKE; a pattern that ends in the escape character matches nothing here. */
  predicate Like(s: string, p: string)
    decreases |s| + |p|
  {
    if p == [] then s == []
    else if p[0] == '\\' then |p| >= 2 && s != [] && s[0] == p[1] && Like(s[1..], p[2..])
    else if p[0] == '%' then Like(s, p[1..]) || (s != [] && Like(s[1..], p))
    else if p[0] == '_' then s != [] && Like(s[1..], p[1..])
    else s != [] && s[0] == p[0] && Like(s[1..], p[1..])
  }

  predicate OccursAt(v: string, s: string, i: nat) {
    i + |v| <= |s| && s[i..i + |v|] == v
  }

  predicate Occurs(v: string, s: string) {
    exists i :: 0 <= i <= |s| && OccursAt(v, s, i)
  }

  lemma OneEscapedCharacter(s: string, c: char, p: string)
    ensures Like(s, (if Special(c) then ['\\', c] else [c]) + p) <==> s != [] && s[0] == c && Like(s[1..], p)
  {
    var pattern := (if Special(c) then ['\\', c] else [c]) + p;
    assert pattern[if Special(c) then 2 else 1..] == p;
  }

  lemma {:induction false} EscapedMatchesItself(s: string, v: string, p: string)
    ensures Like(s, Escaped(v) + p) <==> |v| <= |s| && s[..|v|] == v && Like(s[|v|..], p)
    decreases |v|
  {
    if v == [] {
      assert Escaped(v) + p == p && s[0..] == s;
    } else {
      var head := if Special(v[0]) then ['\\', v[0]] else [v[0]];
      assert Escaped(v) + p == head + (Escaped(v[1..]) + p);
      OneEscapedCharacter(s, v[0], Escaped(v[1..]) + p);
      if s != [] {
        EscapedMatchesItself(s[1..], v[1..], p);
        PrefixUnfolds(s, v);
      }
    }
  }

  lemma PrefixUnfolds(s: string, v: string)
    requires s != [] && v != []
    ensures |v| <= |s| && s[..|v|] == v <==> s[0] == v[0] && |v[1..]| <= |s[1..]| && s[1..][..|v[1..]|] == v[1..]
    ensures |v| <= |s| ==> s[1..][|v[1..]|..] == s[|v|..]
  {
    if |v| <= |s| {
      assert s[..|v|] == [s[0]] + s[1..][..|v[1..]|];
      assert v == [v[0]] + v[1..];
      assert s[..|v|][0] == s[0] && s[..|v|][1..] == s[1..][..|v[1..]|];
    }
  }

  lemma {:induction false} PercentSkips(s: string, p: string)
    ensures Like(s, ['%'] + p) <==> exists i :: 0 <= i <= |s| && Like(s[i..], p)
  {
    var pattern := ['%'] + p;
    assert pattern[1..] == p && s[0..] == s;
    if s == [] {
      assert forall i :: 0 <= i <= |s| ==> s[i..] == s;
    } else {
      PercentSkips(s[1..], p);
      if Like(s[1..], pattern) {
        var i :| 0 <= i <= |s[1..]| && Like(s[1..][i..], p);
        assert s[1..][i..] == s[i + 1..];
      }
      if i :| 0 <= i <= |s| && Like(s[i..], p) {
        if i > 0 {
          assert s[1..][i - 1..] == s[i..];
        }
      }
    }
  }

  lemma {:induction false} PercentMatchesAll(s: string)
    ensures Like(s, "%")
  {
    if s == [] {
      assert Like(s, "%"[1..]);
    } else {
      PercentMatchesAll(s[1..]);
    }
  }

  /** The pattern built from a value matches exactly the strings in which the value occurs literally. */
  lemma EscapedPatternIsSubstring(s: string, v: string)
    ensures Like(s, "%" + EscapeLikeWildcards(v) + "%") <==> Occurs(v, s)
  {
    ThreePassesAreOne(v);
    assert "%" + Escaped(v) + "%" == ['%'] + (Escaped(v) + "%");
    PercentSkips(s, Escaped(v) + "%");
    forall i | 0 <= i <= |s| ensures Like(s[i..], Escaped(v) + "%") <==> OccursAt(v, s, i) {
      EscapedMatchesItself(s[i..], v, "%");
      if |v| <= |s[i..]| {
        PercentMatchesAll(s[i..][|v|..]);
        assert s[i..][..|v|] == s[i..i + |v|];
      }
    }
  }

  // ---------- case folding ----------

  function Fold(f: char -> char, s: string): (r: string)
    ensures |r| == |s| && forall i :: 0 <= i < |s| ==> r[i] == f(s[i])
  {
    seq(|s|, i requires 0 <= i < |s| => f(s[i]))
  }

  /** A case folding leaves the three special characters alone and makes no other character one of them. */
  ghost predicate KeepsSpecials(f: char -> char) {
    forall c :: Special(c) || Special(f(c)) ==> f(c) == c
  }

  lemma {:induction false} FoldEscaped(f: char -> char, v: string)
    requires KeepsSpecials(f)
    ensures Fold(f, Escaped(v)) == Escaped(Fold(f, v))
  {
    if v != [] {
      FoldEscaped(f, v[1..]);
      assert Fold(f, v)[1..] == Fold(f, v[1..]);
      var head := if Special(v[0]) then ['\\', v[0]] else [v[0]];
      assert f('\\') == '\\';
      assert Fold(f, head + Escaped(v[1..])) == Fold(f, head) + Fold(f, Escaped(v[1..]));
    } else {
      assert Fold(f, v) == [];
    }
  }

  /** ILIKE folds both sides and then matches as LIKE does. */
  predicate ILike(f: char -> char, s: string, p: string) {
    Like(Fold(f, s), Fold(f, p))
  }

  lemma ILikeIsFoldedSubstring(f: char -> char, s: string, v: string)
    requires KeepsSpecials(f)
    ensures ILike(f, s, "%" + EscapeLikeWildcards(v) + "%") <==> Occurs(Fold(f, v), Fold(f, s))
  {
    var fv := Fold(f, v);
    ThreePassesAreOne(v);
    ThreePassesAreOne(fv);
    FoldEscaped(f, v);
    assert f('%') == '%';
    assert Fold(f, "%" + Escaped(v) + "%") == "%" + Escaped(fv) + "%";
    EscapedPatternIsSubstring(Fold(f, s), fv);
  }
}
