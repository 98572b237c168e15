/**
 * PostgreSQL's `LIKE` operator with its default escape character: `%`
 * matches any run of characters, `_` exactly one character, and a backslash
 * makes the next pattern character literal.
 */
module SqlLike {
  import opened Text

  predicate LikeMatch(s: string, p: string)
    decreases |s| + |p|
  {
    if |p| == 0 then |s| == 0
    else if p[0] == '%' then LikeMatch(s, p[1..]) || (|s| > 0 && LikeMatch(s[1..], p))
    else if p[0] == '_' then |s| > 0 && LikeMatch(s[1..], p[1..])
    else if p[0] == '\\' && |p| >= 2 then |s| > 0 && s[0] == p[1] && LikeMatch(s[1..], p[2..])
    else |s| > 0 && s[0] == p[0] && LikeMatch(s[1..], p[1..])
  }

  /** The text holds none of the characters `LIKE` treats specially. */
  predicate Literal(q: string) {
    forall i :: 0 <= i < |q| ==> q[i] != '%' && q[i] != '_' && q[i] != '\\'
  }

  /** `%` alone matches every string. */
  lemma {:induction false} PercentMatchesAll(s: string)
    ensures LikeMatch(s, "%")
    decreases |s|
  {
    if |s| > 0 {
      PercentMatchesAll(s[1..]);
    }
  }

  /** `q%` for a wildcard-free `q` is a prefix test. */
  lemma {:induction false} LiteralThenPercent(s: string, q: string)
    requires Literal(q)
    ensures LikeMatch(s, q + "%") <==> StartsWith(s, q)
    decreases |q|
  {
    if |q| == 0 {
      assert q + "%" == "%";
      PercentMatchesAll(s);
    } else {
      var p := q + "%";
      assert p[0] == q[0] && p[1..] == q[1..] + "%";
      if |s| > 0 && s[0] == q[0] {
        LiteralThenPercent(s[1..], q[1..]);
        assert StartsWith(s, q) <==> StartsWith(s[1..], q[1..]) by {
          if |q| <= |s| {
            assert s[..|q|] == [s[0]] + s[1..][..|q| - 1];
            assert q == [q[0]] + q[1..];
          }
        }
      }
    }
  }

  /**
   * The search pattern `%q%` means "contains `q`" when `q` holds no `%`,
   * `_` or backslash.
   */
  lemma {:induction false} SubstringPattern(s: string, q: string)
    requires Literal(q)
    ensures LikeMatch(s, "%" + q + "%") <==> Contains(s, q)
    decreases |s|
  {
    var p := "%" + q + "%";
    assert p[0] == '%' && p[1..] == q + "%";
    LiteralThenPercent(s, q);
    if |s| > 0 {
      SubstringPattern(s[1..], q);
    }
  }

  /**
   * User text goes into the pattern unescaped, so an underscore in the
   * search acts as a wildcard: `a_c` finds `abc`, which does not contain it.
   */
  lemma UnderscoreIsWildcard()
    ensures LikeMatch("abc", "%" + "a_c" + "%")
    ensures !Contains("abc", "a_c")
  {
    var s := "abc";
    var p := "%" + "a_c" + "%";
    assert p == "%a_c%";
    assert "%a_c%"[1..] == "a_c%" && "a_c%"[1..] == "_c%" && "_c%"[1..] == "c%" && "c%"[1..] == "%";
    assert s[1..] == "bc" && "bc"[1..] == "c" && "c"[1..] == "";
    PercentMatchesAll("");
    assert LikeMatch("", "%");
    assert LikeMatch("c", "c%");
    assert LikeMatch("bc", "_c%");
    assert LikeMatch("abc", "a_c%");
    assert !StartsWith("abc", "a_c") by { assert "abc"[1] != "a_c"[1]; }
    assert !Contains("", "a_c");
    assert !Contains("c", "a_c") by { assert "c"[1..] == ""; }
    assert !Contains("bc", "a_c") by { assert "bc"[1..] == "c"; }
    assert "abc"[1..] == "bc";
  }
}
