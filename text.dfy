/**
 * The string operations the routes rely on: `str.lower()`, `rsplit`,
 * `startswith`, and the pattern match behind SQL `ILIKE`.
 * Case mapping is ASCII only.
 */
module Text {

  function LowerChar(c: char): char
  {
    if 'A' <= c <= 'Z' then (c as int + 32) as char else c
  }

  /** `s.lower()` on ASCII letters: every character mapped by LowerChar, nothing else changed. */
  function Lower(s: string): (r: string)
    ensures |r| == |s|
    ensures forall i :: 0 <= i < |s| ==> r[i] == LowerChar(s[i])
  {
    if s == [] then [] else [LowerChar(s[0])] + Lower(s[1..])
  }

  lemma LowerAppend(a: string, b: string)
    ensures Lower(a + b) == Lower(a) + Lower(b)
  {
    assert forall i :: 0 <= i < |a + b| ==> Lower(a + b)[i] == (Lower(a) + Lower(b))[i];
  }

  /** Lowering is idempotent, so `x.lower() == 'true'` holds of 'TRUE' and 'true' alike. */
  lemma LowerIdempotent(s: string)
    ensures Lower(Lower(s)) == Lower(s)
  {
  }

  /** Characters that `Lower` leaves alone are kept, and no other character becomes one of them. */
  lemma LowerKeeps(s: string, c: char)
    requires !('A' <= c <= 'Z') && !('a' <= c <= 'z')
    ensures c in Lower(s) <==> c in s
  {
    if c in Lower(s) {
      var i :| 0 <= i < |s| && Lower(s)[i] == c;
      assert s[i] == c;
    }
    if c in s {
      var i :| 0 <= i < |s| && s[i] == c;
      assert Lower(s)[i] == c;
    }
  }

  /** The index of the last `c` in `s`, or -1 when `s` has none. */
  function LastIndexOf(s: string, c: char): (r: int)
    ensures -1 <= r < |s|
    ensures r == -1 <==> c !in s
    ensures r >= 0 ==> s[r] == c && c !in s[r + 1..]
  {
    if s == [] then -1
    else if s[|s| - 1] == c then |s| - 1
    else
      var r := LastIndexOf(s[..|s| - 1], c);
      assert s == s[..|s| - 1] + [s[|s| - 1]];
      assert r >= 0 ==> s[r + 1..] == s[..|s| - 1][r + 1..] + [s[|s| - 1]];
      r
  }

  /** `s.rsplit(c, 1)[-1]`: the text after the last `c`, or all of `s` without one. */
  function AfterLast(s: string, c: char): (r: string)
    ensures c !in r
    ensures c in s ==> |r| < |s| && s == s[..|s| - |r| - 1] + [c] + r
    ensures c !in s ==> r == s
  {
    var i := LastIndexOf(s, c);
    assert i >= 0 ==> s == s[..i] + [c] + s[i + 1..];
    s[i + 1..]
  }

  /** `s.startswith(prefix)`. */
  predicate StartsWith(s: string, prefix: string)
  {
    |prefix| <= |s| && s[..|prefix|] == prefix
  }

  /** `needle in hay` for strings: `needle` occurs at some position of `hay`. */
  predicate Contains(hay: string, needle: string)
  {
    exists i :: 0 <= i <= |hay| - |needle| && OccursAt(hay, needle, i)
  }

  predicate OccursAt(hay: string, needle: string, i: int)
  {
    0 <= i <= |hay| - |needle| && hay[i..i + |needle|] == needle
  }

  /** Characters that are special in a LIKE pattern. */
  predicate PlainChar(c: char)
  {
    c != '%' && c != '_' && c != '\\'
  }

  predicate Plain(s: string)
  {
    forall i :: 0 <= i < |s| ==> PlainChar(s[i])
  }

  /**
   * `s LIKE p` with PostgreSQL's rules: `%` matches any run of characters,
   * `_` exactly one, a backslash makes the next character literal.
   * A pattern ending in a lone backslash is an SQL error; this function
   * only has to answer for patterns that `get_recipes` builds, which end
   * in `%` and so never have one.
   */
  predicate Like(s: string, p: string)
    decreases |p|, |s|
  {
    if p == [] then s == []
    else if p[0] == '%' then Like(s, p[1..]) || (s != [] && Like(s[1..], p))
    else if p[0] == '_' then s != [] && Like(s[1..], p[1..])
    else if p[0] == '\\' && |p| >= 2 then s != [] && s[0] == p[1] && Like(s[1..], p[2..])
    else s != [] && s[0] == p[0] && Like(s[1..], p[1..])
  }

  /** `s ILIKE p`: LIKE after lower-casing both sides. */
  predicate ILike(s: string, p: string)
  {
    Like(Lower(s), Lower(p))
  }

  lemma {:induction false} LikePercentAll(s: string)
    ensures Like(s, "%")
    decreases |s|
  {
    if s != [] {
      LikePercentAll(s[1..]);
    }
  }

  /** With no special characters in `q`, `t LIKE q || '%'` says exactly that `t` starts with `q`. */
  lemma {:induction false} LikePrefix(t: string, q: string)
    requires Plain(q)
    ensures Like(t, q + "%") <==> StartsWith(t, q)
    decreases |q|
  {
    if q == [] {
      assert q + "%" == "%";
      LikePercentAll(t);
    } else {
      assert (q + "%")[0] == q[0];
      assert (q + "%")[1..] == q[1..] + "%";
      assert Plain(q[1..]) by {
        forall i | 0 <= i < |q[1..]| ensures PlainChar(q[1..][i]) { assert q[1..][i] == q[i + 1]; }
      }
      assert PlainChar(q[0]);
      if t != [] {
        LikePrefix(t[1..], q[1..]);
        if StartsWith(t, q) {
          assert t[1..][..|q[1..]|] == t[..|q|][1..];
        }
        if StartsWith(t[1..], q[1..]) && t[0] == q[0] {
          assert t[..|q|] == [t[0]] + t[1..][..|q[1..]|];
          assert q == [q[0]] + q[1..];
        }
      }
    }
  }

  /** `s LIKE '%' || p` holds iff `p` matches some suffix of `s`. */
  lemma {:induction false} LikeLeadingPercent(s: string, p: string)
    ensures Like(s, "%" + p) <==> exists i :: 0 <= i <= |s| && Like(s[i..], p)
    decreases |s|
  {
    var pp := "%" + p;
    assert pp[0] == '%' && pp[1..] == p;
    assert Like(s, pp) == (Like(s, p) || (s != [] && Like(s[1..], pp)));
    assert s[0..] == s;
    if s != [] {
      LikeLeadingPercent(s[1..], p);
      if Like(s[1..], pp) {
        var i :| 0 <= i <= |s[1..]| && Like(s[1..][i..], p);
        assert s[1..][i..] == s[i + 1..];
        assert 0 <= i + 1 <= |s| && Like(s[i + 1..], p);
      }
      if exists i :: 0 <= i <= |s| && Like(s[i..], p) {
        var i :| 0 <= i <= |s| && Like(s[i..], p);
        if i > 0 {
          assert s[1..][i - 1..] == s[i..];
          assert 0 <= i - 1 <= |s[1..]| && Like(s[1..][i - 1..], p);
          assert Like(s[1..], pp);
        }
      }
    }
  }

  /** With no special characters in `q`, `s LIKE '%' || q || '%'` is plain substring search. */
  lemma LikeSubstring(s: string, q: string)
    requires Plain(q)
    ensures Like(s, "%" + q + "%") <==> Contains(s, q)
  {
    assert "%" + q + "%" == "%" + (q + "%");
    LikeLeadingPercent(s, q + "%");
    if Contains(s, q) {
      var i :| 0 <= i <= |s| - |q| && OccursAt(s, q, i);
      LikePrefix(s[i..], q);
      assert s[i..][..|q|] == s[i..i + |q|];
    }
    if Like(s, "%" + q + "%") {
      var i :| 0 <= i <= |s| && Like(s[i..], q + "%");
      LikePrefix(s[i..], q);
      assert s[i..][..|q|] == s[i..i + |q|];
      assert OccursAt(s, q, i);
    }
  }

  lemma LowerPlain(q: string)
    requires Plain(q)
    ensures Plain(Lower(q))
  {
    forall i | 0 <= i < |q| ensures PlainChar(Lower(q)[i]) { assert PlainChar(q[i]); }
  }

  /**
   * `s ILIKE '%' || q || '%'` for a search text without LIKE specials is
   * case-insensitive substring search.
   */
  lemma ILikeSubstring(s: string, q: string)
    requires Plain(q)
    ensures ILike(s, "%" + q + "%") <==> Contains(Lower(s), Lower(q))
  {
    LowerAppend("%" + q, "%");
    LowerAppend("%", q);
    assert Lower("%") == "%";
    LowerPlain(q);
    LikeSubstring(Lower(s), Lower(q));
  }
}
