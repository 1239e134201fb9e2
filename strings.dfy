/**
 * The two Python string builtins the core relies on: `str.strip()` (both ends,
 * Python's whitespace set) and `str.lower()`.
 */
module Strings {

  /** `c.isspace()` for Python 3 strings: the characters `str.strip()` removes. */
  predicate IsSpace(c: char) {
    var n := c as int;
    n == 0x20 || 0x09 <= n <= 0x0D || 0x1C <= n <= 0x1F || n == 0x85 || n == 0xA0
    || n == 0x1680 || 0x2000 <= n <= 0x200A || n == 0x2028 || n == 0x2029
    || n == 0x202F || n == 0x205F || n == 0x3000
  }

  predicate AllSpace(s: string) {
    forall k :: 0 <= k < |s| ==> IsSpace(s[k])
  }

  /** `s.lstrip()`: a suffix of `s` that does not start with whitespace. */
  function TrimStart(s: string): (r: string)
    ensures |r| <= |s| && r == s[|s| - |r|..]
    ensures r == [] || !IsSpace(r[0])
  {
    if s != [] && IsSpace(s[0]) then TrimStart(s[1..]) else s
  }

  /** `s.rstrip()`: a prefix of `s` that does not end with whitespace. */
  function TrimEnd(s: string): (r: string)
    ensures |r| <= |s| && r == s[..|r|]
    ensures r == [] || !IsSpace(r[|r| - 1])
  {
    if s != [] && IsSpace(s[|s| - 1]) then TrimEnd(s[..|s| - 1]) else s
  }

  /** What `lstrip` drops is whitespace. */
  lemma {:induction false} TrimStartDropsSpace(s: string)
    ensures AllSpace(s[..|s| - |TrimStart(s)|])
    decreases |s|
  {
    if s != [] && IsSpace(s[0]) {
      var tail := s[1..];
      var n := |s| - |TrimStart(s)|;
      var dropped := tail[..|tail| - |TrimStart(tail)|];
      assert AllSpace(dropped) by {
        TrimStartDropsSpace(tail);
      }
      assert TrimStart(s) == TrimStart(tail);
      PrefixCons(s, n);
      AllSpacePrepend(s[0], dropped);
    }
  }

  lemma PrefixCons(s: string, n: nat)
    requires 1 <= n <= |s|
    ensures s[..n] == [s[0]] + s[1..][..n - 1]
  {
  }

  lemma AllSpacePrepend(c: char, s: string)
    requires IsSpace(c) && AllSpace(s)
    ensures AllSpace([c] + s)
  {
    forall k | 0 <= k < |s| + 1 ensures IsSpace(([c] + s)[k]) {
      if k > 0 { assert ([c] + s)[k] == s[k - 1]; }
    }
  }

  /** What `rstrip` drops is whitespace. */
  lemma {:induction false} TrimEndDropsSpace(s: string)
    ensures AllSpace(s[|TrimEnd(s)|..])
    decreases |s|
  {
    if s != [] && IsSpace(s[|s| - 1]) {
      var p := s[..|s| - 1];
      TrimEndDropsSpace(p);
      var m := |TrimEnd(s)|;
      forall k | 0 <= k < |s| - m ensures IsSpace(s[m..][k]) {
        if m + k < |s| - 1 { assert s[m..][k] == p[m..][k]; }
      }
    }
  }

  /** `s.strip()`: both ends trimmed. */
  function Strip(s: string): (r: string)
    ensures |r| <= |s|
  {
    TrimEnd(TrimStart(s))
  }

  /** `s.strip()` neither starts nor ends with whitespace. */
  lemma StripEnds(s: string)
    ensures Strip(s) != [] ==> !IsSpace(Strip(s)[0]) && !IsSpace(Strip(s)[|Strip(s)| - 1])
  {
    var r := Strip(s);
    assert r != [] ==> r[0] == TrimStart(s)[0];
  }

  /** `s.strip()` is a slice of `s`, starting where `lstrip` stopped. */
  lemma StripSlice(s: string)
    ensures var i := |s| - |TrimStart(s)|; i + |Strip(s)| <= |s| && Strip(s) == s[i..i + |Strip(s)|]
  {
    var t := TrimStart(s);
    var r := TrimEnd(t);
    var i := |s| - |t|;
    assert r == Strip(s);
    assert t == s[i..] && r == t[..|r|];
    assert s[i..][..|r|] == s[i..i + |r|];
  }

  /** What `s.strip()` removes on either side is whitespace. */
  lemma StripDropsSpace(s: string)
    ensures AllSpace(s[..|s| - |TrimStart(s)|])
    ensures AllSpace(s[|s| - |TrimStart(s)| + |Strip(s)|..])
  {
    var t := TrimStart(s);
    TrimStartDropsSpace(s);
    TrimEndDropsSpace(t);
    assert s[|s| - |t| + |Strip(s)|..] == t[|Strip(s)|..];
  }

  /** `s.strip()` is empty exactly when `s` is all whitespace. */
  lemma StripEmpty(s: string)
    ensures Strip(s) == [] <==> AllSpace(s)
  {
    var t := TrimStart(s);
    var r := TrimEnd(t);
    var i := |s| - |t|;
    TrimStartDropsSpace(s);
    TrimEndDropsSpace(t);
    assert |t| > |r| ==> t[|r|..][0] == t[|r|];
    assert r == [] ==> t == [];
    forall k | 0 <= k < i ensures IsSpace(s[k]) { assert s[..i][k] == s[k]; }
    assert t != [] ==> t[0] == s[i];
  }

  /** Python's `c.lower()` on the ASCII letters; every other character is kept. */
  function LowerChar(c: char): char {
    if 'A' <= c <= 'Z' then (c as int + 32) as char else c
  }

  /** `s.lower()`, character by character. */
  function Lower(s: string): string {
    seq(|s|, k requires 0 <= k < |s| => LowerChar(s[k]))
  }

  /** Lower-casing never turns a letter into whitespace or whitespace into a letter. */
  lemma LowerCharKeepsSpace(c: char)
    ensures IsSpace(LowerChar(c)) == IsSpace(c)
  {
  }

  lemma LowerIdempotent(s: string)
    ensures Lower(Lower(s)) == Lower(s)
  {
  }

  lemma {:induction false} TrimStartLower(s: string)
    ensures TrimStart(Lower(s)) == Lower(TrimStart(s))
    decreases |s|
  {
    if s != [] {
      LowerCharKeepsSpace(s[0]);
      if IsSpace(s[0]) {
        assert Lower(s)[1..] == Lower(s[1..]);
        TrimStartLower(s[1..]);
      }
    }
  }

  lemma {:induction false} TrimEndLower(s: string)
    ensures TrimEnd(Lower(s)) == Lower(TrimEnd(s))
    decreases |s|
  {
    if s != [] {
      var n := |s|;
      var l := Lower(s);
      assert IsSpace(l[n - 1]) == IsSpace(s[n - 1]) by {
        LowerCharKeepsSpace(s[n - 1]);
      }
      if IsSpace(s[n - 1]) {
        var p := s[..n - 1];
        assert l[..n - 1] == Lower(p);
        assert TrimEnd(Lower(p)) == Lower(TrimEnd(p)) by {
          TrimEndLower(p);
        }
      }
    }
  }

  /** Stripping and lower-casing commute. */
  lemma StripLower(s: string)
    ensures Strip(Lower(s)) == Lower(Strip(s))
  {
    TrimStartLower(s);
    TrimEndLower(TrimStart(s));
  }

  lemma StripIdempotent(s: string)
    ensures Strip(Strip(s)) == Strip(s)
  {
    var r := Strip(s);
    if r != [] {
      assert TrimStart(r) == r;
      assert TrimEnd(r) == r;
    }
  }

  /** A whitespace prefix does not survive `lstrip`. */
  lemma {:induction false} TrimStartPadded(pre: string, s: string)
    requires AllSpace(pre)
    ensures TrimStart(pre + s) == TrimStart(s)
    decreases |pre|
  {
    if pre != [] {
      var tail := pre[1..];
      assert (pre + s)[0] == pre[0];
      assert (pre + s)[1..] == tail + s;
      assert AllSpace(tail) by {
        forall k | 0 <= k < |tail| ensures IsSpace(tail[k]) { assert tail[k] == pre[k + 1]; }
      }
      TrimStartPadded(tail, s);
    } else {
      assert pre + s == s;
    }
  }

  /** A whitespace suffix does not survive `rstrip`. */
  lemma {:induction false} TrimEndPadded(s: string, post: string)
    requires AllSpace(post)
    ensures TrimEnd(s + post) == TrimEnd(s)
    decreases |post|
  {
    if post != [] {
      var init := post[..|post| - 1];
      assert (s + post)[|s + post| - 1] == post[|post| - 1];
      assert (s + post)[..|s + post| - 1] == s + init;
      assert AllSpace(init) by {
        forall k | 0 <= k < |init| ensures IsSpace(init[k]) { assert init[k] == post[k]; }
      }
      TrimEndPadded(s, init);
    } else {
      assert s + post == s;
    }
  }

  /** `lstrip` then `rstrip` equals `rstrip` then `lstrip`. */
  lemma {:induction false} TrimsCommute(s: string)
    ensures TrimEnd(TrimStart(s)) == TrimStart(TrimEnd(s))
    decreases |s|
  {
    if s != [] && IsSpace(s[0]) {
      TrimsCommute(s[1..]);
      if TrimEnd(s) == [] {
        TrimEndDropsSpace(s);
        assert AllSpace(s[1..]) by {
          forall k | 0 <= k < |s| - 1 ensures IsSpace(s[1..][k]) { assert s[1..][k] == s[k + 1]; }
        }
        AllSpaceTrimEnd(s[1..]);
      } else {
        TrimEndKeepsFirst(s);
        assert TrimEnd(s)[1..] == TrimEnd(s[1..]);
      }
    } else if s != [] {
      TrimEndDropsSpace(s);
      assert |s| > |TrimEnd(s)| ==> s[|TrimEnd(s)|..][0] == s[|TrimEnd(s)|];
      TrimEndKeepsFirst(s);
    }
  }

  lemma AllSpaceTrimEnd(s: string)
    requires AllSpace(s)
    ensures TrimEnd(s) == []
  {
  }

  /** Unless `s` is all whitespace, `rstrip` keeps its first character and strips only the tail. */
  lemma {:induction false} TrimEndKeepsFirst(s: string)
    requires s != [] && TrimEnd(s) != []
    ensures TrimEnd(s) == [s[0]] + TrimEnd(s[1..])
    decreases |s|
  {
    if IsSpace(s[|s| - 1]) {
      var p := s[..|s| - 1];
      assert s[1..][..|s| - 2] == p[1..];
      TrimEndKeepsFirst(p);
    }
  }

  /** Surrounding whitespace does not change the stripped text. */
  lemma StripPadded(pre: string, s: string, post: string)
    requires AllSpace(pre) && AllSpace(post)
    ensures Strip(pre + s + post) == Strip(s)
  {
    assert pre + s + post == pre + (s + post);
    calc {
      Strip(pre + (s + post));
    ==
      TrimEnd(TrimStart(pre + (s + post)));
    == { TrimStartPadded(pre, s + post); }
      TrimEnd(TrimStart(s + post));
    == { TrimsCommute(s + post); }
      TrimStart(TrimEnd(s + post));
    == { TrimEndPadded(s, post); }
      TrimStart(TrimEnd(s));
    == { TrimsCommute(s); }
      TrimEnd(TrimStart(s));
    }
  }
}
