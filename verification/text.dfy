/** String helpers with the meaning JavaScript gives them: `trim`, `split`
    on one separator character and `join` with one separator character. */
module Text {

  /** The code points String.prototype.trim removes: the ECMAScript
      WhiteSpace and LineTerminator characters. */
  predicate IsSpace(c: char) {
    || c == ' ' || c == '\t' || c == '\n' || c == '\U{B}' || c == '\U{C}' || c == '\r'
    || c == '\U{A0}' || c == '\U{1680}' || ('\U{2000}' <= c <= '\U{200A}')
    || c == '\U{2028}' || c == '\U{2029}' || c == '\U{202F}' || c == '\U{205F}'
    || c == '\U{3000}' || c == '\U{FEFF}'
  }

  predicate AllSpace(s: string) {
    forall k :: 0 <= k < |s| ==> IsSpace(s[k])
  }

  /** No whitespace at either end: what `trim` returns. */
  predicate IsTrimmed(s: string) {
    s == [] || (!IsSpace(s[0]) && !IsSpace(s[|s| - 1]))
  }

  /** Drops leading whitespace. */
  function TrimStart(s: string): (r: string)
    ensures |r| <= |s|
  {
    if |s| > 0 && IsSpace(s[0]) then TrimStart(s[1..]) else s
  }

  /** Drops trailing whitespace. */
  function TrimEnd(s: string): (r: string)
    ensures |r| <= |s|
  {
    if |s| > 0 && IsSpace(s[|s| - 1]) then TrimEnd(s[..|s| - 1]) else s
  }

  /** The result of TrimStart is the suffix of `s` that starts at its first
      non-space character. */
  lemma {:induction false} TrimStartSpec(s: string)
    ensures var r := TrimStart(s);
      && r == s[|s| - |r|..]
      && AllSpace(s[..|s| - |r|])
      && (r == [] || !IsSpace(r[0]))
    decreases |s|
  {
    if |s| > 0 && IsSpace(s[0]) {
      var r := TrimStart(s[1..]);
      TrimStartSpec(s[1..]);
      var n := |s| - |r|;
      assert s[1..][|s| - 1 - |r|..] == s[n..];
      assert s[..n] == [s[0]] + s[1..][..n - 1];
      AllSpaceConcat([s[0]], s[1..][..n - 1]);
    } else {
      assert s[..0] == [];
    }
  }

  /** The result of TrimEnd is the prefix of `s` that ends at its last
      non-space character. */
  lemma {:induction false} TrimEndSpec(s: string)
    ensures var r := TrimEnd(s);
      && r == s[..|r|]
      && AllSpace(s[|r|..])
      && (r == [] || !IsSpace(r[|r| - 1]))
    decreases |s|
  {
    if |s| > 0 && IsSpace(s[|s| - 1]) {
      var u := s[..|s| - 1];
      var r := TrimEnd(u);
      TrimEndSpec(u);
      assert u[..|r|] == s[..|r|];
      assert s[|r|..] == u[|r|..] + [s[|s| - 1]];
      AllSpaceConcat(u[|r|..], [s[|s| - 1]]);
    } else {
      assert s[|s|..] == [];
    }
  }

  /** How many whitespace characters `trim` removes from the front. */
  function LeadingSpace(s: string): nat {
    |s| - |TrimStart(s)|
  }

  /** String.prototype.trim. */
  function Trim(s: string): string {
    TrimEnd(TrimStart(s))
  }

  /** `trim` returns the infix of `s` between its leading and its trailing
      whitespace; that infix has no whitespace at either end, and it is
      empty exactly when `s` is all whitespace. */
  lemma TrimSpec(s: string)
    ensures var r := Trim(s); var n := LeadingSpace(s);
      && IsTrimmed(r)
      && n + |r| <= |s|
      && r == s[n..n + |r|]
      && AllSpace(s[..n]) && AllSpace(s[n + |r|..])
      && (r == [] <==> AllSpace(s))
  {
    TrimIsTrimmed(s);
    TrimStartSpec(s);
    TrimEndInfix(s, LeadingSpace(s));
    TrimEndEmpty(s, LeadingSpace(s));
  }

  lemma TrimIsTrimmed(s: string)
    ensures IsTrimmed(Trim(s))
  {
    var t := TrimStart(s);
    var r := TrimEnd(t);
    TrimStartSpec(s);
    TrimEndSpec(t);
    if r != [] {
      assert r[0] == t[0];
    }
  }

  lemma AllSpaceConcat(a: string, b: string)
    ensures AllSpace(a + b) <==> AllSpace(a) && AllSpace(b)
  {
    if AllSpace(a) && AllSpace(b) {
      forall k | 0 <= k < |a + b| ensures IsSpace((a + b)[k]) {
        if k >= |a| {
          assert (a + b)[k] == b[k - |a|];
        }
      }
    }
    if AllSpace(a + b) {
      forall k | 0 <= k < |a| ensures IsSpace(a[k]) {
        assert a[k] == (a + b)[k];
      }
      forall k | 0 <= k < |b| ensures IsSpace(b[k]) {
        assert b[k] == (a + b)[k + |a|];
      }
    }
  }

  lemma TrimEndInfix(s: string, n: nat)
    requires n <= |s|
    ensures var r := TrimEnd(s[n..]);
      && n + |r| <= |s|
      && r == s[n..n + |r|]
      && AllSpace(s[n + |r|..])
  {
    var r := TrimEnd(s[n..]);
    TrimEndSpec(s[n..]);
    assert r == s[n..][..|r|];
    assert s[n..][|r|..] == s[n + |r|..];
  }

  lemma TrimEndEmpty(s: string, n: nat)
    requires n <= |s|
    requires AllSpace(s[..n])
    requires n == |s| || !IsSpace(s[n])
    ensures TrimEnd(s[n..]) == [] <==> AllSpace(s)
  {
    TrimEndSpec(s[n..]);
    assert s == s[..n] + s[n..];
    AllSpaceConcat(s[..n], s[n..]);
    if TrimEnd(s[n..]) == [] {
      assert s[n..][0..] == s[n..];
    }
  }

  lemma {:induction false} TrimStartSkipsSpace(p: string, u: string)
    requires AllSpace(p)
    ensures TrimStart(p + u) == TrimStart(u)
    decreases |p|
  {
    if p != [] {
      assert (p + u)[0] == p[0];
      assert (p + u)[1..] == p[1..] + u;
      assert AllSpace(p[1..]) by {
        assert forall k :: 0 <= k < |p| - 1 ==> p[1..][k] == p[k + 1];
      }
      TrimStartSkipsSpace(p[1..], u);
    } else {
      assert p + u == u;
    }
  }

  lemma {:induction false} TrimEndSkipsSpace(u: string, q: string)
    requires AllSpace(q)
    ensures TrimEnd(u + q) == TrimEnd(u)
    decreases |q|
  {
    if q != [] {
      assert (u + q)[|u + q| - 1] == q[|q| - 1];
      assert (u + q)[..|u + q| - 1] == u + q[..|q| - 1];
      assert AllSpace(q[..|q| - 1]) by {
        assert forall k :: 0 <= k < |q| - 1 ==> q[..|q| - 1][k] == q[k];
      }
      TrimEndSkipsSpace(u, q[..|q| - 1]);
    } else {
      assert u + q == u;
    }
  }

  /** `trim` is characterised by its result alone: padding a trimmed string
      with whitespace on both sides and trimming gives it back. */
  lemma {:induction false} TrimOfPadded(p: string, t: string, q: string)
    requires AllSpace(p) && IsTrimmed(t) && AllSpace(q)
    ensures Trim(p + t + q) == t
  {
    assert p + t + q == p + (t + q);
    TrimStartSkipsSpace(p, t + q);
    if t == [] {
      assert t + q == q;
      TrimStartSpec(q);
    } else {
      assert TrimStart(t + q) == t + q;
      TrimEndSkipsSpace(t, q);
      assert TrimEnd(t) == t;
    }
  }

  /** Trimming twice is trimming once. */
  lemma TrimIdempotent(s: string)
    ensures Trim(Trim(s)) == Trim(s)
  {
    var t := Trim(s);
    TrimSpec(s);
    assert [] + t + [] == t;
    TrimOfPadded([], t, []);
  }

  /** String.prototype.split with a one-character separator: the pieces
      between separators, left to right, empty pieces included. */
  function Split(s: string, sep: char): (r: seq<string>)
    ensures |r| >= 1
    ensures forall k :: 0 <= k < |r| ==> sep !in r[k]
    decreases |s|
  {
    if |s| == 0 then [""]
    else
      var rest := Split(s[1..], sep);
      if s[0] == sep then [""] + rest
      else [[s[0]] + rest[0]] + rest[1..]
  }

  /** There is one more piece than there are separators. */
  lemma {:induction false} SplitCount(s: string, sep: char)
    ensures |Split(s, sep)| == multiset(s)[sep] + 1
    decreases |s|
  {
    if |s| > 0 {
      SplitCount(s[1..], sep);
      assert s == [s[0]] + s[1..];
      assert multiset(s) == multiset([s[0]]) + multiset(s[1..]);
    }
  }

  /** Array.prototype.join with a one-character separator. */
  function Join(xs: seq<string>, sep: char): (r: string)
    ensures |xs| == 1 ==> r == xs[0]
    ensures r == [] ==> forall k :: 0 <= k < |xs| ==> xs[k] == []
    ensures |xs| >= 2 ==> sep in r
  {
    if |xs| == 0 then ""
    else if |xs| == 1 then xs[0]
    else xs[0] + [sep] + Join(xs[1..], sep)
  }

  /** A join of two or more elements starts with the first element and the
      separator, and ends with the separator and the last element. */
  lemma {:induction false} JoinEndsWithLast(xs: seq<string>, sep: char)
    requires |xs| >= 2
    ensures xs[0] + [sep] <= Join(xs, sep)
    ensures var r, t := Join(xs, sep), [sep] + xs[|xs| - 1];
      |t| <= |r| && r[|r| - |t|..] == t
    decreases |xs|
  {
    var rest := Join(xs[1..], sep);
    assert Join(xs, sep) == xs[0] + [sep] + rest;
    if |xs| > 2 {
      JoinEndsWithLast(xs[1..], sep);
    }
  }

  /** Splitting then joining with the same separator gives the text back. */
  lemma {:induction false} JoinSplit(s: string, sep: char)
    ensures Join(Split(s, sep), sep) == s
    decreases |s|
  {
    if |s| > 0 {
      var c, tail := s[0], s[1..];
      var rest := Split(tail, sep);
      JoinSplit(tail, sep);
      if c == sep {
        assert Split(s, sep) == [""] + rest;
        JoinAfterEmpty(rest, sep);
      } else {
        assert Split(s, sep) == [[c] + rest[0]] + rest[1..];
        JoinExtendFirst(c, rest, sep);
      }
      assert s == [c] + tail;
    }
  }

  lemma JoinAfterEmpty(xs: seq<string>, sep: char)
    requires |xs| >= 1
    ensures Join([""] + xs, sep) == [sep] + Join(xs, sep)
  {
    assert ([""] + xs)[1..] == xs;
  }

  lemma JoinExtendFirst(c: char, xs: seq<string>, sep: char)
    requires |xs| >= 1
    ensures Join([[c] + xs[0]] + xs[1..], sep) == [c] + Join(xs, sep)
  {
    var ys := [[c] + xs[0]] + xs[1..];
    if |xs| > 1 {
      assert ys[1..] == xs[1..];
      assert Join(ys, sep) == ([c] + xs[0]) + [sep] + Join(xs[1..], sep);
    }
  }

  /** Splitting distributes over a separator: the pieces of `a + sep + b`
      are the pieces of `a` followed by the pieces of `b`. */
  lemma {:induction false} SplitAround(a: string, sep: char, b: string)
    ensures Split(a + [sep] + b, sep) == Split(a, sep) + Split(b, sep)
    decreases |a|
  {
    var s := a + [sep] + b;
    if a == [] {
      assert s[1..] == b;
    } else {
      assert s[1..] == a[1..] + [sep] + b;
      SplitAround(a[1..], sep, b);
    }
  }

  /** A text without the separator is a single piece. */
  lemma {:induction false} SplitWithoutSeparator(s: string, sep: char)
    requires sep !in s
    ensures Split(s, sep) == [s]
    decreases |s|
  {
    if |s| > 0 {
      assert sep !in s[1..] by {
        assert forall k :: 0 <= k < |s[1..]| ==> s[1..][k] == s[k + 1];
      }
      SplitWithoutSeparator(s[1..], sep);
      assert s == [s[0]] + s[1..];
    }
  }

  /** Joining pieces that do not contain the separator and splitting again
      gives the pieces back. */
  lemma {:induction false} SplitJoin(xs: seq<string>, sep: char)
    requires |xs| >= 1
    requires forall k :: 0 <= k < |xs| ==> sep !in xs[k]
    ensures Split(Join(xs, sep), sep) == xs
    decreases |xs|
  {
    if |xs| == 1 {
      SplitWithoutSeparator(xs[0], sep);
    } else {
      SplitJoin(xs[1..], sep);
      SplitAround(xs[0], sep, Join(xs[1..], sep));
      SplitWithoutSeparator(xs[0], sep);
      assert xs == [xs[0]] + xs[1..];
    }
  }
}
