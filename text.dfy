/** String operations the popup code borrows from JavaScript: prefix tests, global
    `String.prototype.replace`, `Array.prototype.join`, `String(n)` for integers and
    `String.prototype.trim`. */
module Text {

  predicate StartsWith(s: string, p: string)
  {
    |p| <= |s| && s[..|p|] == p
  }

  /** `p` occurs somewhere in `s`. */
  predicate Occurs(p: string, s: string)
    decreases |s|
  {
    StartsWith(s, p) || (|s| > 0 && Occurs(p, s[1..]))
  }

  /** `s.replace(new RegExp(p, 'g'), r)` for a pattern without metacharacters: a left-to-right
      scan that replaces every non-overlapping occurrence of `p`. */
  function ReplaceAll(s: string, p: string, r: string): (t: string)
    requires |p| > 0
    ensures !Occurs(p, s) ==> t == s
    decreases |s|
  {
    if |s| == 0 then ""
    else if StartsWith(s, p) then r + ReplaceAll(s[|p|..], p, r)
    else [s[0]] + ReplaceAll(s[1..], p, r)
  }

  lemma {:induction false} OccursInSuffix(p: string, s: string, k: nat)
    requires k <= |s|
    requires Occurs(p, s[k..])
    ensures Occurs(p, s)
    decreases k
  {
    if k > 0 {
      assert s[1..][k - 1..] == s[k..];
      OccursInSuffix(p, s[1..], k - 1);
    }
  }

  /** A text without `<` cannot hide the start of a pattern that begins with `<`. */
  lemma {:induction false} SkipLtFree(q: string, u: string, t: string)
    requires |q| > 0 && q[0] == '<'
    requires '<' !in u
    ensures Occurs(q, u + t) <==> Occurs(q, t)
    decreases |u|
  {
    if |u| > 0 {
      assert (u + t)[1..] == u[1..] + t;
      assert !StartsWith(u + t, q) by { assert (u + t)[0] == u[0]; }
      SkipLtFree(q, u[1..], t);
    } else {
      assert u + t == t;
    }
  }

  lemma StartsWithConcat(r: string, t: string, q: string)
    requires StartsWith(r + t, q)
    ensures StartsWith(r, q) || StartsWith(q, r)
  {
    if |r| >= |q| {
      assert (r + t)[..|q|] == r[..|q|];
    } else {
      assert q[..|r|] == (r + t)[..|q|][..|r|] == r;
    }
  }

  /** Whatever `<`-free text the rewritten string starts with, the original starts with it too,
      when both the pattern and its replacement begin with `<`. */
  lemma {:induction false} LtFreePrefix(t: string, p: string, r: string, w: string)
    requires |p| > 0 && |r| > 0 && r[0] == '<'
    requires '<' !in w
    requires StartsWith(ReplaceAll(t, p, r), w)
    ensures StartsWith(t, w)
    decreases |t|
  {
    var out := ReplaceAll(t, p, r);
    if |w| == 0 {
    } else if |t| == 0 {
      assert false;
    } else {
      assert w[0] == out[0];
      if StartsWith(t, p) {
        assert false;
      }
      assert out == [t[0]] + ReplaceAll(t[1..], p, r);
      assert w[0] == t[0];
      assert StartsWith(ReplaceAll(t[1..], p, r), w[1..]) by {
        assert ReplaceAll(t[1..], p, r)[..|w| - 1] == out[1..][..|w| - 1] == w[1..];
      }
      LtFreePrefix(t[1..], p, r, w[1..]);
      assert t[..|w|] == [t[0]] + t[1..][..|w| - 1];
    }
  }

  /** The `<`-discipline under which a global replacement neither leaves its own pattern behind
      nor creates an occurrence of another `<`-headed pattern `q`. */
  predicate LtHeaded(q: string)
  {
    |q| > 0 && q[0] == '<' && '<' !in q[1..]
  }

  predicate SafeReplacement(p: string, r: string, q: string)
  {
    |p| > 0 && LtHeaded(r) && LtHeaded(q) && !StartsWith(r, q) && !StartsWith(q, r)
  }

  /** After `ReplaceAll(s, p, r)`, the pattern `q` occurs only if it occurred before, and the
      pattern `p` itself no longer occurs. */
  lemma {:induction false} ReplaceAllLeavesNo(s: string, p: string, r: string, q: string)
    requires SafeReplacement(p, r, q)
    requires q == p || !Occurs(q, s)
    ensures !Occurs(q, ReplaceAll(s, p, r))
    decreases |s|
  {
    var out := ReplaceAll(s, p, r);
    if |s| == 0 {
      assert !StartsWith(out, q);
    } else if StartsWith(s, p) {
      var rest := ReplaceAll(s[|p|..], p, r);
      if q != p {
        if Occurs(q, s[|p|..]) { OccursInSuffix(q, s, |p|); }
      }
      ReplaceAllLeavesNo(s[|p|..], p, r, q);
      assert out == [r[0]] + (r[1..] + rest);
      assert out[1..] == r[1..] + rest;
      SkipLtFree(q, r[1..], rest);
      if StartsWith(out, q) { StartsWithConcat(r, rest, q); }
    } else {
      var rest := ReplaceAll(s[1..], p, r);
      ReplaceAllLeavesNo(s[1..], p, r, q);
      assert out == [s[0]] + rest;
      assert out[1..] == rest;
      if StartsWith(out, q) {
        assert s[0] == q[0];
        assert StartsWith(rest, q[1..]) by {
          assert rest[..|q| - 1] == out[..|q|][1..];
        }
        LtFreePrefix(s[1..], p, r, q[1..]);
        assert false;
      }
    }
  }

  /** A `<`-free text holds no start of a `<`-headed pattern, so the replacement copies it. */
  lemma {:induction false} ReplaceAllLtFree(w: string, b: string, p: string, r: string)
    requires |p| > 0 && p[0] == '<'
    requires '<' !in w
    ensures ReplaceAll(w + b, p, r) == w + ReplaceAll(b, p, r)
    decreases |w|
  {
    if |w| > 0 {
      assert !StartsWith(w + b, p) by { assert (w + b)[0] == w[0]; }
      assert (w + b)[1..] == w[1..] + b;
      ReplaceAllLtFree(w[1..], b, p, r);
      assert w == [w[0]] + w[1..];
    } else {
      assert w + b == b;
    }
  }

  /** Cutting a text just before a `<` does not change what a global replacement of a `<`-headed
      pattern does: no occurrence of the pattern can straddle the cut, so each side is rewritten
      on its own. */
  lemma {:induction false} ReplaceAllSplit(a: string, b: string, p: string, r: string)
    requires LtHeaded(p)
    requires |b| == 0 || b[0] == '<'
    ensures ReplaceAll(a + b, p, r) == ReplaceAll(a, p, r) + ReplaceAll(b, p, r)
    decreases |a|
  {
    if |a| == 0 {
      assert a + b == b;
    } else {
      assert |p| <= |a| || !StartsWith(a + b, p) by {
        if |p| > |a| && |b| > 0 {
          assert p[1..][|a| - 1] == p[|a|];
          assert (a + b)[|a|] == b[0];
        }
      }
      assert StartsWith(a, p) ==> StartsWith(a + b, p) by {
        if StartsWith(a, p) { assert (a + b)[..|p|] == a[..|p|]; }
      }
      if StartsWith(a + b, p) {
        assert (a + b)[..|p|] == a[..|p|];
        assert (a + b)[|p|..] == a[|p|..] + b;
        ReplaceAllSplit(a[|p|..], b, p, r);
      } else {
        assert (a + b)[1..] == a[1..] + b;
        ReplaceAllSplit(a[1..], b, p, r);
      }
    }
  }

  /** Every occurrence of a `<`-headed pattern is replaced, and the text on either side of it is
      rewritten independently. */
  lemma ReplaceAllOccurrence(a: string, b: string, p: string, r: string)
    requires LtHeaded(p)
    ensures ReplaceAll(a + p + b, p, r) == ReplaceAll(a, p, r) + r + ReplaceAll(b, p, r)
  {
    assert a + p + b == a + (p + b);
    ReplaceAllSplit(a, p + b, p, r);
    assert (p + b)[..|p|] == p;
    assert (p + b)[|p|..] == b;
  }

  /** A `<`-headed token that neither starts with the pattern nor is a prefix of it passes through
      the replacement unchanged, whatever follows it. */
  lemma ReplaceAllSkipsToken(x: string, b: string, p: string, r: string)
    requires LtHeaded(x) && LtHeaded(p)
    requires !StartsWith(x, p) && !StartsWith(p, x)
    ensures ReplaceAll(x + b, p, r) == x + ReplaceAll(b, p, r)
  {
    if StartsWith(x + b, p) { StartsWithConcat(x, b, p); }
    assert (x + b)[1..] == x[1..] + b;
    ReplaceAllLtFree(x[1..], b, p, r);
    assert x == [x[0]] + x[1..];
  }

  /** One `<`-headed token between two texts: it is replaced when it is the pattern and passes
      through otherwise, and the texts around it are rewritten on their own. */
  lemma TokenStep(x: string, tok: string, y: string, p: string, r: string)
    requires LtHeaded(p) && LtHeaded(tok)
    requires tok == p || (!StartsWith(tok, p) && !StartsWith(p, tok))
    ensures ReplaceAll(x + tok + y, p, r)
      == ReplaceAll(x, p, r) + (if tok == p then r else tok) + ReplaceAll(y, p, r)
  {
    if tok == p {
      ReplaceAllOccurrence(x, y, p, r);
    } else {
      assert x + tok + y == x + (tok + y);
      ReplaceAllSplit(x, tok + y, p, r);
      ReplaceAllSkipsToken(tok, y, p, r);
    }
  }

  /** `Array.prototype.join(sep)`. */
  function Join(xs: seq<string>, sep: string): string
    decreases |xs|
  {
    if |xs| == 0 then ""
    else if |xs| == 1 then xs[0]
    else xs[0] + sep + Join(xs[1..], sep)
  }

  /** Counting a character of a joined list: each separator contributes once, each part once. */
  lemma {:induction false} JoinCount(xs: seq<string>, sep: string, c: char)
    requires |xs| > 0
    requires forall i :: 0 <= i < |xs| ==> c !in xs[i]
    ensures multiset(Join(xs, sep))[c] == (|xs| - 1) * multiset(sep)[c]
    decreases |xs|
  {
    assert c !in xs[0];
    if |xs| > 1 {
      var tail := Join(xs[1..], sep);
      JoinCount(xs[1..], sep, c);
      assert Join(xs, sep) == xs[0] + sep + tail;
      assert multiset(Join(xs, sep)) == multiset(xs[0]) + multiset(sep) + multiset(tail);
      var k := multiset(sep)[c];
      assert multiset(tail)[c] == (|xs| - 2) * k;
      assert multiset(Join(xs, sep))[c] == 0 + k + (|xs| - 2) * k;
    }
  }

  function DigitChar(d: nat): char
    requires d < 10
  {
    "0123456789"[d]
  }

  predicate IsDigit(c: char)
  {
    '0' <= c <= '9'
  }

  /** `String(n)` for a non-negative integer: its shortest decimal form. */
  function NatToString(n: nat): (s: string)
    ensures |s| > 0 && (forall i :: 0 <= i < |s| ==> IsDigit(s[i]))
    ensures (|s| == 1) == (n < 10)
    ensures n >= 10 ==> s[0] != '0'
    decreases n
  {
    if n < 10 then [DigitChar(n)] else NatToString(n / 10) + [DigitChar(n % 10)]
  }

  /** `String(n)` for any integer. */
  function IntToString(n: int): (s: string)
    ensures |s| > 0
  {
    if n < 0 then "-" + NatToString(-n) else NatToString(n)
  }

  function DigitValue(c: char): nat
    requires IsDigit(c)
  {
    c as int - '0' as int
  }

  /** The value of a string of decimal digits, read most significant first. */
  function DigitsValue(s: string): nat
    requires forall i :: 0 <= i < |s| ==> IsDigit(s[i])
    decreases |s|
  {
    if |s| == 0 then 0 else DigitsValue(s[..|s| - 1]) * 10 + DigitValue(s[|s| - 1])
  }

  /** `String(n)` loses nothing: reading its digits back yields `n`. */
  lemma {:induction false} NatToStringRoundTrip(n: nat)
    ensures DigitsValue(NatToString(n)) == n
    decreases n
  {
    var s := NatToString(n);
    if n >= 10 {
      NatToStringRoundTrip(n / 10);
      assert s[..|s| - 1] == NatToString(n / 10);
    }
  }

  /** The characters `String.prototype.trim` removes: ECMAScript WhiteSpace and LineTerminator. */
  predicate IsJsWhitespace(c: char)
  {
    c == '\t' || c == '\n' || c == '\U{000B}' || c == '\U{000C}' || c == '\r' || c == ' '
    || c == '\U{00A0}' || c == '\U{1680}' || ('\U{2000}' <= c <= '\U{200A}')
    || c == '\U{2028}' || c == '\U{2029}' || c == '\U{202F}' || c == '\U{205F}'
    || c == '\U{3000}' || c == '\U{FEFF}'
  }

  function TrimStart(s: string): (t: string)
    ensures |t| <= |s| && t == s[|s| - |t|..]
    ensures forall k :: 0 <= k < |s| - |t| ==> IsJsWhitespace(s[k])
    ensures |t| > 0 ==> !IsJsWhitespace(t[0])
    decreases |s|
  {
    if |s| > 0 && IsJsWhitespace(s[0]) then TrimStart(s[1..]) else s
  }

  function TrimEnd(s: string): (t: string)
    ensures |t| <= |s| && t == s[..|t|]
    ensures forall k :: |t| <= k < |s| ==> IsJsWhitespace(s[k])
    ensures |t| > 0 ==> !IsJsWhitespace(t[|t| - 1])
    decreases |s|
  {
    if |s| > 0 && IsJsWhitespace(s[|s| - 1]) then TrimEnd(s[..|s| - 1]) else s
  }

  /** `String.prototype.trim`: the input with its leading and trailing whitespace cut away. The
      result is the stretch of `s` that starts where `TrimStart` stops; everything before and
      after that stretch is whitespace, and the stretch neither starts nor ends with any. */
  function Trim(s: string): (t: string)
    ensures var i := |s| - |TrimStart(s)|;
      && i + |t| <= |s| && t == s[i..i + |t|]
      && (forall k :: 0 <= k < i ==> IsJsWhitespace(s[k]))
      && (forall k :: i + |t| <= k < |s| ==> IsJsWhitespace(s[k]))
    ensures |t| > 0 ==> !IsJsWhitespace(t[0]) && !IsJsWhitespace(t[|t| - 1])
  {
    var u := TrimStart(s);
    var t := TrimEnd(u);
    TrimSuffix(s, u, t);
    t
  }

  /** Trimming the end of a suffix `u` of `s` leaves a stretch of `s` whose tail is whitespace. */
  lemma TrimSuffix(s: string, u: string, t: string)
    requires |u| <= |s| && u == s[|s| - |u|..]
    requires |t| <= |u| && t == u[..|t|]
    requires forall k :: |t| <= k < |u| ==> IsJsWhitespace(u[k])
    ensures var i := |s| - |u|; t == s[i..i + |t|]
    ensures forall k :: |s| - |u| + |t| <= k < |s| ==> IsJsWhitespace(s[k])
  {
    var i := |s| - |u|;
    forall k | i + |t| <= k < |s|
      ensures IsJsWhitespace(s[k])
    {
      assert s[k] == u[k - i];
    }
  }
}
