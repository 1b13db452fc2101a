/** `escapeHtml` of src/utils/html.ts: five global replacements applied in sequence. */
module Html {
  import opened Text

  /** `escapeHtml`: the chain of five global replacements, which escapes every character of the
      input on its own. */
  function EscapeHtml(s: string): (r: string)
    ensures r == EscapeEach(s)
  {
    EscapeChainIsEscapeEach(s);
    EscapeChain(s)
  }

  /** `str.replace(/&/g, '&amp;').replace(/</g, '&lt;').replace(/>/g, '&gt;')
      .replace(/"/g, '&quot;').replace(/'/g, '&#39;')`, in that order. */
  function EscapeChain(s: string): string
  {
    var amp := ReplaceAll(s, "&", "&amp;");
    var lt := ReplaceAll(amp, "<", "&lt;");
    var gt := ReplaceAll(lt, ">", "&gt;");
    var quot := ReplaceAll(gt, "\"", "&quot;");
    ReplaceAll(quot, "'", "&#39;")
  }

  /** The entity that stands for one character. */
  function EscapeChar(c: char): string
  {
    if c == '&' then "&amp;"
    else if c == '<' then "&lt;"
    else if c == '>' then "&gt;"
    else if c == '"' then "&quot;"
    else if c == '\'' then "&#39;"
    else [c]
  }

  /** Reference definition: every character escaped on its own. */
  function EscapeEach(s: string): string
    decreases |s|
  {
    if |s| == 0 then "" else EscapeChar(s[0]) + EscapeEach(s[1..])
  }

  lemma {:induction false} NoOccurrenceOfAbsentChar(c: char, s: string)
    requires c !in s
    ensures !Occurs([c], s)
    decreases |s|
  {
    if |s| > 0 {
      assert s[0] != c;
      NoOccurrenceOfAbsentChar(c, s[1..]);
    }
  }

  /** Replacing a single character globally works piece by piece. */
  lemma {:induction false} ReplaceCharConcat(a: string, b: string, c: char, r: string)
    ensures ReplaceAll(a + b, [c], r) == ReplaceAll(a, [c], r) + ReplaceAll(b, [c], r)
    decreases |a|
  {
    if |a| == 0 {
      assert a + b == b;
    } else {
      var head := if a[0] == c then r else [a[0]];
      assert StartsWith(a + b, [c]) == StartsWith(a, [c]) == (a[0] == c) by {
        assert (a + b)[..1] == [a[0]] && a[..1] == [a[0]];
      }
      assert (a + b)[1..] == a[1..] + b;
      assert ReplaceAll(a + b, [c], r) == head + ReplaceAll(a[1..] + b, [c], r);
      assert ReplaceAll(a, [c], r) == head + ReplaceAll(a[1..], [c], r);
      ReplaceCharConcat(a[1..], b, c, r);
    }
  }

  lemma EscapeChainConcat(a: string, b: string)
    ensures EscapeChain(a + b) == EscapeChain(a) + EscapeChain(b)
  {
    var a1, b1 := ReplaceAll(a, "&", "&amp;"), ReplaceAll(b, "&", "&amp;");
    ReplaceCharConcat(a, b, '&', "&amp;");
    var a2, b2 := ReplaceAll(a1, "<", "&lt;"), ReplaceAll(b1, "<", "&lt;");
    ReplaceCharConcat(a1, b1, '<', "&lt;");
    var a3, b3 := ReplaceAll(a2, ">", "&gt;"), ReplaceAll(b2, ">", "&gt;");
    ReplaceCharConcat(a2, b2, '>', "&gt;");
    var a4, b4 := ReplaceAll(a3, "\"", "&quot;"), ReplaceAll(b3, "\"", "&quot;");
    ReplaceCharConcat(a3, b3, '"', "&quot;");
    ReplaceCharConcat(a4, b4, '\'', "&#39;");
  }

  /** A one-character string that is not the pattern is left as it is. */
  lemma ReplaceOther(x: char, c: char, r: string)
    requires x != c
    ensures ReplaceAll([x], [c], r) == [x]
  {
    NoOccurrenceOfAbsentChar(c, [x]);
  }

  lemma ReplaceSame(c: char, r: string)
    ensures ReplaceAll([c], [c], r) == r
  {
    assert StartsWith([c], [c]);
    assert [c][1..] == "";
  }

  /** Each replacement after the first sees only text the earlier ones produced, and none of
      those entities contains a later pattern: so the chain escapes each character once. */
  lemma EscapeChainChar(x: char)
    ensures EscapeChain([x]) == EscapeChar(x)
  {
    if x == '&' {
      ReplaceSame('&', "&amp;");
      NoOccurrenceOfAbsentChar('<', "&amp;");
      NoOccurrenceOfAbsentChar('>', "&amp;");
      NoOccurrenceOfAbsentChar('"', "&amp;");
      NoOccurrenceOfAbsentChar('\'', "&amp;");
    } else if x == '<' {
      ReplaceOther(x, '&', "&amp;");
      ReplaceSame('<', "&lt;");
      NoOccurrenceOfAbsentChar('>', "&lt;");
      NoOccurrenceOfAbsentChar('"', "&lt;");
      NoOccurrenceOfAbsentChar('\'', "&lt;");
    } else if x == '>' {
      ReplaceOther(x, '&', "&amp;");
      ReplaceOther(x, '<', "&lt;");
      ReplaceSame('>', "&gt;");
      NoOccurrenceOfAbsentChar('"', "&gt;");
      NoOccurrenceOfAbsentChar('\'', "&gt;");
    } else if x == '"' {
      ReplaceOther(x, '&', "&amp;");
      ReplaceOther(x, '<', "&lt;");
      ReplaceOther(x, '>', "&gt;");
      ReplaceSame('"', "&quot;");
      NoOccurrenceOfAbsentChar('\'', "&quot;");
    } else if x == '\'' {
      ReplaceOther(x, '&', "&amp;");
      ReplaceOther(x, '<', "&lt;");
      ReplaceOther(x, '>', "&gt;");
      ReplaceOther(x, '"', "&quot;");
      ReplaceSame('\'', "&#39;");
    } else {
      ReplaceOther(x, '&', "&amp;");
      ReplaceOther(x, '<', "&lt;");
      ReplaceOther(x, '>', "&gt;");
      ReplaceOther(x, '"', "&quot;");
      ReplaceOther(x, '\'', "&#39;");
    }
  }

  /** The replacement chain equals per-character escaping: since `&` is replaced first, the
      entities inserted by the later replacements are not escaped again. */
  lemma {:induction false} EscapeChainIsEscapeEach(s: string)
    ensures EscapeChain(s) == EscapeEach(s)
    decreases |s|
  {
    if |s| == 0 {
      NoOccurrenceOfAbsentChar('&', s);
      NoOccurrenceOfAbsentChar('<', s);
      NoOccurrenceOfAbsentChar('>', s);
      NoOccurrenceOfAbsentChar('"', s);
      NoOccurrenceOfAbsentChar('\'', s);
    } else {
      assert s == [s[0]] + s[1..];
      EscapeChainConcat([s[0]], s[1..]);
      EscapeChainChar(s[0]);
      EscapeChainIsEscapeEach(s[1..]);
    }
  }

  predicate IsMarkupChar(c: char)
  {
    c == '<' || c == '>' || c == '"' || c == '\''
  }

  lemma {:induction false} EscapeEachProperties(s: string)
    ensures var r := EscapeEach(s);
      && (forall i :: 0 <= i < |r| ==> !IsMarkupChar(r[i]))
      && |r| >= |s|
      && ((forall i :: 0 <= i < |s| ==> !IsMarkupChar(s[i]) && s[i] != '&') ==> r == s)
    decreases |s|
  {
    if |s| > 0 {
      EscapeEachProperties(s[1..]);
      var head, tail := EscapeChar(s[0]), EscapeEach(s[1..]);
      assert EscapeEach(s) == head + tail;
      forall i | 0 <= i < |head + tail|
        ensures !IsMarkupChar((head + tail)[i])
      {
        if i >= |head| { assert (head + tail)[i] == tail[i - |head|]; }
      }
      if forall i :: 0 <= i < |s| ==> !IsMarkupChar(s[i]) && s[i] != '&' {
        assert !IsMarkupChar(s[0]) && s[0] != '&';
        assert forall i :: 0 <= i < |s[1..]| ==> !IsMarkupChar(s[1..][i]) && s[1..][i] != '&' by {
          forall i | 0 <= i < |s[1..]| ensures !IsMarkupChar(s[1..][i]) && s[1..][i] != '&' {
            assert s[1..][i] == s[i + 1];
          }
        }
        assert s == [s[0]] + s[1..];
      }
    }
  }

  /** The escaped text contains no `<`, `>`, `"` or `'`; it is at least as long as the input;
      and a text with none of `& < > " '` comes back unchanged. */
  lemma EscapeHtmlProperties(s: string)
    ensures var r := EscapeHtml(s);
      && '<' !in r && '>' !in r && '"' !in r && '\'' !in r
      && |r| >= |s|
      && ((forall i :: 0 <= i < |s| ==> !IsMarkupChar(s[i]) && s[i] != '&') ==> r == s)
  {
    EscapeEachProperties(s);
  }

  lemma {:induction false} EscapeEachAmpersand(s: string)
    requires '&' in s
    ensures '&' in EscapeEach(s) && |EscapeEach(s)| >= |s| + 4
    decreases |s|
  {
    var head, tail := EscapeChar(s[0]), EscapeEach(s[1..]);
    assert EscapeEach(s) == head + tail;
    if s[0] == '&' {
      EscapeEachProperties(s[1..]);
      assert (head + tail)[0] == '&';
    } else {
      assert '&' in s[1..] by {
        var i :| 0 <= i < |s| && s[i] == '&';
        assert s[1..][i - 1] == '&';
      }
      EscapeEachAmpersand(s[1..]);
      assert |head| >= 1;
      var j :| 0 <= j < |tail| && tail[j] == '&';
      assert (head + tail)[|head| + j] == '&';
    }
  }

  /** Escaping is not idempotent: once a text holds an ampersand, escaping the escaped text
      again turns every `&` into `&amp;` a second time. */
  lemma EscapeHtmlNotIdempotent(s: string)
    requires '&' in s
    ensures |EscapeHtml(EscapeHtml(s))| >= |EscapeHtml(s)| + 4
    ensures EscapeHtml(EscapeHtml(s)) != EscapeHtml(s)
  {
    var once := EscapeHtml(s);
    EscapeEachAmpersand(s);
    EscapeEachAmpersand(once);
  }

  /** Decoding of the five entities `escapeHtml` produces. */
  function Unescape(s: string): string
    decreases |s|
  {
    if |s| == 0 then ""
    else if StartsWith(s, "&amp;") then "&" + Unescape(s[5..])
    else if StartsWith(s, "&lt;") then "<" + Unescape(s[4..])
    else if StartsWith(s, "&gt;") then ">" + Unescape(s[4..])
    else if StartsWith(s, "&quot;") then "\"" + Unescape(s[6..])
    else if StartsWith(s, "&#39;") then "'" + Unescape(s[5..])
    else [s[0]] + Unescape(s[1..])
  }

  /** Decoding reads each entity back as its character, and any other character as itself. */
  lemma UnescapeAmp(t: string)
    ensures Unescape("&amp;" + t) == "&" + Unescape(t)
  {
    var s := "&amp;" + t;
    assert StartsWith(s, "&amp;") by { assert s[..5] == "&amp;"; }
    assert s[5..] == t;
  }

  lemma UnescapeLt(t: string)
    ensures Unescape("&lt;" + t) == "<" + Unescape(t)
  {
    var s := "&lt;" + t;
    assert !StartsWith(s, "&amp;") by { assert s[1] == 'l'; }
    assert StartsWith(s, "&lt;") by { assert s[..4] == "&lt;"; }
    assert s[4..] == t;
  }

  lemma UnescapeGt(t: string)
    ensures Unescape("&gt;" + t) == ">" + Unescape(t)
  {
    var s := "&gt;" + t;
    assert !StartsWith(s, "&amp;") && !StartsWith(s, "&lt;") by { assert s[1] == 'g'; }
    assert StartsWith(s, "&gt;") by { assert s[..4] == "&gt;"; }
    assert s[4..] == t;
  }

  lemma UnescapeQuot(t: string)
    ensures Unescape("&quot;" + t) == "\"" + Unescape(t)
  {
    var s := "&quot;" + t;
    assert !StartsWith(s, "&amp;") && !StartsWith(s, "&lt;") && !StartsWith(s, "&gt;") by {
      assert s[1] == 'q';
    }
    assert StartsWith(s, "&quot;") by { assert s[..6] == "&quot;"; }
    assert s[6..] == t;
  }

  lemma UnescapeApos(t: string)
    ensures Unescape("&#39;" + t) == "'" + Unescape(t)
  {
    var s := "&#39;" + t;
    assert !StartsWith(s, "&amp;") && !StartsWith(s, "&lt;") && !StartsWith(s, "&gt;")
      && !StartsWith(s, "&quot;") by {
      assert s[1] == '#';
    }
    assert StartsWith(s, "&#39;") by { assert s[..5] == "&#39;"; }
    assert s[5..] == t;
  }

  lemma UnescapePlain(c: char, t: string)
    requires c != '&'
    ensures Unescape([c] + t) == [c] + Unescape(t)
  {
    var s := [c] + t;
    assert s[0] == c && s[1..] == t;
    assert !StartsWith(s, "&amp;") && !StartsWith(s, "&lt;") && !StartsWith(s, "&gt;")
      && !StartsWith(s, "&quot;") && !StartsWith(s, "&#39;");
  }

  lemma UnescapeAfterEscapeChar(c: char, t: string)
    ensures Unescape(EscapeChar(c) + t) == [c] + Unescape(t)
  {
    if c == '&' {
      UnescapeAmp(t);
    } else if c == '<' {
      UnescapeLt(t);
    } else if c == '>' {
      UnescapeGt(t);
    } else if c == '"' {
      UnescapeQuot(t);
    } else if c == '\'' {
      UnescapeApos(t);
    } else {
      UnescapePlain(c, t);
    }
  }

  /** Escaping loses nothing: decoding the entities gives the original text back. */
  lemma {:induction false} UnescapeEscapeHtml(s: string)
    ensures Unescape(EscapeHtml(s)) == s
  {
    UnescapeEscapeEach(s);
  }

  lemma {:induction false} UnescapeEscapeEach(s: string)
    ensures Unescape(EscapeEach(s)) == s
    decreases |s|
  {
    if |s| > 0 {
      UnescapeAfterEscapeChar(s[0], EscapeEach(s[1..]));
      UnescapeEscapeEach(s[1..]);
      assert s == [s[0]] + s[1..];
    }
  }
}
