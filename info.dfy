/** The site-access line of the popup's information tab (`getSiteAccessText` of
    src/popup/components/info.ts). */
module Info {
  import opened Values
  import opened Text
  import opened Html

  const ALL_SITES := "すべてのサイト"
  const ON_CLICK := "クリックされた場合のみ"
  const ALL_URLS := "<all_urls>"
  const BR := "<br>"

  /** The origins, each escaped, in input order. */
  function EscapeAll(origins: seq<string>): (r: seq<string>)
    ensures |r| == |origins|
    ensures forall i :: 0 <= i < |r| ==> r[i] == EscapeHtml(origins[i])
  {
    seq(|origins|, i requires 0 <= i < |origins| => EscapeHtml(origins[i]))
  }

  /** `getSiteAccessText(origins)`: no origins means the extension runs only when clicked;
      `<all_urls>` anywhere in the list means every site; otherwise the escaped origins, one per
      line. */
  function SiteAccessText(origins: Option<seq<string>>): (text: string)
    ensures (origins.None? || origins.value == []) ==> text == ON_CLICK
    ensures origins.Some? && ALL_URLS in origins.value ==> text == ALL_SITES
    ensures origins.Some? && |origins.value| > 0 && ALL_URLS !in origins.value
      ==> Lines(text) == EscapeAll(origins.value)
  {
    if origins.Some? && |origins.value| > 0 then
      if ALL_URLS in origins.value then ALL_SITES
      else
        EscapedLinesSplit(origins.value);
        Join(EscapeAll(origins.value), BR)
    else ON_CLICK
  }

  /** The escaped origins hold no `<`, so the line breaks that join them are the only ones. */
  lemma EscapedLinesSplit(origins: seq<string>)
    requires |origins| > 0
    ensures Lines(Join(EscapeAll(origins), BR)) == EscapeAll(origins)
  {
    var escaped := EscapeAll(origins);
    forall i | 0 <= i < |escaped|
      ensures '<' !in escaped[i]
    {
      EscapeHtmlProperties(origins[i]);
    }
    LinesOfJoin(escaped);
  }

  /** The index of the first line break in `s`, or `|s|` when there is none. */
  function BreakIndex(s: string): (i: nat)
    ensures i <= |s|
    ensures i < |s| ==> i + |BR| <= |s| && s[i..i + |BR|] == BR
    decreases |s|
  {
    if |s| == 0 then 0
    else if StartsWith(s, BR) then 0
    else 1 + BreakIndex(s[1..])
  }

  /** The text split at every line break. */
  function Lines(s: string): (r: seq<string>)
    ensures |r| > 0
    decreases |s|
  {
    var i := BreakIndex(s);
    if i < |s| then [s[..i]] + Lines(s[i + |BR|..]) else [s]
  }

  lemma {:induction false} BreakIndexAfterPlainText(p: string, t: string)
    requires '<' !in p
    ensures BreakIndex(p + t) == |p| + BreakIndex(t)
    decreases |p|
  {
    if |p| > 0 {
      assert (p + t)[0] == p[0];
      assert !StartsWith(p + t, BR);
      assert (p + t)[1..] == p[1..] + t;
      BreakIndexAfterPlainText(p[1..], t);
    } else {
      assert p + t == t;
    }
  }

  lemma LinesOfPlainLine(p: string, rest: Option<string>)
    requires '<' !in p
    ensures rest.None? ==> Lines(p) == [p]
    ensures rest.Some? ==> Lines(p + BR + rest.value) == [p] + Lines(rest.value)
  {
    if rest.None? {
      BreakIndexAfterPlainText(p, "");
      assert p + "" == p;
    } else {
      var s := p + BR + rest.value;
      assert s == p + (BR + rest.value);
      BreakIndexAfterPlainText(p, BR + rest.value);
      assert StartsWith(BR + rest.value, BR);
      assert BreakIndex(s) == |p|;
      assert s[..|p|] == p;
      assert s[|p| + |BR|..] == rest.value;
    }
  }

  /** Joining lines that hold no `<` and splitting at the line breaks gives the lines back. */
  lemma {:induction false} LinesOfJoin(parts: seq<string>)
    requires |parts| > 0
    requires forall i :: 0 <= i < |parts| ==> '<' !in parts[i]
    ensures Lines(Join(parts, BR)) == parts
    decreases |parts|
  {
    if |parts| == 1 {
      LinesOfPlainLine(parts[0], None);
    } else {
      LinesOfJoin(parts[1..]);
      LinesOfPlainLine(parts[0], Some(Join(parts[1..], BR)));
    }
  }

  /** With ordinary origins, the text holds exactly one line per origin, in input order: it has
      `n - 1` occurrences of `<` (one per `<br>`), each line is its origin escaped, and decoding
      each line gives back the origin. */
  lemma PlainOriginsShowOnePerLine(origins: seq<string>)
    requires |origins| > 0 && ALL_URLS !in origins
    ensures var text := SiteAccessText(Some(origins));
      && multiset(text)['<'] == |origins| - 1
      && |Lines(text)| == |origins|
      && (forall i :: 0 <= i < |origins| ==> Lines(text)[i] == EscapeHtml(origins[i]))
      && (forall i :: 0 <= i < |origins| ==> Unescape(Lines(text)[i]) == origins[i])
  {
    var escaped := EscapeAll(origins);
    forall i | 0 <= i < |escaped|
      ensures '<' !in escaped[i]
    {
      EscapeHtmlProperties(origins[i]);
    }
    JoinCount(escaped, BR, '<');
    assert multiset(BR)['<'] == 1;
    EscapedLinesSplit(origins);
    forall i | 0 <= i < |origins|
      ensures Unescape(Lines(SiteAccessText(Some(origins)))[i]) == origins[i]
    {
      UnescapeEscapeHtml(origins[i]);
    }
  }
}
