/** What the version and document tabs share: bundled Markdown documents, their ordering by
    `metadata.order` with `Array.prototype.sort` (a stable sort), the `visible !== false` filter,
    and the exact-tag class rewriting of `applyMarkdownClassMap`
    (src/popup/components/version.ts and src/popup/components/document.ts). */
module Docs {
  import opened Text
  import opened MdLoader

  /** A bundled document: its metadata and its content rendered to HTML. */
  datatype DocItem = DocItem(metadata: DocMeta, content: string)

  /** The direction of the comparator: `a.order - b.order` or `b.order - a.order`. */
  datatype Direction = Ascending | Descending

  /** The sort key: the order, negated when sorting in descending order. */
  function Key(item: DocItem, dir: Direction): int
  {
    if dir == Ascending then item.metadata.order else -item.metadata.order
  }

  predicate SortedBy(items: seq<DocItem>, dir: Direction)
  {
    forall i, j :: 0 <= i < j < |items| ==> Key(items[i], dir) <= Key(items[j], dir)
  }

  /** The items whose key is `k`, in their order in `items`. */
  function WithKey(items: seq<DocItem>, dir: Direction, k: int): seq<DocItem>
    decreases |items|
  {
    if |items| == 0 then []
    else WithKey(items[..|items| - 1], dir, k)
         + (if Key(items[|items| - 1], dir) == k then [items[|items| - 1]] else [])
  }

  /** Inserts `x` into a sorted sequence after every item whose key is not greater. */
  function Insert(x: DocItem, s: seq<DocItem>, dir: Direction): (r: seq<DocItem>)
    ensures |r| == |s| + 1
    decreases |s|
  {
    if |s| == 0 then [x]
    else if Key(s[|s| - 1], dir) <= Key(x, dir) then s + [x]
    else Insert(x, s[..|s| - 1], dir) + [s[|s| - 1]]
  }

  lemma {:induction false} InsertPermutes(x: DocItem, s: seq<DocItem>, dir: Direction)
    ensures multiset(Insert(x, s, dir)) == multiset(s) + multiset{x}
    decreases |s|
  {
    if |s| > 0 && Key(s[|s| - 1], dir) > Key(x, dir) {
      InsertPermutes(x, s[..|s| - 1], dir);
      assert s == s[..|s| - 1] + [s[|s| - 1]];
    }
  }

  lemma {:induction false} InsertBounded(x: DocItem, s: seq<DocItem>, dir: Direction, b: int)
    requires forall i :: 0 <= i < |s| ==> Key(s[i], dir) <= b
    requires Key(x, dir) <= b
    ensures forall i :: 0 <= i < |s| + 1 ==> Key(Insert(x, s, dir)[i], dir) <= b
    decreases |s|
  {
    if |s| > 0 && Key(s[|s| - 1], dir) > Key(x, dir) {
      InsertBounded(x, s[..|s| - 1], dir, b);
    }
  }

  lemma SortedSnoc(s: seq<DocItem>, x: DocItem, dir: Direction)
    requires SortedBy(s, dir)
    requires forall i :: 0 <= i < |s| ==> Key(s[i], dir) <= Key(x, dir)
    ensures SortedBy(s + [x], dir)
  {
  }

  lemma {:induction false} InsertSorted(x: DocItem, s: seq<DocItem>, dir: Direction)
    requires SortedBy(s, dir)
    ensures SortedBy(Insert(x, s, dir), dir)
    decreases |s|
  {
    if |s| > 0 {
      var init, last := s[..|s| - 1], s[|s| - 1];
      if Key(last, dir) <= Key(x, dir) {
        SortedSnoc(s, x, dir);
      } else {
        InsertSorted(x, init, dir);
        InsertBounded(x, init, dir, Key(last, dir));
        SortedSnoc(Insert(x, init, dir), last, dir);
      }
    }
  }

  /** The comparator sort: each item in turn is placed after the items already placed whose key
      is not greater than its own. */
  function SortByOrder(items: seq<DocItem>, dir: Direction): (r: seq<DocItem>)
    ensures SortedBy(r, dir)
    ensures multiset(r) == multiset(items)
    decreases |items|
  {
    if |items| == 0 then []
    else
      var init, last := items[..|items| - 1], items[|items| - 1];
      var sorted := SortByOrder(init, dir);
      InsertSorted(last, sorted, dir);
      InsertPermutes(last, sorted, dir);
      assert items == init + [last];
      Insert(last, sorted, dir)
  }

  lemma WithKeySnoc(s: seq<DocItem>, x: DocItem, dir: Direction, k: int)
    ensures WithKey(s + [x], dir, k) == WithKey(s, dir, k) + (if Key(x, dir) == k then [x] else [])
  {
    assert (s + [x])[..|s|] == s;
  }

  /** Insertion keeps the items of one key in their order, with the new item after them. */
  lemma {:induction false} WithKeyInsert(x: DocItem, s: seq<DocItem>, dir: Direction, k: int)
    ensures WithKey(Insert(x, s, dir), dir, k) == WithKey(s, dir, k) + (if Key(x, dir) == k then [x] else [])
    decreases |s|
  {
    if |s| == 0 {
      WithKeySnoc([], x, dir, k);
    } else if Key(s[|s| - 1], dir) <= Key(x, dir) {
      WithKeySnoc(s, x, dir, k);
    } else {
      var init, last := s[..|s| - 1], s[|s| - 1];
      var ins := Insert(x, init, dir);
      var xs := if Key(x, dir) == k then [x] else [];
      var ls := if Key(last, dir) == k then [last] else [];
      assert Insert(x, s, dir) == ins + [last];
      assert WithKey(ins, dir, k) == WithKey(init, dir, k) + xs by {
        WithKeyInsert(x, init, dir, k);
      }
      assert WithKey(ins + [last], dir, k) == WithKey(ins, dir, k) + ls by {
        WithKeySnoc(ins, last, dir, k);
      }
      assert WithKey(s, dir, k) == WithKey(init, dir, k) + ls by {
        assert s == init + [last];
        WithKeySnoc(init, last, dir, k);
      }
      // `x` sorts strictly before `last`, so at most one of them has key `k`.
      assert xs == [] || ls == [];
      SwapEmpty(WithKey(init, dir, k), xs, ls);
    }
  }

  /** Appending two sequences of which one is empty does not depend on their order. */
  lemma SwapEmpty(b: seq<DocItem>, xs: seq<DocItem>, ls: seq<DocItem>)
    requires xs == [] || ls == []
    ensures b + xs + ls == b + ls + xs
  {
    if xs == [] {
      assert b + xs == b;
      assert b + ls + xs == b + ls;
    } else {
      assert b + xs + ls == b + xs;
      assert b + ls == b;
    }
  }

  /** The sort is stable: the items sharing a key keep their relative order. Together with
      `SortedBy` and the multiset equality, this fixes the result completely. */
  lemma {:induction false} SortIsStable(items: seq<DocItem>, dir: Direction, k: int)
    ensures WithKey(SortByOrder(items, dir), dir, k) == WithKey(items, dir, k)
    decreases |items|
  {
    if |items| > 0 {
      var init, last := items[..|items| - 1], items[|items| - 1];
      var sorted := SortByOrder(init, dir);
      assert SortByOrder(items, dir) == Insert(last, sorted, dir);
      SortIsStable(init, dir, k);
      WithKeyInsert(last, sorted, dir, k);
    }
  }

  /** `visible !== false` after defaulting: the document is shown. */
  predicate Shown(item: DocItem)
  {
    item.metadata.visible
  }

  /** `items.filter(item => item.metadata.visible !== false)`: each shown item as often as it
      occurs, each hidden one not at all. */
  function ShownItems(items: seq<DocItem>): (r: seq<DocItem>)
    ensures |r| <= |items|
    ensures forall x :: x in r <==> x in items && Shown(x)
    decreases |items|
  {
    if |items| == 0 then []
    else ShownItems(items[..|items| - 1]) + (if Shown(items[|items| - 1]) then [items[|items| - 1]] else [])
  }

  /** The filter keeps each shown item as often as it occurs and drops every hidden one. */
  lemma {:induction false} ShownItemsCount(items: seq<DocItem>, x: DocItem)
    ensures multiset(ShownItems(items))[x] == if Shown(x) then multiset(items)[x] else 0
    decreases |items|
  {
    if |items| > 0 {
      var init, last := items[..|items| - 1], items[|items| - 1];
      assert items == init + [last];
      ShownItemsCount(init, x);
    }
  }

  /** The filter works piece by piece, so it keeps the order of the items it keeps. */
  lemma {:induction false} ShownItemsAppend(a: seq<DocItem>, b: seq<DocItem>)
    ensures ShownItems(a + b) == ShownItems(a) + ShownItems(b)
    decreases |b|
  {
    if |b| == 0 {
      assert a + b == a;
    } else {
      var init, last := b[..|b| - 1], b[|b| - 1];
      assert (a + b)[..|a + b| - 1] == a + init;
      ShownItemsAppend(a, init);
    }
  }

  /** Filtering and picking out one key commute. */
  lemma {:induction false} ShownItemsWithKey(s: seq<DocItem>, dir: Direction, k: int)
    ensures WithKey(ShownItems(s), dir, k) == ShownItems(WithKey(s, dir, k))
    decreases |s|
  {
    if |s| > 0 {
      var init, last := s[..|s| - 1], s[|s| - 1];
      var kept := if Key(last, dir) == k then [last] else [];
      ShownItemsWithKey(init, dir, k);
      if Shown(last) {
        WithKeySnoc(ShownItems(init), last, dir, k);
      } else {
        assert ShownItems(init) + [] == ShownItems(init);
      }
      ShownItemsAppend(WithKey(init, dir, k), kept);
    }
  }

  /** Filtering keeps the order: a subsequence of a sorted sequence is sorted. */
  lemma {:induction false} ShownItemsSorted(items: seq<DocItem>, dir: Direction)
    requires SortedBy(items, dir)
    ensures SortedBy(ShownItems(items), dir)
    ensures forall x :: x in ShownItems(items) ==> x in items
    decreases |items|
  {
    if |items| > 0 {
      var init, last := items[..|items| - 1], items[|items| - 1];
      assert SortedBy(init, dir);
      ShownItemsSorted(init, dir);
      var r := ShownItems(init);
      forall y | y in r ensures Key(y, dir) <= Key(last, dir) {
        var j :| 0 <= j < |init| && init[j] == y;
        assert items[j] == y;
      }
    }
  }

  /** What a tab displays: the shown items, sorted by order in the given direction. */
  function ShownSorted(items: seq<DocItem>, dir: Direction): (r: seq<DocItem>)
    ensures SortedBy(r, dir)
    ensures forall x :: x in r <==> x in items && Shown(x)
    ensures multiset(r) == multiset(ShownItems(items))
  {
    var sorted := SortByOrder(items, dir);
    ShownItemsSorted(sorted, dir);
    assert forall x :: x in sorted <==> x in multiset(sorted);
    forall x ensures multiset(ShownItems(sorted))[x] == multiset(ShownItems(items))[x] {
      ShownItemsCount(sorted, x);
      ShownItemsCount(items, x);
    }
    ShownItems(sorted)
  }

  /** The display keeps the shown items of each order value in their bundled order: it is the
      filter of the stable sort, and with `SortedBy` and the multiset equality this fixes it. */
  lemma ShownSortedByKey(items: seq<DocItem>, dir: Direction, k: int)
    ensures WithKey(ShownSorted(items, dir), dir, k) == ShownItems(WithKey(items, dir, k))
  {
    ShownItemsWithKey(SortByOrder(items, dir), dir, k);
    SortIsStable(items, dir, k);
  }

  // ----- exact-tag class rewriting -----

  /** `<tag>`. */
  function OpenTag(tag: string): string
  {
    "<" + tag + ">"
  }

  /** `<tag class="className">`. */
  function OpenTagWithClass(tag: string, className: string): string
  {
    "<" + tag + " class=\"" + className + "\">"
  }

  /** A class map as `Object.entries` lists it: tag and class name, in declaration order. */
  type ClassMap = seq<(string, string)>

  /** A tag name that cannot overlap another tag's markup: non-empty, and free of `<`, `>` and
      spaces. */
  predicate TagName(tag: string)
  {
    |tag| > 0 && '<' !in tag && '>' !in tag && ' ' !in tag
  }

  predicate WellFormedMap(cmap: ClassMap)
  {
    forall i :: 0 <= i < |cmap| ==> TagName(cmap[i].0) && '<' !in cmap[i].1
  }

  /** `result.replace(new RegExp(openTag, 'g'), openTagWithClass)` for one entry. */
  function RewriteTag(html: string, tag: string, className: string): string
  {
    ReplaceAll(html, OpenTag(tag), OpenTagWithClass(tag, className))
  }

  /** `applyMarkdownClassMap`: the entries applied left to right, as `reduce` does. HTML holding
      none of the mapped bare tags (only tags with attributes, or unmapped ones) is left exactly
      as it is. */
  function ApplyClassMap(html: string, cmap: ClassMap): (r: string)
    ensures (forall i :: 0 <= i < |cmap| ==> !Occurs(OpenTag(cmap[i].0), html)) ==> r == html
    decreases |cmap|
  {
    if |cmap| == 0 then html
    else
      var init, last := cmap[..|cmap| - 1], cmap[|cmap| - 1];
      assert forall i :: 0 <= i < |init| ==> init[i] == cmap[i];
      RewriteTag(ApplyClassMap(html, init), last.0, last.1)
  }

  /** No two entries of the map name the same tag. */
  predicate DistinctTags(cmap: ClassMap)
  {
    forall i, j :: 0 <= i < |cmap| && 0 <= j < |cmap| && i != j ==> cmap[i].0 != cmap[j].0
  }

  /** The tag names the two Markdown class maps list, in their declaration order. */
  const MARKDOWN_TAGS := ["h1", "h2", "h3", "h4", "h5", "h6", "p", "ul", "ol", "li"]

  /** A map over exactly the Markdown tags names each tag once. */
  lemma TagsDistinct(cmap: ClassMap)
    requires |cmap| == |MARKDOWN_TAGS|
    requires forall i :: 0 <= i < |cmap| ==> cmap[i].0 == MARKDOWN_TAGS[i]
    ensures DistinctTags(cmap)
  {
  }

  /** The bare markup of one tag name starts with that of another only when the names agree. */
  lemma OpenTagPrefix(t: string, u: string)
    requires TagName(t) && TagName(u)
    ensures StartsWith(OpenTag(t), OpenTag(u)) ==> t == u
  {
    var a, b := OpenTag(t), OpenTag(u);
    if |u| < |t| {
      assert a[|u| + 1] == t[|u|] && b[|u| + 1] == '>';
      assert t[|u|] in t;
      assert a[..|b|][|u| + 1] == a[|u| + 1];
    } else if |u| == |t| {
      assert a[1..|a| - 1] == t && b[1..|b| - 1] == u;
    }
  }

  /** The markup a tag of entry `e` has once the entries up to and including `e` have run
      (`rewritten`), or before. */
  function TagAfter(e: (string, string), rewritten: bool): string
  {
    if rewritten then OpenTagWithClass(e.0, e.1) else OpenTag(e.0)
  }

  /** The replacement markup of one tag never contains the bare markup of another (or its own),
      and the other way round. */
  lemma RewriteIsSafe(t: string, c: string, u: string)
    requires TagName(t) && TagName(u) && '<' !in c
    ensures SafeReplacement(OpenTag(t), OpenTagWithClass(t, c), OpenTag(u))
  {
    var r, q := OpenTagWithClass(t, c), OpenTag(u);
    assert r == "<" + (t + " class=\"" + c + "\">");
    assert r[1..] == t + " class=\"" + c + "\">";
    assert q[1..] == u + ">";
    assert '<' !in r[1..];
    assert '<' !in q[1..];
    // The first position past the shorter tag name tells the two apart.
    var m := if |u| < |t| then |u| + 1 else |t| + 1;
    assert m < |q| && m < |r|;
    if |u| < |t| {
      assert r[m] == t[|u|] && q[m] == '>';
    } else if |u| == |t| {
      assert r[m] == ' ' && q[m] == '>';
    } else {
      assert r[m] == ' ' && q[m] == u[|t|];
    }
    assert r[m] != q[m];
  }

  /** After the rewrite no bare mapped tag is left: each entry removes its own tag, and no later
      entry creates one, since the inserted markup contains no other bare tag. */
  lemma {:induction false} NoBareMappedTag(html: string, cmap: ClassMap, i: nat)
    requires WellFormedMap(cmap) && i < |cmap|
    ensures !Occurs(OpenTag(cmap[i].0), ApplyClassMap(html, cmap))
    decreases |cmap|
  {
    var init, last := cmap[..|cmap| - 1], cmap[|cmap| - 1];
    var before := ApplyClassMap(html, init);
    RewriteIsSafe(last.0, last.1, cmap[i].0);
    if i < |cmap| - 1 {
      assert init[i] == cmap[i];
      NoBareMappedTag(html, init, i);
    }
    ReplaceAllLeavesNo(before, OpenTag(last.0), OpenTagWithClass(last.0, last.1), OpenTag(cmap[i].0));
  }

  /** Stage `j` of the rewrite around one bare tag of entry `k`: after the first `j` entries the
      tag carries its class exactly when entry `k` was among them, and the text before and after
      it is rewritten as if on its own. */
  lemma {:induction false} RewriteAroundTag(a: string, b: string, cmap: ClassMap, k: nat, j: nat)
    requires WellFormedMap(cmap) && DistinctTags(cmap)
    requires k < |cmap| && j <= |cmap|
    ensures ApplyClassMap(a + OpenTag(cmap[k].0) + b, cmap[..j])
      == ApplyClassMap(a, cmap[..j]) + TagAfter(cmap[k], k < j) + ApplyClassMap(b, cmap[..j])
    decreases j
  {
    var tag := cmap[k];
    if j == 0 {
      assert cmap[..0] == [];
    } else {
      var e := cmap[j - 1];
      RewriteAroundTag(a, b, cmap, k, j - 1);
      ApplyClassMapStep(a + OpenTag(tag.0) + b, cmap, j);
      ApplyClassMapStep(a, cmap, j);
      ApplyClassMapStep(b, cmap, j);
      TagToken(cmap, k, j);
      TokenStep(ApplyClassMap(a, cmap[..j - 1]), TagAfter(tag, k < j - 1), ApplyClassMap(b, cmap[..j - 1]),
                OpenTag(e.0), OpenTagWithClass(e.0, e.1));
    }
  }

  /** Entry `j - 1` meets the markup of the tag of entry `k` as it stands after the entries
      before it: as its own pattern when `k == j - 1`, and otherwise as a token it cannot match. */
  lemma TagToken(cmap: ClassMap, k: nat, j: nat)
    requires WellFormedMap(cmap) && DistinctTags(cmap)
    requires k < |cmap| && 0 < j <= |cmap|
    ensures var e, tok := cmap[j - 1], TagAfter(cmap[k], k < j - 1);
      var p, r := OpenTag(e.0), OpenTagWithClass(e.0, e.1);
      && LtHeaded(p) && LtHeaded(tok)
      && (tok == p || (!StartsWith(tok, p) && !StartsWith(p, tok)))
      && TagAfter(cmap[k], k < j) == if tok == p then r else tok
  {
    var tag, e := cmap[k], cmap[j - 1];
    RewriteIsSafe(tag.0, tag.1, e.0);
    if k > j - 1 {
      OpenTagPrefix(tag.0, e.0);
      OpenTagPrefix(e.0, tag.0);
    }
  }

  /** The first `j` entries are the first `j - 1` followed by entry `j - 1`. */
  lemma ApplyClassMapStep(html: string, cmap: ClassMap, j: nat)
    requires 0 < j <= |cmap|
    ensures ApplyClassMap(html, cmap[..j])
      == RewriteTag(ApplyClassMap(html, cmap[..j - 1]), cmap[j - 1].0, cmap[j - 1].1)
  {
    assert cmap[..j][..j - 1] == cmap[..j - 1];
  }

  /** `applyMarkdownClassMap` turns each bare opening tag of a mapped element into the same tag
      with its class, and rewrites the text before and after it independently. */
  lemma ClassMapRewritesTag(a: string, b: string, cmap: ClassMap, k: nat)
    requires WellFormedMap(cmap) && DistinctTags(cmap)
    requires k < |cmap|
    ensures ApplyClassMap(a + OpenTag(cmap[k].0) + b, cmap)
      == ApplyClassMap(a, cmap) + OpenTagWithClass(cmap[k].0, cmap[k].1) + ApplyClassMap(b, cmap)
  {
    RewriteAroundTag(a, b, cmap, k, |cmap|);
    assert cmap[..|cmap|] == cmap;
  }
}
