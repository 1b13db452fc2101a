/** The version-history tab (src/popup/components/version.ts): release notes sorted newest first,
    hidden ones dropped, each with an escaped title, a badge, a release date and its HTML body
    with Bootstrap classes added. */
module Version {
  import opened Values
  import opened Text
  import opened Html
  import opened MdLoader
  import opened Docs

  /** `MARKDOWN_CLASS_MAP` of the version tab, in declaration order. */
  const VERSION_CLASS_MAP: ClassMap := [
    ("h1", "fs-6 mb-2"), ("h2", "fs-6 mb-2"), ("h3", "fs-6 mb-2"),
    ("h4", "fs-6 mb-2"), ("h5", "fs-6 mb-2"), ("h6", "fs-6 mb-2"),
    ("p", "small mb-2"), ("ul", "small mb-2 ps-3"), ("ol", "small mb-2 ps-3"),
    ("li", "mb-1")]

  const CURRENT_BADGE := "<span class=\"badge bg-success\">現在使用中</span>"
  const LATEST_BADGE := "<span class=\"badge bg-primary\">最新</span>"
  const NO_VERSIONS := "<p class=\"text-center text-muted mt-5\">更新履歴がありません</p>"

  /** `String(id || title || '')`. */
  function VersionString(meta: DocMeta): (v: string)
    ensures meta.id != "" ==> v == meta.id
    ensures meta.id == "" ==> v == meta.title
  {
    if meta.id != "" then meta.id else if meta.title != "" then meta.title else ""
  }

  /** `escapeHtml(title || version || 'Version')`. */
  function DisplayTitle(meta: DocMeta, version: string): (t: string)
    ensures t == EscapeHtml(if meta.title != "" then meta.title else if version != "" then version else "Version")
    ensures '<' !in t && '>' !in t
  {
    var chosen := if meta.title != "" then meta.title else if version != "" then version else "Version";
    EscapeHtmlProperties(chosen);
    EscapeHtml(chosen)
  }

  /** `createBadgeHTML`: the running version wins over "latest", which only the first item gets. */
  function BadgeHtml(version: string, currentVersion: string, isFirst: bool): (b: string)
    ensures version == currentVersion ==> b == CURRENT_BADGE
    ensures version != currentVersion && isFirst ==> b == LATEST_BADGE
    ensures version != currentVersion && !isFirst ==> b == ""
  {
    if version == currentVersion then CURRENT_BADGE
    else if isFirst then LATEST_BADGE
    else ""
  }

  /** The release date line: a text decided by `formatReleaseDate`, or a raw value left to
      `new Date(raw)`, which this model does not evaluate. */
  datatype DateText = DateShown(text: string) | DateFallback(raw: string)

  /** `raw` starts with `\d{4}-\d{2}-\d{2}` (ASCII digits). */
  predicate HasDatePrefix(raw: string)
  {
    |raw| >= 10
    && IsDigit(raw[0]) && IsDigit(raw[1]) && IsDigit(raw[2]) && IsDigit(raw[3]) && raw[4] == '-'
    && IsDigit(raw[5]) && IsDigit(raw[6]) && raw[7] == '-' && IsDigit(raw[8]) && IsDigit(raw[9])
  }

  /** `formatReleaseDate`: nothing for an absent or blank value; the leading `YYYY-MM-DD` of the
      trimmed value when it has one; otherwise the `Date` fallback. */
  function FormatReleaseDate(dateValue: Option<string>): (d: DateText)
    ensures (dateValue.None? || Trim(dateValue.value) == "") ==> d == DateShown("")
    ensures d.DateShown? && d.text != "" ==> (dateValue.Some?
      && |d.text| == 10 && HasDatePrefix(d.text) && StartsWith(Trim(dateValue.value), d.text))
    ensures d.DateFallback? ==> (dateValue.Some? && d.raw == Trim(dateValue.value)
      && d.raw != "" && !HasDatePrefix(d.raw))
    ensures dateValue.Some? && HasDatePrefix(Trim(dateValue.value))
      ==> d == DateShown(Trim(dateValue.value)[..10])
    ensures dateValue.Some? && Trim(dateValue.value) != "" && !HasDatePrefix(Trim(dateValue.value))
      ==> d == DateFallback(Trim(dateValue.value))
  {
    if dateValue.None? || Trim(dateValue.value) == "" then DateShown("")
    else
      var raw := Trim(dateValue.value);
      if HasDatePrefix(raw) then DateShown(raw[..10]) else DateFallback(raw)
  }

  /** One `<li>` of the list. */
  datatype VersionEntry = VersionEntry(title: string, badge: string, date: DateText, body: string)

  /** The tab's content: the placeholder paragraph, or the list of releases. */
  datatype VersionTab = NoVersions | VersionList(entries: seq<VersionEntry>)

  /** The entry for the item at position `index` of the displayed list. */
  function EntryFor(item: DocItem, index: nat, currentVersion: string): VersionEntry
  {
    var version := VersionString(item.metadata);
    VersionEntry(
      DisplayTitle(item.metadata, version),
      BadgeHtml(version, currentVersion, index == 0),
      FormatReleaseDate(Some(item.metadata.date)),
      ApplyClassMap(item.content, VERSION_CLASS_MAP))
  }

  /** `setupVersionTab`: the visible releases by descending order, or the placeholder. */
  function SetupVersionTab(items: seq<DocItem>, currentVersion: string): (tab: VersionTab)
    ensures tab.NoVersions? <==> forall x :: x in items ==> !Shown(x)
  {
    var shown := ShownSorted(items, Descending);
    if |shown| == 0 then
      NoVersions
    else
      assert shown[0] in shown;
      VersionList(seq(|shown|, i requires 0 <= i < |shown| => EntryFor(shown[i], i, currentVersion)))
  }

  lemma VersionTagsDistinct()
    ensures DistinctTags(VERSION_CLASS_MAP)
  {
    TagsDistinct(VERSION_CLASS_MAP);
  }

  lemma VersionClassMapWellFormed()
    ensures WellFormedMap(VERSION_CLASS_MAP)
  {
    forall i | 0 <= i < |VERSION_CLASS_MAP|
      ensures TagName(VERSION_CLASS_MAP[i].0) && '<' !in VERSION_CLASS_MAP[i].1
    {
    }
  }

  /** The list shows every visible release once, newest (largest order) first; the first entry
      always carries a badge and no other entry is marked as latest; each entry carries the badge
      `createBadgeHTML` gives its release at its position, which marks it as the running version
      exactly when its version string is the current one; each entry shows its release's escaped
      title, its formatted release date and its styled body; the title holds no markup; and the
      body keeps none of the bare mapped tags. */
  lemma VersionListShape(items: seq<DocItem>, currentVersion: string)
    ensures var tab := SetupVersionTab(items, currentVersion);
      var shown := ShownSorted(items, Descending);
      tab.VersionList? ==> (
        && |tab.entries| == |shown|
        && (forall i, j :: 0 <= i < j < |shown| ==> shown[i].metadata.order >= shown[j].metadata.order)
        && tab.entries[0].badge != ""
        && (forall i :: 0 < i < |tab.entries| ==> tab.entries[i].badge != LATEST_BADGE)
        && (forall i :: 0 <= i < |tab.entries| ==>
              (tab.entries[i].badge == CURRENT_BADGE <==> VersionString(shown[i].metadata) == currentVersion))
        && (forall i :: 0 <= i < |tab.entries| ==>
              && tab.entries[i].badge == BadgeHtml(VersionString(shown[i].metadata), currentVersion, i == 0)
              && tab.entries[i].title == DisplayTitle(shown[i].metadata, VersionString(shown[i].metadata))
              && tab.entries[i].date == FormatReleaseDate(Some(shown[i].metadata.date))
              && tab.entries[i].body == ApplyClassMap(shown[i].content, VERSION_CLASS_MAP))
        && (forall i :: 0 <= i < |tab.entries| ==> '<' !in tab.entries[i].title)
        && (forall i, k :: 0 <= i < |tab.entries| && 0 <= k < |VERSION_CLASS_MAP| ==>
              !Occurs(OpenTag(VERSION_CLASS_MAP[k].0), tab.entries[i].body)))
  {
    var tab := SetupVersionTab(items, currentVersion);
    var shown := ShownSorted(items, Descending);
    if tab.VersionList? {
      forall i, j | 0 <= i < j < |shown|
        ensures shown[i].metadata.order >= shown[j].metadata.order
      {
        assert Key(shown[i], Descending) <= Key(shown[j], Descending);
      }
      VersionEntriesShow(tab.entries, shown, currentVersion);
    }
  }

  /** What the entries built from the displayed releases show, position by position. */
  lemma VersionEntriesShow(entries: seq<VersionEntry>, shown: seq<DocItem>, currentVersion: string)
    requires |entries| == |shown| > 0
    requires forall i :: 0 <= i < |entries| ==> entries[i] == EntryFor(shown[i], i, currentVersion)
    ensures entries[0].badge != ""
    ensures forall i :: 0 < i < |entries| ==> entries[i].badge != LATEST_BADGE
    ensures forall i :: 0 <= i < |entries| ==>
      (entries[i].badge == CURRENT_BADGE <==> VersionString(shown[i].metadata) == currentVersion)
    ensures forall i :: 0 <= i < |entries| ==>
      && entries[i].badge == BadgeHtml(VersionString(shown[i].metadata), currentVersion, i == 0)
      && entries[i].title == DisplayTitle(shown[i].metadata, VersionString(shown[i].metadata))
      && entries[i].date == FormatReleaseDate(Some(shown[i].metadata.date))
      && entries[i].body == ApplyClassMap(shown[i].content, VERSION_CLASS_MAP)
    ensures forall i :: 0 <= i < |entries| ==> '<' !in entries[i].title
    ensures forall i, k :: 0 <= i < |entries| && 0 <= k < |VERSION_CLASS_MAP| ==>
      !Occurs(OpenTag(VERSION_CLASS_MAP[k].0), entries[i].body)
  {
    BadgesDiffer();
    VersionBodiesStyled(entries, shown, currentVersion);
  }

  lemma BadgesDiffer()
    ensures CURRENT_BADGE != LATEST_BADGE && CURRENT_BADGE != "" && LATEST_BADGE != ""
  {
    assert CURRENT_BADGE[24] != LATEST_BADGE[24];
  }

  /** Every body of a displayed list keeps none of the bare mapped tags. */
  lemma VersionBodiesStyled(entries: seq<VersionEntry>, shown: seq<DocItem>, currentVersion: string)
    requires |entries| == |shown|
    requires forall i :: 0 <= i < |entries| ==> entries[i] == EntryFor(shown[i], i, currentVersion)
    ensures forall i, k :: 0 <= i < |entries| && 0 <= k < |VERSION_CLASS_MAP| ==>
      !Occurs(OpenTag(VERSION_CLASS_MAP[k].0), entries[i].body)
  {
    VersionClassMapWellFormed();
    forall i, k | 0 <= i < |entries| && 0 <= k < |VERSION_CLASS_MAP|
      ensures !Occurs(OpenTag(VERSION_CLASS_MAP[k].0), entries[i].body)
    {
      NoBareMappedTag(shown[i].content, VERSION_CLASS_MAP, k);
    }
  }
}
