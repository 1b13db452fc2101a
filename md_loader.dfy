/** The metadata defaults the Markdown loader applies to a document's front matter
    (`toDocumentMeta` of scripts/md-loader.js). */
module MdLoader {
  import opened Values

  /** The front matter as parsed: every field may be absent. `visible` and `expanded` may hold
      any value, since only the boolean `false` switches them off. */
  datatype FrontMatter = FrontMatter(
    id: Option<string>,
    title: Option<string>,
    order: Option<int>,
    visible: Option<Value>,
    expanded: Option<Value>,
    date: Option<string>,
    lang: Option<string>)

  /** The metadata every document and version note carries. */
  datatype DocMeta = DocMeta(
    id: string,
    title: string,
    order: int,
    visible: bool,
    expanded: bool,
    date: string,
    lang: string)

  /** `value || fallback` for an optional string: an absent or empty string gives the fallback. */
  function OrString(value: Option<string>, fallback: string): (r: string)
    ensures value.Some? && value.value != "" ==> r == value.value
    ensures (value.None? || value.value == "") ==> r == fallback
  {
    if value.Some? && value.value != "" then value.value else fallback
  }

  /** `value !== false`. */
  predicate NotFalse(value: Option<Value>)
  {
    value != Some(Bool(false))
  }

  function ToDocumentMeta(data: FrontMatter): (m: DocMeta)
    ensures m.id == OrString(data.id, "")
    ensures m.title == OrString(data.title, "Untitled") && m.title != ""
    ensures m.order == (if data.order.Some? then data.order.value else 0)
    ensures m.visible <==> data.visible != Some(Bool(false))
    ensures m.expanded <==> data.expanded != Some(Bool(false))
    ensures m.date == OrString(data.date, "") && m.lang == OrString(data.lang, "")
  {
    DocMeta(
      OrString(data.id, ""),
      OrString(data.title, "Untitled"),
      if data.order.Some? && data.order.value != 0 then data.order.value else 0,
      NotFalse(data.visible),
      NotFalse(data.expanded),
      OrString(data.date, ""),
      OrString(data.lang, ""))
  }

  /** Empty front matter gives the defaults: untitled, order 0, visible and expanded. */
  lemma EmptyFrontMatterDefaults()
    ensures ToDocumentMeta(FrontMatter(None, None, None, None, None, None, None))
      == DocMeta("", "Untitled", 0, true, true, "", "")
  {
  }

  /** Only the boolean `false` hides a document: null, 0, the empty string and the string
      "false" all leave it visible. */
  lemma OnlyFalseHides(data: FrontMatter, v: Value)
    ensures ToDocumentMeta(data.(visible := Some(v))).visible <==> v != Bool(false)
    ensures ToDocumentMeta(data.(visible := None)).visible
  {
  }
}
