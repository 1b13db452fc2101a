/** The documentation tab (src/popup/components/document.ts): the visible documents by ascending
    order, each an accordion item that starts open or collapsed as its metadata says. */
module Document {
  import opened Text
  import opened MdLoader
  import opened Docs

  /** `MARKDOWN_CLASS_MAP` of the document tab, in declaration order. */
  const DOCUMENT_CLASS_MAP: ClassMap := [
    ("h1", "md-h1 fs-5"), ("h2", "md-h2 fs-6"), ("h3", "md-h3 fs-6"),
    ("h4", "md-h4 fs-6"), ("h5", "md-h5 fs-6"), ("h6", "md-h6 fs-6"),
    ("p", "md-p"), ("ul", "md-ul"), ("ol", "md-ol"), ("li", "md-li")]

  const NO_DOCUMENTS := "<p class=\"text-center text-muted mt-5\">ドキュメントがありません</p>"

  /** The three attributes that encode whether an item starts open: the collapse class, the
      button class and `aria-expanded`. */
  datatype Flags = Flags(collapseClass: string, buttonClass: string, ariaExpanded: string)

  /** The open/closed state encoded consistently: the body is shown, the button is not marked
      collapsed and `aria-expanded` says "true", or the reverse of all three. */
  predicate Consistent(f: Flags)
  {
    (f.collapseClass == "show" <==> f.buttonClass == "")
    && (f.buttonClass == "" <==> f.ariaExpanded == "true")
    && f.collapseClass in {"show", ""} && f.buttonClass in {"", "collapsed"}
    && f.ariaExpanded in {"true", "false"}
  }

  function ExpandedFlags(expanded: bool): (f: Flags)
    ensures Consistent(f)
    ensures f.ariaExpanded == "true" <==> expanded
  {
    if expanded then Flags("show", "", "true") else Flags("", "collapsed", "false")
  }

  /** Every state a consistent encoding can express comes from exactly one value of `expanded`. */
  lemma FlagsDecode(f: Flags)
    requires Consistent(f)
    ensures f == ExpandedFlags(f.ariaExpanded == "true")
  {
  }

  /** One accordion item: the document id used in the collapse target `#doc-<id>`, the title as
      written (it is not escaped), the flags and the styled body. */
  datatype AccordionItem = AccordionItem(id: string, title: string, flags: Flags, body: string)

  /** The tab's content: the placeholder paragraph, or one `#accordion` wrapper holding the items. */
  datatype DocumentTab = NoDocuments | Accordion(items: seq<AccordionItem>)

  function ItemFor(doc: DocItem): AccordionItem
  {
    AccordionItem(doc.metadata.id, doc.metadata.title, ExpandedFlags(doc.metadata.expanded),
                  ApplyClassMap(doc.content, DOCUMENT_CLASS_MAP))
  }

  /** `setupDocumentTab` with `createAccordionHTML`. */
  function SetupDocumentTab(docs: seq<DocItem>): (tab: DocumentTab)
    ensures tab.NoDocuments? <==> forall x :: x in docs ==> !Shown(x)
  {
    var shown := ShownSorted(docs, Ascending);
    if |shown| == 0 then
      NoDocuments
    else
      assert shown[0] in shown;
      Accordion(seq(|shown|, i requires 0 <= i < |shown| => ItemFor(shown[i])))
  }

  lemma DocumentTagsDistinct()
    ensures DistinctTags(DOCUMENT_CLASS_MAP)
  {
    TagsDistinct(DOCUMENT_CLASS_MAP);
  }

  lemma DocumentClassMapWellFormed()
    ensures WellFormedMap(DOCUMENT_CLASS_MAP)
  {
    forall i | 0 <= i < |DOCUMENT_CLASS_MAP|
      ensures TagName(DOCUMENT_CLASS_MAP[i].0) && '<' !in DOCUMENT_CLASS_MAP[i].1
    {
    }
  }

  /** One item per visible document, in ascending order; each item shows its document's id and
      title as written, the flags of its `expanded` value and its styled body; an item starts open
      exactly when its document is expanded; no item body keeps a bare mapped tag. */
  lemma AccordionShape(docs: seq<DocItem>)
    ensures var tab := SetupDocumentTab(docs);
      var shown := ShownSorted(docs, Ascending);
      tab.Accordion? ==> (
        && |tab.items| == |shown|
        && (forall i, j :: 0 <= i < j < |shown| ==> shown[i].metadata.order <= shown[j].metadata.order)
        && (forall i :: 0 <= i < |shown| ==>
              tab.items[i].id == shown[i].metadata.id
              && tab.items[i].title == shown[i].metadata.title
              && tab.items[i].flags == ExpandedFlags(shown[i].metadata.expanded)
              && tab.items[i].body == ApplyClassMap(shown[i].content, DOCUMENT_CLASS_MAP)
              && (tab.items[i].flags.collapseClass == "show" <==> shown[i].metadata.expanded))
        && (forall i, k :: 0 <= i < |tab.items| && 0 <= k < |DOCUMENT_CLASS_MAP| ==>
              !Occurs(OpenTag(DOCUMENT_CLASS_MAP[k].0), tab.items[i].body)))
  {
    var tab := SetupDocumentTab(docs);
    var shown := ShownSorted(docs, Ascending);
    if tab.Accordion? {
      DocumentClassMapWellFormed();
      forall i, k | 0 <= i < |tab.items| && 0 <= k < |DOCUMENT_CLASS_MAP|
        ensures !Occurs(OpenTag(DOCUMENT_CLASS_MAP[k].0), tab.items[i].body)
      {
        NoBareMappedTag(shown[i].content, DOCUMENT_CLASS_MAP, k);
      }
    }
  }
}
