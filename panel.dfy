/** The message pane of the popup (src/popup/components/panel.ts): a buffer of rendered log
    lines, the level and source tables that style them, and the clear button. */
module Panel {
  import opened Values
  import Storage
  import Logger

  /** `LEVEL_CLASS`: the text colour of each level. */
  const LEVEL_CLASS: map<string, string> :=
    map["info" := "text-body", "warn" := "text-warning", "error" := "text-danger"]

  /** `SOURCE_LABEL`: the short label printed for each source. */
  const SOURCE_LABEL: map<string, string> :=
    map["popup" := "Popup", "background" := "BG", "content" := "Content"]

  /** `LEVEL_CLASS[level] ?? 'text-body'` for a level of the `LogLevel` union. */
  function LevelClass(level: LogLevel): (c: string)
    ensures level == Info ==> c == "text-body"
    ensures level == Warn ==> c == "text-warning"
    ensures level == Error ==> c == "text-danger"
  {
    var key := LevelName(level);
    if key in LEVEL_CLASS then LEVEL_CLASS[key] else "text-body"
  }

  /** `SOURCE_LABEL[source] ?? source` for a source of the `LogSource` union. */
  function SourceLabel(source: LogSource): (name: string)
    ensures source == Popup ==> name == "Popup"
    ensures source == Background ==> name == "BG"
    ensures source == Content ==> name == "Content"
  {
    var key := SourceName(source);
    if key in SOURCE_LABEL then SOURCE_LABEL[key] else key
  }

  /** One `<p>` of the pane: its class, the dimmed `[datetime][label] ` prefix, the message, and
      the target of the trailing "report an issue" link when there is one. */
  datatype Line = Line(className: string, meta: string, text: string, reportLink: Option<string>)

  /** The issues URL is given and truthy, i.e. present and non-empty. */
  predicate HasUrl(issuesUrl: Option<string>)
  {
    issuesUrl.Some? && issuesUrl.value != ""
  }

  /** The line `messageOutput` builds. */
  function RenderLine(message: string, datetime: string, level: LogLevel, source: LogSource,
                      issuesUrl: Option<string>): Line
  {
    Line("m-0 small " + LevelClass(level),
         "[" + datetime + "][" + SourceLabel(source) + "] ",
         message,
         if level == Error && HasUrl(issuesUrl) then issuesUrl else None)
  }

  /** A line is styled by its level, reads `[datetime][label] message`, and carries a report link,
      to the issues URL, exactly for errors when that URL is given. */
  lemma RenderLineShape(message: string, datetime: string, level: LogLevel, source: LogSource,
                        issuesUrl: Option<string>)
    ensures var line := RenderLine(message, datetime, level, source, issuesUrl);
      && line.className == "m-0 small " + LevelClass(level)
      && line.meta + line.text == "[" + datetime + "][" + SourceLabel(source) + "] " + message
      && line.text == message
      && (line.reportLink.Some? <==> level == Error && HasUrl(issuesUrl))
      && (line.reportLink.Some? ==> line.reportLink == issuesUrl)
  {
  }

  /** The line for a stored log entry. */
  function RenderEntry(e: LogEntry, issuesUrl: Option<string>): Line
  {
    RenderLine(e.message, e.timestamp, e.level, e.source, issuesUrl)
  }

  /** The lines for a sequence of entries, one each, in order. */
  function RenderEntries(es: seq<LogEntry>, issuesUrl: Option<string>): seq<Line>
  {
    seq(|es|, i requires 0 <= i < |es| => RenderEntry(es[i], issuesUrl))
  }

  /** Rendering is line by line: the lines of a concatenation are the concatenated lines. */
  lemma RenderEntriesAppend(a: seq<LogEntry>, b: seq<LogEntry>, issuesUrl: Option<string>)
    ensures RenderEntries(a + b, issuesUrl) == RenderEntries(a, issuesUrl) + RenderEntries(b, issuesUrl)
  {
    var l, r := RenderEntries(a + b, issuesUrl), RenderEntries(a, issuesUrl) + RenderEntries(b, issuesUrl);
    assert |l| == |r|;
    forall i | 0 <= i < |l| ensures l[i] == r[i] {
      if i >= |a| {
        assert (a + b)[i] == b[i - |a|];
      }
    }
  }

  /** One more entry of the backlog adds its line, unless it is hidden. */
  lemma LoadStep(entries: seq<LogEntry>, i: nat, issuesUrl: Option<string>)
    requires i < |entries|
    ensures RenderEntries(Visible(entries[..i + 1]), issuesUrl)
      == RenderEntries(Visible(entries[..i]), issuesUrl)
         + (if IsHidden(entries[i]) then [] else [RenderEntry(entries[i], issuesUrl)])
  {
    assert entries[..i + 1] == entries[..i] + [entries[i]];
    VisibleSnoc(entries[..i], entries[i]);
    if !IsHidden(entries[i]) {
      RenderEntriesAppend(Visible(entries[..i]), [entries[i]], issuesUrl);
      assert RenderEntries([entries[i]], issuesUrl) == [RenderEntry(entries[i], issuesUrl)];
    } else {
      assert Visible(entries[..i]) + [] == Visible(entries[..i]);
    }
  }

  /** What the clear button calls after emptying the pane (`onClearCallback`). */
  datatype ClearCallback = NoCallback | ClearStoredLogs

  class PopupPanel {
    /** Whether the `#messageDiv` element exists; without it, output and clearing do nothing. */
    const attached: bool
    /** The children of `#messageDiv`, oldest first. */
    var lines: seq<Line>
    var clearCallback: ClearCallback

    constructor (attached: bool)
      ensures this.attached == attached
      ensures lines == [] && clearCallback == NoCallback
    {
      this.attached := attached;
      lines := [];
      clearCallback := NoCallback;
    }

    /** `messageOutput`: appends exactly one line at the end, leaving the earlier lines alone. */
    method MessageOutput(message: string, datetime: string, level: LogLevel, source: LogSource,
                         issuesUrl: Option<string>)
      modifies this`lines
      ensures lines == if attached then old(lines) + [RenderLine(message, datetime, level, source, issuesUrl)]
                       else old(lines)
    {
      if attached {
        lines := lines + [RenderLine(message, datetime, level, source, issuesUrl)];
      }
    }

    /** `clearMessage`: empties the pane. */
    method ClearMessage()
      modifies this`lines
      ensures lines == if attached then [] else old(lines)
    {
      if attached {
        lines := [];
      }
    }

    /** `loadLogs`: clears the pane, then renders every entry that is not hidden, in order. */
    method LoadLogs(entries: seq<LogEntry>, issuesUrl: Option<string>)
      modifies this`lines
      ensures lines == if attached then RenderEntries(Visible(entries), issuesUrl) else old(lines)
    {
      ClearMessage();
      for i := 0 to |entries|
        invariant attached ==> lines == RenderEntries(Visible(entries[..i]), issuesUrl)
        invariant !attached ==> lines == old(lines)
      {
        var entry := entries[i];
        LoadStep(entries, i, issuesUrl);
        if IsHidden(entry) {
          continue;
        }
        MessageOutput(entry.message, entry.timestamp, entry.level, entry.source, issuesUrl);
      }
      assert entries[..|entries|] == entries;
    }

    method SetClearCallback(callback: ClearCallback)
      modifies this`clearCallback
      ensures clearCallback == callback
    {
      clearCallback := callback;
    }

    /** A click on the clear button: the pane is emptied first, then the registered callback runs.
        The popup registers one that deletes the stored log; its failure is not reported. */
    method ClickClear(store: Storage.Store, removeError: Option<string>)
      modifies this`lines, store`items
      ensures lines == if attached then [] else old(lines)
      ensures store.items == if clearCallback == ClearStoredLogs && removeError.None?
                             then old(store.items) - {Logger.LOG_STORAGE_KEY} else old(store.items)
    {
      ClearMessage();
      if clearCallback == ClearStoredLogs {
        var _ := Logger.ClearLogs(store, removeError);
      }
    }
  }
}
