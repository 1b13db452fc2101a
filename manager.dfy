/** The popup's controller (src/popup/manager.ts): start-up loading of logs, settings and the
    enabled flag, the storage-change watcher that renders new log entries, the settings merge
    and the logging helper. */
module Manager {
  import opened Values
  import opened Storage
  import opened Logger
  import opened Panel

  /** `visible.slice(knownLength)`: the visible entries from index `known` on, or none when the
      log holds no more than `known` visible entries. */
  function NewEntries(known: nat, entries: seq<LogEntry>): (r: seq<LogEntry>)
    ensures |r| == if known <= VisibleCount(entries) then VisibleCount(entries) - known else 0
    ensures forall i :: 0 <= i < |r| ==> r[i] == Visible(entries)[known + i]
  {
    if known <= |Visible(entries)| then Visible(entries)[known..] else []
  }

  /** One key's entry in the `changes` object of `chrome.storage.onChanged`. */
  datatype StorageChange = StorageChange(oldValue: Option<Value>, newValue: Option<Value>)

  /** `changes[LOG_STORAGE_KEY].newValue ?? []`: dereferencing a missing key, or filtering a
      stored value that is not an array, throws a TypeError. */
  function ChangedLogs(changes: map<string, StorageChange>): (r: Result<seq<LogEntry>>)
    ensures LOG_STORAGE_KEY !in changes ==> r == Failure(TypeError)
    ensures LOG_STORAGE_KEY in changes && changes[LOG_STORAGE_KEY].newValue in {None, Some(Null)}
      ==> r == Success([])
    ensures LOG_STORAGE_KEY in changes && changes[LOG_STORAGE_KEY].newValue.Some?
      && changes[LOG_STORAGE_KEY].newValue.value.LogList?
      ==> r == Success(changes[LOG_STORAGE_KEY].newValue.value.entries)
    ensures LOG_STORAGE_KEY in changes && changes[LOG_STORAGE_KEY].newValue.Some?
      && !changes[LOG_STORAGE_KEY].newValue.value.LogList?
      && changes[LOG_STORAGE_KEY].newValue.value != Null
      ==> r == Failure(TypeError)
  {
    if LOG_STORAGE_KEY !in changes then Failure(TypeError)
    else match changes[LOG_STORAGE_KEY].newValue
      case None => Success([])
      case Some(Null) => Success([])
      case Some(LogList(entries)) => Success(entries)
      case Some(_) => Failure(TypeError)
  }

  /** The entries one notification renders, or the error the listener throws. The branch is
      entered for every change in the local area, and for a change of the log key in any area. */
  function Notified(known: nat, changes: map<string, StorageChange>, area: string)
    : (r: Result<seq<LogEntry>>)
    ensures area != "local" && LOG_STORAGE_KEY !in changes ==> r == Success([])
    ensures area == "local" && LOG_STORAGE_KEY !in changes ==> r == Failure(TypeError)
    ensures LOG_STORAGE_KEY in changes && changes[LOG_STORAGE_KEY].newValue in {None, Some(Null)}
      ==> r == Success([])
    ensures LOG_STORAGE_KEY in changes && changes[LOG_STORAGE_KEY].newValue.Some?
      && changes[LOG_STORAGE_KEY].newValue.value.LogList?
      ==> r == Success(NewEntries(known, changes[LOG_STORAGE_KEY].newValue.value.entries))
    ensures LOG_STORAGE_KEY in changes && changes[LOG_STORAGE_KEY].newValue.Some?
      && !changes[LOG_STORAGE_KEY].newValue.value.LogList?
      && changes[LOG_STORAGE_KEY].newValue.value != Null
      ==> r == Failure(TypeError)
    ensures (r.Success? && r.value != []) ==> (LOG_STORAGE_KEY in changes
      && changes[LOG_STORAGE_KEY].newValue.Some?
      && changes[LOG_STORAGE_KEY].newValue.value.LogList?)
  {
    if area == "local" || LOG_STORAGE_KEY in changes then
      match ChangedLogs(changes)
      case Success(entries) => Success(NewEntries(known, entries))
      case Failure(f) => Failure(f)
    else Success([])
  }

  /** `{ ...this.settings, ...patch }`: the keys of the patch win, the others are kept. */
  function MergeSettings(current: Value, patch: Settings): (r: Settings)
    ensures r.Keys == Spread(current).Keys + patch.Keys
    ensures forall k :: k in patch ==> r[k] == patch[k]
    ensures forall k :: k in r && k !in patch ==> r[k] == Spread(current)[k]
  {
    Spread(current) + patch
  }

  /** The own enumerable properties that object spread copies from a value: a plain object's
      fields; null, booleans and numbers contribute nothing. */
  function Spread(v: Value): map<string, Value>
  {
    if v.Obj? then v.fields else map[]
  }

  /** A message given and truthy. */
  predicate Given(message: Option<string>)
  {
    message.Some? && message.value != ""
  }

  function StatusMessage(shortName: string, enabled: bool): string
  {
    shortName + " は現在 " + (if enabled then "有効" else "無効") + " です"
  }

  function EnabledMessage(shortName: string, enabled: bool): string
  {
    shortName + (if enabled then " は有効になりました" else " は無効になりました")
  }

  const LOAD_FAILED_MESSAGE := "設定の読み込みに失敗しました"
  const SAVE_FAILED_MESSAGE := "設定の保存に失敗しました"
  const ENABLED_FAILED_MESSAGE := "有効状態の保存に失敗しました"

  /** The entry `showLog` appends: always from the popup, never hidden, with the error folded into
      its detail as `logError` does. */
  function ShowLogEntry(message: string, level: LogLevel, error: Thrown, timestamp: string): (e: LogEntry)
    ensures e.source == Popup && e.hidden == None && !IsHidden(e)
    ensures e.message == message && e.level == level && e.timestamp == timestamp
    ensures e.detail == ErrorDetail(error)
  {
    MakeEntry(message, level, Popup, ErrorDetail(error), None, timestamp)
  }

  /** The number of visible entries the watcher is started with. */
  function InitialCount(items: map<string, Value>): (n: nat)
    ensures LogsOf(items).Failure? ==> n == 0
    ensures LogsOf(items).Success? ==> n == VisibleCount(LogsOf(items).value)
    ensures LogsOf(items).Success? ==> n <= |LogsOf(items).value|
  {
    match LogsOf(items)
    case Success(logs) => VisibleCount(logs)
    case Failure(_) => 0
  }

  lemma RenderStep(es: seq<LogEntry>, i: nat, issuesUrl: Option<string>)
    requires i < |es|
    ensures RenderEntries(es[..i + 1], issuesUrl)
      == RenderEntries(es[..i], issuesUrl) + [RenderEntry(es[i], issuesUrl)]
  {
    assert es[..i + 1][..i] == es[..i];
  }

  class PopupManager {
    const panel: PopupPanel
    /** `manifestMetadata.issues_url`. */
    const issuesUrl: Option<string>
    /** `manifestData.short_name`, as it prints. */
    const shortName: string
    var settings: Value
    var enabled: bool
    /** The count captured by `watchStorageLogs`, once the watcher is registered. */
    var knownLength: Option<nat>

    constructor (attached: bool, issuesUrl: Option<string>, shortName: string)
      ensures fresh(panel) && panel.attached == attached
      ensures panel.lines == [] && panel.clearCallback == NoCallback
      ensures this.issuesUrl == issuesUrl && this.shortName == shortName
      ensures settings == Obj(DEFAULT_SETTINGS) && !enabled && knownLength == None
    {
      panel := new PopupPanel(attached);
      this.issuesUrl := issuesUrl;
      this.shortName := shortName;
      settings := Obj(DEFAULT_SETTINGS);
      enabled := false;
      knownLength := None;
    }

    /** `showLog`: appends a popup entry; a failure to store it is swallowed. */
    method ShowLog(store: Store, message: string, level: LogLevel, error: Thrown, timestamp: string,
                   writeError: Option<string>)
      modifies store`items
      ensures store.items
        == AddLogEffect(old(store.items), writeError, ShowLogEntry(message, level, error, timestamp)).1
    {
      var detail := ErrorDetail(error);
      var _ := AddLog(store, message, level, Popup, detail, None, timestamp, writeError);
    }

    /** `watchStorageLogs`: registers the listener with the count it keeps from then on. */
    method WatchStorageLogs(known: nat)
      modifies this`knownLength
      ensures knownLength == Some(known)
    {
      knownLength := Some(known);
    }

    /** `initialize`: registers the clear callback, renders the stored backlog, starts the
        watcher with the number of visible stored entries (0 when the log cannot be read), then
        loads the settings and the enabled flag and logs the outcome. The host answers the
        settings read, the flag read and the log write each on its own. */
    method Initialize(store: Store, timestamp: string, settingsError: Option<string>,
                      enabledError: Option<string>, logError: Option<string>)
      modifies this, panel, store`items
      ensures panel.clearCallback == ClearStoredLogs
      ensures knownLength == Some(InitialCount(old(store.items)))
      ensures panel.lines
        == (var logs := LogsOf(old(store.items));
            if logs.Success? && |logs.value| > 0 && panel.attached
            then RenderEntries(Visible(logs.value), issuesUrl) else old(panel.lines))
      ensures settingsError.Some? ==> (settings == old(settings) && enabled == old(enabled)
        && store.items == AddLogEffect(old(store.items), logError,
             ShowLogEntry(LOAD_FAILED_MESSAGE, Error, HostRejection(settingsError.value), timestamp)).1)
      ensures settingsError.None? && enabledError.Some? ==> (settings == SettingsOf(old(store.items))
        && enabled == old(enabled)
        && store.items == AddLogEffect(old(store.items), logError,
             ShowLogEntry(LOAD_FAILED_MESSAGE, Error, HostRejection(enabledError.value), timestamp)).1)
      ensures settingsError.None? && enabledError.None? ==> (settings == SettingsOf(old(store.items))
        && enabled == EnabledOf(old(store.items))
        && store.items == AddLogEffect(old(store.items), logError,
             ShowLogEntry(StatusMessage(shortName, enabled), Info, Nothing, timestamp)).1)
    {
      panel.SetClearCallback(ClearStoredLogs);
      LoadBacklog(store);
      LoadSettings(store, timestamp, settingsError, enabledError, logError);
    }

    /** The first `try` block of `initialize`: the backlog and the watcher. */
    method LoadBacklog(store: Store)
      modifies this`knownLength, panel`lines
      ensures knownLength == Some(InitialCount(store.items))
      ensures panel.lines
        == (var logs := LogsOf(store.items);
            if logs.Success? && |logs.value| > 0 && panel.attached
            then RenderEntries(Visible(logs.value), issuesUrl) else old(panel.lines))
    {
      var logs := GetLogs(store);
      if logs.Success? {
        var visibleCount := VisibleCount(logs.value);
        if |logs.value| > 0 {
          panel.LoadLogs(logs.value, issuesUrl);
        }
        WatchStorageLogs(visibleCount);
      } else {
        WatchStorageLogs(0);
      }
    }

    /** The second `try` block of `initialize`: `getSettings` and `isEnabled` share one handler,
        which logs the first rejection. Settings read before a rejected `isEnabled` are kept. */
    method LoadSettings(store: Store, timestamp: string, settingsError: Option<string>,
                        enabledError: Option<string>, logError: Option<string>)
      modifies this`settings, this`enabled, store`items
      ensures settingsError.Some? ==> (settings == old(settings) && enabled == old(enabled)
        && store.items == AddLogEffect(old(store.items), logError,
             ShowLogEntry(LOAD_FAILED_MESSAGE, Error, HostRejection(settingsError.value), timestamp)).1)
      ensures settingsError.None? && enabledError.Some? ==> (settings == SettingsOf(old(store.items))
        && enabled == old(enabled)
        && store.items == AddLogEffect(old(store.items), logError,
             ShowLogEntry(LOAD_FAILED_MESSAGE, Error, HostRejection(enabledError.value), timestamp)).1)
      ensures settingsError.None? && enabledError.None? ==> (settings == SettingsOf(old(store.items))
        && enabled == EnabledOf(old(store.items))
        && store.items == AddLogEffect(old(store.items), logError,
             ShowLogEntry(StatusMessage(shortName, enabled), Info, Nothing, timestamp)).1)
    {
      var failure: Option<Fault> := None;
      var loaded := GetSettings(store, settingsError);
      match loaded {
        case Success(value) =>
          settings := value;
          var flag := IsEnabled(store, enabledError);
          match flag {
            case Success(b) => enabled := b;
            case Failure(f) => failure := Some(f);
          }
        case Failure(f) => failure := Some(f);
      }
      match failure {
        case None => ShowLog(store, StatusMessage(shortName, enabled), Info, Nothing, timestamp, logError);
        case Some(f) => ShowLog(store, LOAD_FAILED_MESSAGE, Error, Rejection(f), timestamp, logError);
      }
    }

    /** The `chrome.storage.onChanged` listener: renders the visible entries of the new log from
        the captured count on, in order. The count itself is never changed. */
    method OnStorageChanged(changes: map<string, StorageChange>, area: string) returns (r: Outcome)
      requires knownLength.Some?
      modifies panel`lines
      ensures var n := Notified(knownLength.value, changes, area);
        && r == (if n.Success? then Ok else Failed(n.fault))
        && panel.lines == old(panel.lines)
             + (if n.Success? && panel.attached then RenderEntries(n.value, issuesUrl) else [])
    {
      var known := knownLength.value;
      if !(area == "local" || LOG_STORAGE_KEY in changes) {
        return Ok;
      }
      var entries := ChangedLogs(changes);
      if entries.Failure? {
        return Failed(entries.fault);
      }
      var newEntries := NewEntries(known, entries.value);
      assert Notified(known, changes, area) == Success(newEntries);
      OutputEntries(newEntries);
      return Ok;
    }

    /** The listener's `for` loop: one `messageOutput` call per entry, in order. */
    method OutputEntries(entries: seq<LogEntry>)
      modifies panel`lines
      ensures panel.lines == old(panel.lines)
        + (if panel.attached then RenderEntries(entries, issuesUrl) else [])
    {
      for i := 0 to |entries|
        invariant panel.lines == old(panel.lines)
          + (if panel.attached then RenderEntries(entries[..i], issuesUrl) else [])
      {
        var entry := entries[i];
        RenderStep(entries, i, issuesUrl);
        panel.MessageOutput(entry.message, entry.timestamp, entry.level, entry.source, issuesUrl);
      }
      assert entries[..|entries|] == entries;
    }

    /** `updateSettings`: merges the patch into the current settings, stores the whole result and
        logs the success message if one is given, or logs the failure. The merged settings are
        adopted even when the write is rejected. */
    method UpdateSettings(store: Store, patch: Settings, successMessage: Option<string>,
                          failedMessage: Option<string>, timestamp: string,
                          saveError: Option<string>, logError: Option<string>)
      modifies this`settings, store`items
      ensures settings == Obj(MergeSettings(old(settings), patch))
      ensures saveError.Some? ==> (store.items == AddLogEffect(old(store.items), logError,
        ShowLogEntry(if Given(failedMessage) then failedMessage.value else SAVE_FAILED_MESSAGE,
                     Error, HostRejection(saveError.value), timestamp)).1)
      ensures saveError.None? ==> (store.items
        == var written := old(store.items)[SETTINGS_KEY := Obj(MergeSettings(old(settings), patch))];
           if Given(successMessage)
           then AddLogEffect(written, logError, ShowLogEntry(successMessage.value, Info, Nothing, timestamp)).1
           else written)
    {
      var merged := MergeSettings(settings, patch);
      settings := Obj(merged);
      var saved := SetSettings(store, merged, saveError);
      if saved.Failed? {
        var message := if Given(failedMessage) then failedMessage.value else SAVE_FAILED_MESSAGE;
        ShowLog(store, message, Error, Rejection(saved.fault), timestamp, logError);
        return;
      }
      if Given(successMessage) {
        ShowLog(store, successMessage.value, Info, Nothing, timestamp, logError);
      }
    }

    /** The `change` handler of the enabled checkbox: adopts the new state, stores it and logs the
        outcome. */
    method OnEnabledChanged(store: Store, checked: bool, timestamp: string,
                            saveError: Option<string>, logError: Option<string>)
      modifies this`enabled, store`items
      ensures enabled == checked
      ensures saveError.Some? ==> (store.items == AddLogEffect(old(store.items), logError,
        ShowLogEntry(ENABLED_FAILED_MESSAGE, Error, HostRejection(saveError.value), timestamp)).1)
      ensures saveError.None? ==> (store.items
        == AddLogEffect(old(store.items)[ENABLED_KEY := Bool(checked)], logError,
             ShowLogEntry(EnabledMessage(shortName, checked), Info, Nothing, timestamp)).1)
    {
      enabled := checked;
      var saved := SetEnabled(store, enabled, saveError);
      if saved.Failed? {
        ShowLog(store, ENABLED_FAILED_MESSAGE, Error, Rejection(saved.fault), timestamp, logError);
        return;
      }
      ShowLog(store, EnabledMessage(shortName, enabled), Info, Nothing, timestamp, logError);
    }
  }

  /** The entries a log holding `v1` renders are rendered again, as a prefix, by any later log
      that extends `v1`: the count is never advanced, so nothing marks them as shown. */
  lemma RenderedAgain(known: nat, v1: seq<LogEntry>, more: seq<LogEntry>)
    ensures |NewEntries(known, v1)| <= |NewEntries(known, v1 + more)|
    ensures NewEntries(known, v1 + more)[..|NewEntries(known, v1)|] == NewEntries(known, v1)
  {
    VisibleAppend(v1, more);
    var a, b := Visible(v1), Visible(more);
    if known <= |a| {
      assert (a + b)[known..][..|a| - known] == a[known..];
    }
  }

  /** Whatever is appended to the log the watcher started from is rendered, visible entries only. */
  lemma NewEntriesOfExtension(logs: seq<LogEntry>, extra: seq<LogEntry>)
    ensures NewEntries(VisibleCount(logs), logs + extra) == Visible(extra)
  {
    VisibleAppend(logs, extra);
    assert (Visible(logs) + Visible(extra))[|Visible(logs)|..] == Visible(extra);
  }

  /** Two visible entries logged one after another below the cap: the first notification renders
      the first entry, the second renders the first entry again and then the second. */
  lemma SecondNotificationRepeats(logs: seq<LogEntry>, e1: LogEntry, e2: LogEntry)
    requires |logs| + 2 <= MAX_LOG_SIZE
    requires !IsHidden(e1) && !IsHidden(e2)
    ensures var once := Appended(logs, e1);
      var twice := Appended(once, e2);
      && NewEntries(VisibleCount(logs), once) == [e1]
      && NewEntries(VisibleCount(logs), twice) == [e1, e2]
  {
    var once := Appended(logs, e1);
    assert once == logs + [e1] by { AppendedShape(logs, e1); }
    var twice := Appended(once, e2);
    assert twice == logs + [e1, e2] by {
      AppendedShape(once, e2);
      assert once + [e2] == logs + [e1, e2];
    }
    assert Visible([e1]) == [e1];
    assert Visible([e1, e2]) == [e1, e2] by {
      assert [e1, e2][1..] == [e2];
      assert Visible([e2]) == [e2];
    }
    NewEntriesOfExtension(logs, [e1]);
    NewEntriesOfExtension(logs, [e1, e2]);
  }

  /** What `addLog` writes reaches the listener: the change notification for a write that
      appends one entry below the cap renders exactly that entry, unless it is hidden. */
  lemma AppendNotification(logs: seq<LogEntry>, entry: LogEntry, area: string)
    requires |logs| < MAX_LOG_SIZE
    ensures var changes := map[LOG_STORAGE_KEY :=
        StorageChange(Some(LogList(logs)), Some(LogList(Appended(logs, entry))))];
      Notified(VisibleCount(logs), changes, area)
        == Success(if IsHidden(entry) then [] else [entry])
  {
    AppendedShape(logs, entry);
    NewEntriesOfExtension(logs, [entry]);
    assert Visible([entry]) == if IsHidden(entry) then [] else [entry] by {
      VisibleSnoc([], entry);
      assert [] + [entry] == [entry];
    }
  }

  /** A rejected write that `showLog` records shows up as the newest stored entry, at level
      error, with the rejection's string form "[object Object]" as its detail rather than the
      host's message. */
  lemma FailureIsLogged(items: map<string, Value>, message: string, hostMessage: string,
                        timestamp: string)
    requires LogsOf(items).Success?
    ensures var after := AddLogEffect(items, None,
        ShowLogEntry(message, Error, HostRejection(hostMessage), timestamp)).1;
      && LogsOf(after).Success? && |LogsOf(after).value| > 0
      && var newest := LogsOf(after).value[|LogsOf(after).value| - 1];
      && newest.message == message && newest.level == Error
      && newest.detail == Some("[object Object]")
  {
    var entry := ShowLogEntry(message, Error, HostRejection(hostMessage), timestamp);
    AddLogReadBack(items, entry);
    HostRejectionDetail(hostMessage);
  }

  /** Once the log is full of visible entries at start-up, the watcher renders nothing more: the
      stored log never exceeds the cap, so it never holds more visible entries than the count. */
  lemma FullLogRendersNothing(logs: seq<LogEntry>, entry: LogEntry)
    requires |logs| == MAX_LOG_SIZE && VisibleCount(logs) == MAX_LOG_SIZE
    ensures NewEntries(VisibleCount(logs), Appended(logs, entry)) == []
  {
  }

  /** Appending a log entry never disturbs the stored settings or the enabled flag: what
      `updateSettings` wrote is what `getSettings` reads after the success message is logged. */
  lemma LoggingKeepsSettings(items: map<string, Value>, writeError: Option<string>, entry: LogEntry)
    ensures var after := AddLogEffect(items, writeError, entry).1;
      SettingsOf(after) == SettingsOf(items) && EnabledOf(after) == EnabledOf(items)
  {
    var logs := LogsOf(items);
    if logs.Success? && writeError.None? {
      LogKeyIsSeparate(items, LogList(Appended(logs.value, entry)));
    }
  }

  /** Writing the log key leaves what the settings and enabled readers see unchanged. */
  lemma LogKeyIsSeparate(items: map<string, Value>, v: Value)
    ensures SettingsOf(items[LOG_STORAGE_KEY := v]) == SettingsOf(items)
    ensures EnabledOf(items[LOG_STORAGE_KEY := v]) == EnabledOf(items)
  {
    assert LOG_STORAGE_KEY[0] != SETTINGS_KEY[0] && LOG_STORAGE_KEY[0] != ENABLED_KEY[0];
  }

  /** After an update, the stored settings are the merge of the old settings and the patch. */
  lemma UpdatedSettingsReadBack(items: map<string, Value>, current: Value, patch: Settings,
                                entry: LogEntry)
    ensures var written := items[SETTINGS_KEY := Obj(MergeSettings(current, patch))];
      && SettingsOf(written) == Obj(MergeSettings(current, patch))
      && SettingsOf(AddLogEffect(written, None, entry).1) == Obj(MergeSettings(current, patch))
  {
    var written := items[SETTINGS_KEY := Obj(MergeSettings(current, patch))];
    LoggingKeepsSettings(written, None, entry);
  }
}
