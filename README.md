# chrome-extension-starter-kit popup core, in Dafny

This project models the popup side of a Chrome extension starter kit. It covers:

- **Capped log.** One key of `chrome.storage.local` (`app_logs`) holds the newest 200 log
  records, oldest first. `addLog` reads the array, pushes a record, trims from the front and
  writes it back. `clearLogs` deletes the key.
- **Typed storage accessors.** `settings` defaults to `{ theme: 'system' }`. `enabled` is true
  only when the boolean `true` is stored. The host answers each call on its own: `getStorage`,
  `setStorage`, the write of `addLog` and `clearLogs` reject when it reports
  `chrome.runtime.lastError` for that call, while `getLogs` does not consult it.
- **Message pane.** A list of rendered lines. Each line is styled by level, labelled by source,
  and carries a "report an issue" link for errors when an issues URL exists. It has a clear
  button with a callback.
- **Popup manager.**
  - Start-up: renders the stored backlog, starts the storage watcher with the number of visible
    stored entries, loads settings and the enabled flag, and logs the outcome.
  - The storage watcher renders new visible entries after that count.
  - The settings merge (`{ ...settings, ...patch }`), the enabled-checkbox handler, and the
    `showLog` helper, which swallows failures.
- **Information tab.** The HTML-escaped site-access line.
- **Version and document tabs.**
  - Front-matter defaulting of `md-loader`.
  - The stable sort by `order` and the `visible !== false` filter.
  - The badge rule and the release-date formatting.
  - Open/collapsed accordion flags.
  - The exact-tag rewriting that adds Bootstrap classes to `<h1>`…`<li>`.
- **`escapeHtml`.**

Code that changes state in place stays imperative:
- `chrome.storage.local` is the `Storage.Store` class. Its `items` map is rewritten by `set` and
  `remove`. The error the host reports for a call is a parameter of that call (`hostError`,
  `writeError`, ...), `None` when the call succeeds.
- The message pane is the `Panel.PopupPanel` class, holding the rendered lines.
- The controller is `Manager.PopupManager`. Its settings, enabled flag and watcher count are
  fields.
- The loops of `loadLogs` and of the storage listener are `for` loops. They are proved equal to
  the functions `RenderEntries`/`Visible`.

Every asynchronous step is modelled as a sequential call. `now()` is a parameter: a
`ClockReading` or a timestamp string.

Modules, one file each:
- `Text`: prefix search, global replace, `join`, `String(n)`, `trim`.
- `Values`: stored values, log records, truthiness, `String(v)`.
- `Storage`, `Logger`, `Html`, `Panel`, `Manager`, `Info`, `MdLoader`.
- `Docs`: what both tabs share (sorting, filtering, class maps).
- `Version`, `Document`.

## Model

| member | source | states |
|---|---|---|
| Values.Visible | src/popup/manager.ts:70 | The filtered log is no longer than the log and holds exactly the entries whose `hidden` is not `true`. |
| Values.VisibleAppend | src/popup/manager.ts:42 | Filtering distributes over concatenation, so the visible entries of a longer log extend those of any prefix, in order. |
| Text.ReplaceAll | src/utils/html.ts:8-12 | A global replacement of a pattern that does not occur returns the input unchanged. |
| Text.ReplaceAllSplit | src/popup/components/version.ts:95 | Cutting the text just before a `<` does not change what the global replacement of a `<`-headed pattern does: each side is rewritten on its own. |
| Text.ReplaceAllOccurrence | src/popup/components/version.ts:95 | Every occurrence of a `<`-headed pattern is replaced by the replacement text, and the text on either side is rewritten independently. |
| Text.ReplaceAllSkipsToken | src/popup/components/version.ts:95 | A `<`-headed token that neither starts with the pattern nor is a prefix of it passes through unchanged, whatever follows. |
| Text.TokenStep | src/popup/components/version.ts:95 | One `<`-headed token between two texts is replaced when it is the pattern and kept otherwise, and the texts around it are rewritten on their own. |
| Text.ReplaceAllLeavesNo | src/popup/components/version.ts:95 | After a global replacement whose replacement text starts with `<` and contains no other `<`, the pattern no longer occurs, and no other `<`-headed pattern that was absent appears. |
| Text.JoinCount | src/popup/components/info.ts:86 | In `join(sep)` of parts that lack a character, that character occurs `(n - 1)` times as often as in the separator. |
| Text.NatToStringRoundTrip | src/utils/logger.ts:21 | `String(n)` is a string of decimal digits that reads back as `n`. |
| Text.Trim | src/popup/components/version.ts:68-70 | `trim` returns a contiguous stretch of the input; everything before and after it is whitespace, and the stretch neither starts nor ends with whitespace. |
| Storage.Restrict | src/utils/storage.ts:21-31 | A `get` of some keys resolves to exactly the stored entries for those keys. |
| Storage.Store.Get | src/utils/storage.ts:21-31 | `get` hands the callback exactly the stored entries for the requested keys. |
| Storage.Store.Set | src/utils/storage.ts:33-43 | `set` merges the entries into the store key by key, or changes nothing when the host reports an error for this call. |
| Storage.Store.Remove | src/utils/logger.ts:51-58 | `remove` deletes the keys, or changes nothing when the host reports an error for this call. |
| Storage.GetStorage | src/utils/storage.ts:21-31 | Rejects with the host error reported for this call; otherwise resolves to the stored entries for the requested keys. |
| Storage.SetStorage | src/utils/storage.ts:33-43 | Rejects with the host error and stores nothing; otherwise writes the entries. |
| Storage.GetSettings | src/utils/storage.ts:3-6 | Resolves to the stored settings, or to `DEFAULT_SETTINGS` when they are absent or null; a host error is a rejection. |
| Storage.IsEnabled | src/utils/storage.ts:8-11 | Resolves to true exactly when the stored flag is the boolean `true`; a host error is a rejection. |
| Storage.SetSettings | src/utils/storage.ts:13-15 | Replaces the `settings` value and touches no other key, or rejects and stores nothing. |
| Storage.SetEnabled | src/utils/storage.ts:17-19 | Replaces the `enabled` value and touches no other key, or rejects and stores nothing. |
| Storage.EmptyStoreDefaults | src/settings/settings.ts:8-10 | An empty store reads as `{ theme: 'system' }` and as disabled. |
| Storage.EnabledOnlyForTrue | src/utils/storage.ts:8-11 | Only the boolean `true` reads as enabled; a missing key, `false`, null, numbers and strings read as disabled. |
| Storage.EnabledRoundTrip | src/utils/storage.ts:8-19 | `setEnabled(b)` followed by `isEnabled()` gives `b`. |
| Storage.SettingsRoundTrip | src/utils/storage.ts:3-15 | `setSettings(s)` followed by `getSettings()` gives `s`, and the write leaves the enabled flag alone. |
| Logger.GetLogs | src/utils/logger.ts:25-31 | Resolves to the stored array, or `[]` when the key is absent or null; the host error is not consulted. |
| Logger.LastN | src/utils/logger.ts:40-42 | The trimmed array is the suffix of length `min(length, n)`. |
| Logger.Appended | src/utils/logger.ts:38-42 | After pushing a record and trimming, the log is non-empty and at most 200 long, ends with the new record, grows by one below the cap, and is otherwise a suffix of the old log. |
| Logger.AppendedShape | src/utils/logger.ts:39-42 | Below the cap an append only adds the record; at the cap it also drops exactly the oldest one. |
| Logger.AddLog | src/utils/logger.ts:36-49 | `addLog` reads the log; a failed read rejects and stores nothing. It writes the appended log and resolves, or rejects with the host's error for the write and leaves the store as it was. |
| Logger.ClearLogs | src/utils/logger.ts:51-58 | `clearLogs` deletes the log key and nothing else, or rejects with the host error and changes nothing. |
| Logger.ClearedLogsReadEmpty | src/utils/logger.ts:25-58 | After `clearLogs`, `getLogs` reads an empty log and every other key is unchanged. |
| Logger.AddLogReadBack | src/utils/logger.ts:25-49 | A successful `addLog` resolves, and `getLogs` afterwards reads exactly the appended log. |
| Logger.AddLogRejectsOnHostError | src/utils/logger.ts:43-48 | When the host reports an error on the write, `addLog` rejects with it and the stored items are unchanged. |
| Logger.AppendAllKeepsNewest | src/utils/logger.ts:33-42 | Any run of `addLog` calls keeps exactly the newest 200 records of the whole history, in order. |
| Logger.LastNTail | src/utils/logger.ts:40-42 | Trimming to the last `n` before appending more changes nothing once the result is trimmed again. |
| Logger.FullLogDropsOldest | src/utils/logger.ts:40-42 | With a full log, `k` further appends (`k <= 200`) drop exactly the `k` oldest records. |
| Values.Stringify | src/utils/logger.ts:67 | `String(v)` is empty exactly for the empty string and the empty array. |
| Logger.ErrorDetail | src/utils/logger.ts:67 | An `Error` gives its message; any other value gives `String(value)` when it is truthy and no detail otherwise; no error gives no detail. |
| Logger.HostRejectionDetail | src/popup/manager.ts:167 | A rejected storage call (a plain object, not an `Error`) becomes the detail `[object Object]`. |
| Logger.LogInfo | src/utils/logger.ts:60-61 | Has the effect of `addLog` with level info and no detail. |
| Logger.LogWarn | src/utils/logger.ts:63-64 | Has the effect of `addLog` with level warn and the given detail. |
| Logger.LogError | src/utils/logger.ts:66-69 | Has the effect of `addLog` with level error and the detail derived from the error value. |
| Logger.Pad | src/utils/logger.ts:21 | `padStart(2, '0')` of a number below 100 is two digits that read back as the number. |
| Logger.FormatTimestamp | src/utils/logger.ts:19-23 | For a calendar reading with a four-digit year, `now()` is 19 characters of the shape `YYYY-MM-DD HH:mm:ss`, and each field reads back as its clock value, with the month counted from 1. |
| Logger.TimestampFields | src/utils/logger.ts:21-22 | The fields of the concatenation `now()` builds sit at the fixed positions of that layout. |
| Html.EscapeHtml | src/utils/html.ts:6-13 | `escapeHtml` escapes every character on its own: its result is the concatenation of the entities (or characters) of the input's characters. |
| Html.EscapeChainIsEscapeEach | src/utils/html.ts:6-13 | The chain of five global replacements equals escaping each character on its own: the later replacements never touch the entities the earlier ones inserted. |
| Html.EscapeChainConcat | src/utils/html.ts:6-13 | The replacement chain distributes over concatenation. |
| Html.EscapeChainChar | src/utils/html.ts:8-12 | On one character the chain produces exactly that character's entity, or the character itself. |
| Html.EscapeHtmlProperties | src/utils/html.ts:6-13 | The result holds no `<`, `>`, `"` or `'`, is at least as long as the input, and equals the input when it has none of the five special characters. |
| Html.EscapeHtmlNotIdempotent | src/utils/html.ts:7 | Escaping text that contains `&` a second time changes it again, so escaping twice differs from escaping once. |
| Html.UnescapeEscapeHtml | src/utils/html.ts:6-13 | Escaping loses nothing: decoding the five entities gives the original text back. |
| Panel.LevelClass | src/popup/components/panel.ts:182 | info, warn and error map to `text-body`, `text-warning` and `text-danger`. |
| Panel.SourceLabel | src/popup/components/panel.ts:185 | popup, background and content map to `Popup`, `BG` and `Content`. |
| Panel.RenderLineShape | src/popup/components/panel.ts:180-207 | A line has class `m-0 small <level class>` and reads `[datetime][label] message`. It carries a report link to the issues URL exactly when the level is error and the URL is truthy. |
| Panel.RenderEntriesAppend | src/popup/components/panel.ts:216-219 | Rendering entries is line by line: the lines of a concatenation are the concatenated lines. |
| Panel.PopupPanel.MessageOutput | src/popup/components/panel.ts:173-212 | Appends exactly one line after the existing ones, or does nothing when the message element is missing. |
| Panel.PopupPanel.ClearMessage | src/popup/components/panel.ts:222-226 | Empties the pane, or does nothing when the message element is missing. |
| Panel.PopupPanel.LoadLogs | src/popup/components/panel.ts:214-220 | The pane ends up holding one line per entry that is not hidden, in log order, and nothing else. |
| Panel.PopupPanel.SetClearCallback | src/popup/components/panel.ts:169-171 | Registers the callback the clear button runs. |
| Panel.PopupPanel.ClickClear | src/popup/components/panel.ts:163-166 | A click empties the pane, then runs the registered callback. The popup's callback deletes the stored log and changes nothing else; when the host rejects the removal nothing is deleted. |
| Manager.NewEntries | src/popup/manager.ts:70-71 | `visible.slice(knownLength)`: the visible entries from position `knownLength` on, or none when there are no more than that many. |
| Manager.ChangedLogs | src/popup/manager.ts:69 | A change without the log key throws a TypeError; a removed or null new value counts as `[]`; an array is taken as it is; any other value throws a TypeError. |
| Manager.Notified | src/popup/manager.ts:67-76 | A change outside the local area without the log key renders nothing. A local change without it throws. A removed or null log renders nothing. A new log array renders exactly `NewEntries` of it. Any other new value throws. |
| Manager.MergeSettings | src/popup/manager.ts:136 | The merged settings have the keys of both sides; the patch's values win; every other key keeps the current value. |
| Manager.ShowLogEntry | src/popup/manager.ts:166-169 | `showLog` records its message from the popup, never hidden, with the error folded into the detail as `logError` does. |
| Manager.InitialCount | src/popup/manager.ts:40-50 | The watcher starts from the number of visible stored entries (at most the log's length), or from 0 when the log cannot be read. |
| Manager.PopupManager.constructor | src/popup/manager.ts:14-33 | A new manager holds the default settings, is disabled, has a fresh empty pane and no watcher. |
| Manager.PopupManager.ShowLog | src/popup/manager.ts:166-173 | Stores what `addLog` would store for the popup entry; a failure is swallowed and leaves the store as `addLog` left it. |
| Manager.PopupManager.WatchStorageLogs | src/popup/manager.ts:66-77 | Registers the listener with the count it keeps from then on. |
| Manager.PopupManager.Initialize | src/popup/manager.ts:35-60 | Start-up, in order: registers the log-clearing callback, renders the visible backlog when the log is non-empty, and starts the watcher from `InitialCount`. Then it loads the settings and the flag and logs the status line. A rejected settings read keeps both old values; a rejected flag read keeps the adopted settings and the old flag; either way the failure message is logged at level error. |
| Manager.PopupManager.LoadBacklog | src/popup/manager.ts:40-50 | Renders the visible backlog when the stored log is non-empty and starts the watcher from the visible count (0 when the read fails). |
| Manager.PopupManager.LoadSettings | src/popup/manager.ts:52-60 | Adopts the stored settings and flag and logs the status message. A rejected settings read keeps both old values; a rejected flag read keeps the settings just adopted and the old flag; either way it logs the failure message at level error with the rejection as detail. |
| Manager.PopupManager.OnStorageChanged | src/popup/manager.ts:67-76 | The listener appends the lines of `Notified` after the existing ones, or throws exactly when `Notified` fails; the captured count is not changed. |
| Manager.PopupManager.OutputEntries | src/popup/manager.ts:72-74 | One `messageOutput` per entry, in order: the pane gains exactly the rendered entries. |
| Manager.PopupManager.UpdateSettings | src/popup/manager.ts:134-143 | Adopts the merged settings, also when the write fails, and stores them whole. It logs the success message only when one is given; on a rejected write it stores no settings and logs the failure message (the given one, or the default). |
| Manager.PopupManager.OnEnabledChanged | src/popup/manager.ts:80-89 | Adopts the checkbox state, stores it under `enabled` and logs the matching message; on a rejected write the flag is not stored and the failure message is logged. |
| Manager.RenderedAgain | src/popup/manager.ts:66-71 | The count is never advanced, so whatever one notification rendered is rendered again, as a prefix, by every later notification of a longer log. |
| Manager.NewEntriesOfExtension | src/popup/manager.ts:42-71 | Entries appended after start-up are rendered, visible ones only. |
| Manager.SecondNotificationRepeats | src/popup/manager.ts:66-74 | Two visible entries logged in turn: the first notification renders the first entry, the second renders it again followed by the second. |
| Manager.AppendNotification | src/popup/manager.ts:66-74 | The change notification of an `addLog` below the cap renders exactly the new entry, or nothing when it is hidden, whatever the area. |
| Manager.FailureIsLogged | src/popup/manager.ts:57-60 | A rejection that `showLog` records becomes the newest stored entry, at level error, with detail `[object Object]` rather than the host's message. |
| Manager.FullLogRendersNothing | src/popup/manager.ts:42-71 | After starting from a full log of visible entries, the watcher renders nothing more, because the stored log never exceeds the cap. |
| Manager.LoggingKeepsSettings | src/popup/manager.ts:137-138 | Logging never disturbs the stored settings or the enabled flag. |
| Manager.UpdatedSettingsReadBack | src/popup/manager.ts:134-138 | After an update, `getSettings` reads the merged settings, also after the success message is logged. |
| Info.SiteAccessText | src/popup/components/info.ts:81-91 | No origins (absent or empty) gives the click-only text; `<all_urls>` anywhere gives the all-sites text; otherwise the text's lines, split at `<br>`, are exactly the escaped origins in order. |
| Info.EscapedLinesSplit | src/popup/components/info.ts:86 | Splitting the `<br>`-join of the escaped origins at the breaks gives the escaped origins back. |
| Info.LinesOfJoin | src/popup/components/info.ts:86 | Joining `<`-free parts with `<br>` and splitting at the breaks gives the parts back. |
| Info.PlainOriginsShowOnePerLine | src/popup/components/info.ts:81-87 | With ordinary origins the text has one line per origin, in order (`n - 1` breaks and no other `<`). Each line is `escapeHtml` of its origin, and decoding it gives the origin back. |
| MdLoader.OrString | scripts/md-loader.js:6-12 | The JavaScript `or` of an optional string and a fallback: an absent or empty string gives the fallback, any other string itself. |
| MdLoader.ToDocumentMeta | scripts/md-loader.js:4-16 | Each field gets its default: the title is never empty, the order is 0 when absent, and visible/expanded are false only for the boolean `false`. |
| MdLoader.EmptyFrontMatterDefaults | scripts/md-loader.js:4-16 | Empty front matter gives an untitled, visible, expanded document of order 0. |
| MdLoader.OnlyFalseHides | scripts/md-loader.js:9 | Only `visible: false` hides a document; null, 0, the empty string or an absent value leave it visible. |
| Docs.InsertPermutes | src/popup/components/version.ts:26 | Insertion adds exactly the item: the multiset of the result is the input plus the item. |
| Docs.InsertSorted | src/popup/components/document.ts:25 | Inserting into a sorted sequence keeps it sorted by the comparator's key. |
| Docs.SortByOrder | src/popup/components/document.ts:25 | The sort result is ordered by the comparator (`a.order - b.order`, or the reverse) and is a permutation of the input. |
| Docs.WithKeyInsert | src/popup/components/version.ts:26 | Insertion keeps the items of each key in their order and places the new item after those of its own key. |
| Docs.SortIsStable | src/popup/components/version.ts:26 | The sort is stable: the items sharing an `order` keep their input order. |
| Docs.ShownItems | src/popup/components/document.ts:27 | The filter is no longer than its input and keeps exactly the items whose `visible` is not false. |
| Docs.ShownItemsCount | src/popup/components/document.ts:27 | The filter keeps each shown item as often as it occurs and drops every hidden one. |
| Docs.ShownItemsAppend | src/popup/components/document.ts:27 | The filter works piece by piece: filtering a concatenation concatenates the filtered parts, so order is kept. |
| Docs.ShownItemsWithKey | src/popup/components/version.ts:26-27 | Filtering and picking out the items of one `order` value commute. |
| Docs.ShownItemsSorted | src/popup/components/version.ts:26-27 | Filtering a sorted list keeps it sorted. |
| Docs.ShownSorted | src/popup/components/version.ts:26-27 | What a tab displays is sorted and holds exactly the visible items, each as often as the input holds it. |
| Docs.ShownSortedByKey | src/popup/components/document.ts:25-27 | Among the displayed items, those sharing an `order` appear in their input order. |
| Docs.RewriteIsSafe | src/popup/components/version.ts:93-95 | The replacement markup `<tag class="…">` of one tag never begins with the bare `<tag>` of another (or its own), nor the reverse. |
| Docs.NoBareMappedTag | src/popup/components/version.ts:91-97 | After `applyMarkdownClassMap`, no bare opening tag of the map remains anywhere in the HTML. |
| Docs.ApplyClassMap | src/popup/components/document.ts:72-78 | HTML holding none of the mapped bare tags is left exactly as it is. |
| Docs.TagsDistinct | src/popup/components/version.ts:6-17 | A map over the ten Markdown tags, in their declared order, names each tag once. |
| Docs.OpenTagPrefix | src/popup/components/version.ts:93 | The bare opening tag of one name starts with that of another only when the names agree. |
| Docs.RewriteAroundTag | src/popup/components/version.ts:91-97 | After the first `j` entries, a bare tag of entry `k` carries its class exactly when entry `k` was among them, and the text around it is rewritten on its own. |
| Docs.ClassMapRewritesTag | src/popup/components/version.ts:91-97 | Every bare opening tag of a mapped element becomes that tag with its class, and the text before and after it is rewritten independently. |
| Version.VersionString | src/popup/components/version.ts:39 | The version string is the id when it is non-empty, otherwise the title. |
| Version.DisplayTitle | src/popup/components/version.ts:40 | The title shown is the escaped title, version or `Version`, in that order of preference. It holds no `<` or `>`. |
| Version.BadgeHtml | src/popup/components/version.ts:79-89 | The running version gets the "current" badge, even when it is first. Otherwise the first item gets "latest" and every other item gets none. |
| Version.FormatReleaseDate | src/popup/components/version.ts:67-77 | An absent or blank date shows nothing. A trimmed value starting with `YYYY-MM-DD` shows exactly those 10 characters. Any other non-blank value goes, trimmed, to the `Date` fallback. |
| Version.SetupVersionTab | src/popup/components/version.ts:22-35 | The tab shows the placeholder exactly when no release is visible. |
| Version.VersionTagsDistinct | src/popup/components/version.ts:6-17 | The version class map names each tag once. |
| Version.VersionClassMapWellFormed | src/popup/components/version.ts:6-17 | Every tag of the version class map is a plain tag name and no class holds `<`. |
| Version.VersionListShape | src/popup/components/version.ts:37-65 | One entry per visible release, newest first. The first entry always has a badge and no later entry is marked latest. "Current" marks exactly the running version, and each badge is the one the badge rule gives the release at its position (so a later non-current entry has none). Each entry shows its release's escaped title, formatted date and styled body; titles hold no markup and bodies no bare mapped tag. |
| Version.VersionEntriesShow | src/popup/components/version.ts:38-43 | Entry by entry: the badge the badge rule gives the release at that position, the title, date and body of the release at that position, and the markup-free title and styled body. |
| Document.ExpandedFlags | src/popup/components/document.ts:44-46 | The three attributes encode one open/closed state consistently, and `aria-expanded` is "true" exactly when the document is expanded. |
| Document.FlagsDecode | src/popup/components/document.ts:44-46 | Every consistent encoding comes from exactly one value of `expanded`. |
| Document.SetupDocumentTab | src/popup/components/document.ts:21-36 | The tab shows the placeholder exactly when no document is visible. |
| Document.DocumentTagsDistinct | src/popup/components/document.ts:5-16 | The document class map names each tag once. |
| Document.DocumentClassMapWellFormed | src/popup/components/document.ts:5-16 | Every tag of the document class map is a plain tag name and no class holds `<`. |
| Document.AccordionShape | src/popup/components/document.ts:41-67 | One item per visible document, in ascending order. Each item shows its document's id and title as written, the flags of its `expanded` value and its styled body; it starts open exactly when the document is expanded. No body keeps a bare mapped tag. |

## Left out

- The DOM is not modelled. This covers element lookup, `innerHTML` strings and their whitespace,
  scrolling, the panel's resize/maximize/minimize/close handling, the header and tab menu,
  `setupUI`, `setupInfoTab`'s other fields, and the theme, share and more menus. The tab contents
  are modelled as records (`VersionEntry`, `AccordionItem`) rather than as HTML text. The
  `escapeHtml` applied to the displayed date when it is inserted is part of that HTML text, so it
  is not modelled either.
- Asynchrony and concurrency are not modelled. Each `await` is a sequential call, and
  interleavings of listeners and handlers are not modelled.
- The clock (`new Date()`) is not modelled: `now()` takes a `ClockReading`, and the other
  operations take the timestamp string as a parameter.
- `console.error` output is not modelled.
- Manager.PopupManager.constructor: the model does not call `initialize` from the constructor.
  The model constructs the manager, then `Initialize` is called. Manifest data is reduced to
  `short_name` and `issues_url`, which are given as constructor parameters.
- Manager.PopupManager.Initialize: the `enabledElement.checked` update is not modelled, and
  neither are `addEventListeners` or `setupUI`. Listener registration is the `knownLength` field
  that `WatchStorageLogs` sets. A second registration replaces the count rather than adding a
  second listener.
- Logger.GetLogs: a stored value that is neither null nor an array is modelled as a TypeError
  failure. The source passes it on unchecked, and the first array operation of the caller throws.
- Values.Rejection: the message of a TypeError thrown by the popup's own code is
  engine-specific. It is modelled as an `Error` with an empty message.
- Manager.Spread: spreading a string or an array into the settings object is approximated as
  contributing no keys.
- Stored numbers are integers, and floating point (including NaN) is not modelled. Arrays
  appear in the store only as log arrays.
- Version.FormatReleaseDate: the `new Date(raw)` fallback (parse, `toISOString`, or the raw value
  when NaN) is not evaluated. The model returns `DateFallback(raw)`.
- MdLoader.ToDocumentMeta: YAML typing of the front matter is not modelled. `id`, `title`, `date`
  and `lang` are strings and `order` is an integer. gray-matter parsing, `marked` rendering and
  the generated module text are not modelled.
- Version.SetupVersionTab and Document.SetupDocumentTab take the document list as a parameter.
  The source imports two fixed Markdown files.
- Panel.PopupPanel.ClickClear: the callback's promise is not awaited. A failure of `clearLogs`
  inside it is dropped.
- Panel.LevelClass: the level is a value of the `LogLevel` union, as at every call site. The
  `?? 'text-body'` fallback for a string outside the table, and lookups of inherited property
  names such as `constructor`, are not modelled.
- Panel.SourceLabel: the source is a value of the `LogSource` union, as at every call site. The
  `?? source` fallback and lookups of inherited property names are not modelled.
- Storage.Store.Get: the host is taken to hand the stored entries to the callback even on a call
  for which it reports `chrome.runtime.lastError`. If it handed nothing, `getLogs` would throw
  inside its callback, its promise would never settle, and `initialize` would stall; that stall
  is not modelled.
- `JSON` serialization in `chrome.storage` is not modelled. A record property that is
  `undefined` is the same as an absent one (`None`).
