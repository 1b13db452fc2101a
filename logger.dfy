/** The capped log store of src/utils/logger.ts: one storage key holding the most recent
    `MAX_LOG_SIZE` log records, oldest first. */
module Logger {
  import opened Values
  import opened Text
  import Storage

  const LOG_STORAGE_KEY := "app_logs"
  const MAX_LOG_SIZE := 200

  /** What `getLogs` resolves to on a store holding `items`: the stored array, or `[]` when the
      key is absent or null. A stored value that is not an array is a `TypeError` for the
      caller's first array operation. */
  function LogsOf(items: map<string, Value>): (r: Result<seq<LogEntry>>)
  {
    if LOG_STORAGE_KEY !in items || items[LOG_STORAGE_KEY] == Null then Success([])
    else if items[LOG_STORAGE_KEY].LogList? then Success(items[LOG_STORAGE_KEY].entries)
    else Failure(TypeError)
  }

  /** `getLogs()`: reads the log key; `chrome.runtime.lastError` is not consulted. */
  method GetLogs(store: Storage.Store) returns (r: Result<seq<LogEntry>>)
    ensures r == LogsOf(store.items)
    ensures LOG_STORAGE_KEY !in store.items ==> r == Success([])
    ensures LOG_STORAGE_KEY in store.items && store.items[LOG_STORAGE_KEY].LogList? ==>
      r == Success(store.items[LOG_STORAGE_KEY].entries)
  {
    var result := store.Get({LOG_STORAGE_KEY});
    if LOG_STORAGE_KEY !in result || result[LOG_STORAGE_KEY] == Null {
      return Success([]);
    }
    if result[LOG_STORAGE_KEY].LogList? {
      return Success(result[LOG_STORAGE_KEY].entries);
    }
    return Failure(TypeError);
  }

  /** The last `n` elements of `s` (all of `s` when it is shorter). */
  function LastN<T>(s: seq<T>, n: nat): (r: seq<T>)
    ensures |r| == if |s| < n then |s| else n
    ensures r == s[|s| - |r|..]
  {
    if |s| > n then s[|s| - n..] else s
  }

  /** The stored log after `addLog` appends `entry` to `logs`: push, then drop from the front
      down to the cap. The result is a suffix of `logs + [entry]`, so order is kept. */
  function Appended(logs: seq<LogEntry>, entry: LogEntry): (r: seq<LogEntry>)
    ensures 0 < |r| <= MAX_LOG_SIZE && r[|r| - 1] == entry
    ensures |r| == if |logs| < MAX_LOG_SIZE then |logs| + 1 else MAX_LOG_SIZE
    ensures r[..|r| - 1] == logs[|logs| + 1 - |r|..]
  {
    var pushed := logs + [entry];
    var r := LastN(pushed, MAX_LOG_SIZE);
    assert r[..|r| - 1] == pushed[|pushed| - |r|..|pushed| - 1];
    r
  }

  /** Below the cap `addLog` only appends; at the cap it also drops exactly the oldest record. */
  lemma AppendedShape(logs: seq<LogEntry>, entry: LogEntry)
    ensures |logs| < MAX_LOG_SIZE ==> Appended(logs, entry) == logs + [entry]
    ensures |logs| >= MAX_LOG_SIZE ==>
      Appended(logs, entry) == logs[|logs| + 1 - MAX_LOG_SIZE..] + [entry]
  {
    var r := Appended(logs, entry);
    assert r == r[..|r| - 1] + [r[|r| - 1]];
  }

  /** The record `addLog` builds. */
  function MakeEntry(message: string, level: LogLevel, source: LogSource,
                     detail: Option<string>, hidden: Option<bool>, timestamp: string): LogEntry
  {
    LogEntry(message, timestamp, level, source, detail, hidden)
  }

  /** The effect of `addLog` on a store holding `items` when the host answers its write with
      `writeError`: the outcome, and the items afterwards. */
  function AddLogEffect(items: map<string, Value>, writeError: Option<string>, entry: LogEntry)
    : (Outcome, map<string, Value>)
  {
    var logs := LogsOf(items);
    if logs.Failure? then (Failed(logs.fault), items)
    else if writeError.Some? then (Failed(HostError(writeError.value)), items)
    else (Ok, items[LOG_STORAGE_KEY := LogList(Appended(logs.value, entry))])
  }

  /** `addLog(message, level, source, detail, hidden)`, with the clock's reading passed in as
      `timestamp` and the host's answer to the write as `writeError`. */
  method AddLog(store: Storage.Store, message: string, level: LogLevel, source: LogSource,
                detail: Option<string>, hidden: Option<bool>, timestamp: string,
                writeError: Option<string>)
    returns (r: Outcome)
    modifies store`items
    ensures (r, store.items)
      == AddLogEffect(old(store.items), writeError,
                      MakeEntry(message, level, source, detail, hidden, timestamp))
  {
    var entry := LogEntry(message, timestamp, level, source, detail, hidden);
    var read := GetLogs(store);
    if read.Failure? {
      return Failed(read.fault);
    }
    var logs := read.value;
    logs := logs + [entry];
    if |logs| > MAX_LOG_SIZE {
      logs := logs[|logs| - MAX_LOG_SIZE..];
    }
    assert logs == Appended(read.value, entry) by {
      assert logs == LastN(read.value + [entry], MAX_LOG_SIZE);
    }
    ghost var before := store.items;
    store.Set(map[LOG_STORAGE_KEY := LogList(logs)], writeError);
    if writeError.Some? {
      return Failed(HostError(writeError.value));
    }
    assert store.items == before[LOG_STORAGE_KEY := LogList(logs)];
    return Ok;
  }

  /** `clearLogs()`: deletes the log key (rather than writing an empty array). */
  method ClearLogs(store: Storage.Store, hostError: Option<string>) returns (r: Outcome)
    modifies store`items
    ensures hostError.Some? ==> (r == Failed(HostError(hostError.value))
      && store.items == old(store.items))
    ensures hostError.None? ==> (r == Ok
      && store.items == old(store.items) - {LOG_STORAGE_KEY})
  {
    store.Remove({LOG_STORAGE_KEY}, hostError);
    if hostError.Some? {
      return Failed(HostError(hostError.value));
    }
    return Ok;
  }

  /** After `clearLogs`, `getLogs` reads an empty log, and nothing else in the store moved. */
  lemma ClearedLogsReadEmpty(items: map<string, Value>)
    ensures LogsOf(items - {LOG_STORAGE_KEY}) == Success([])
    ensures forall k :: k in items && k != LOG_STORAGE_KEY ==> (items - {LOG_STORAGE_KEY})[k] == items[k]
  {
  }

  /** `addLog` is read back by `getLogs`: a successful append stores `Appended(logs, entry)`. */
  lemma AddLogReadBack(items: map<string, Value>, entry: LogEntry)
    requires LogsOf(items).Success?
    ensures AddLogEffect(items, None, entry).0 == Ok
    ensures LogsOf(AddLogEffect(items, None, entry).1)
      == Success(Appended(LogsOf(items).value, entry))
  {
    var appended := Appended(LogsOf(items).value, entry);
    StoredLogsReadBack(items, appended);
    var effect := AddLogEffect(items, None, entry);
    assert effect.1 == items[LOG_STORAGE_KEY := LogList(appended)];
  }

  lemma StoredLogsReadBack(items: map<string, Value>, logs: seq<LogEntry>)
    ensures LogsOf(items[LOG_STORAGE_KEY := LogList(logs)]) == Success(logs)
  {
  }

  /** `addLog` rejects when the host reports an error on the write, and then stores nothing. */
  lemma AddLogRejectsOnHostError(items: map<string, Value>, message: string, entry: LogEntry)
    requires LogsOf(items).Success?
    ensures AddLogEffect(items, Some(message), entry) == (Failed(HostError(message)), items)
  {
  }

  /** Appending entries one `addLog` at a time. */
  function AppendAll(logs: seq<LogEntry>, entries: seq<LogEntry>): seq<LogEntry>
    decreases |entries|
  {
    if |entries| == 0 then logs
    else AppendAll(Appended(logs, entries[0]), entries[1..])
  }

  /** A run of appends keeps exactly the newest `MAX_LOG_SIZE` records of the whole history, in
      order: the oldest are the ones dropped. */
  lemma {:induction false} AppendAllKeepsNewest(logs: seq<LogEntry>, entries: seq<LogEntry>)
    requires |logs| <= MAX_LOG_SIZE
    ensures AppendAll(logs, entries) == LastN(logs + entries, MAX_LOG_SIZE)
    decreases |entries|
  {
    if |entries| == 0 {
      assert logs + entries == logs;
    } else {
      var e, rest := entries[0], entries[1..];
      AppendAllKeepsNewest(Appended(logs, e), rest);
      KeepNewestStep(logs, e, rest);
      ConsSplit(logs, entries);
    }
  }

  lemma ConsSplit<T>(s: seq<T>, t: seq<T>)
    requires |t| > 0
    ensures s + t == (s + [t[0]]) + t[1..]
  {
    assert t == [t[0]] + t[1..];
  }

  lemma KeepNewestStep(logs: seq<LogEntry>, e: LogEntry, rest: seq<LogEntry>)
    ensures LastN(Appended(logs, e) + rest, MAX_LOG_SIZE) == LastN((logs + [e]) + rest, MAX_LOG_SIZE)
  {
    AppendedIsLastN(logs, e);
    LastNTail(logs + [e], rest, MAX_LOG_SIZE);
  }

  lemma AppendedIsLastN(logs: seq<LogEntry>, e: LogEntry)
    ensures Appended(logs, e) == LastN(logs + [e], MAX_LOG_SIZE)
  {
  }

  /** Cutting to the last `n` before appending more changes nothing once the result is cut
      again. */
  lemma LastNTail<T>(s: seq<T>, rest: seq<T>, n: nat)
    ensures LastN(LastN(s, n) + rest, n) == LastN(s + rest, n)
  {
    if |s| > n && |rest| > 0 {
      var t := s[|s| - n..];
      var u, v := t + rest, s + rest;
      forall j | |rest| <= j < |u|
        ensures u[j] == v[|s| - n + j]
      {
        if j < n {
          assert u[j] == t[j] == s[|s| - n + j];
        } else {
          assert u[j] == rest[j - n];
        }
      }
      assert u[|u| - n..] == v[|v| - n..];
    } else if |s| > n {
      assert s[|s| - n..] + rest == s[|s| - n..] && s + rest == s;
    }
  }

  /** With a full log, `k` further appends drop exactly the `k` oldest records. */
  lemma FullLogDropsOldest(logs: seq<LogEntry>, entries: seq<LogEntry>)
    requires |logs| == MAX_LOG_SIZE && |entries| <= MAX_LOG_SIZE
    ensures AppendAll(logs, entries) == logs[|entries|..] + entries
  {
    AppendAllKeepsNewest(logs, entries);
    LastNOfFull(logs, entries, MAX_LOG_SIZE);
  }

  lemma LastNOfFull<T>(s: seq<T>, t: seq<T>, n: nat)
    requires |s| == n && |t| <= n
    ensures LastN(s + t, n) == s[|t|..] + t
  {
    if |t| > 0 {
      assert (s + t)[|s + t| - n..] == s[|t|..] + t;
    } else {
      assert s + t == s && s[0..] == s;
    }
  }

  /** The `detail` that `logError` (and the popup's `showLog`) derives from an error value:
      `error instanceof Error ? error.message : error ? String(error) : undefined`. */
  function ErrorDetail(error: Thrown): (detail: Option<string>)
    ensures error.ErrorInstance? ==> detail == Some(error.message)
    ensures error.ThrownValue? ==> (detail.Some? <==> Truthy(error.v))
    ensures error.ThrownValue? && detail.Some? ==> detail.value == Stringify(error.v)
    ensures error.Nothing? ==> detail.None?
  {
    match error
    case ErrorInstance(message) => Some(message)
    case ThrownValue(v) => if Truthy(v) then Some(Stringify(v)) else None
    case Nothing => None
  }

  /** A rejected storage call reaches `logError` as a plain object, so its detail is the
      object's string form and not the host's message. */
  lemma HostRejectionDetail(message: string)
    ensures ErrorDetail(HostRejection(message)) == Some("[object Object]")
  {
  }

  /** `logInfo(message, source, hidden)`: level `info`, no detail. */
  method LogInfo(store: Storage.Store, message: string, source: LogSource, hidden: Option<bool>,
                 timestamp: string, writeError: Option<string>) returns (r: Outcome)
    modifies store`items
    ensures (r, store.items)
      == AddLogEffect(old(store.items), writeError,
                      LogEntry(message, timestamp, Info, source, None, hidden))
  {
    r := AddLog(store, message, Info, source, None, hidden, timestamp, writeError);
  }

  /** `logWarn(message, source, detail, hidden)`: level `warn`. */
  method LogWarn(store: Storage.Store, message: string, source: LogSource, detail: Option<string>,
                 hidden: Option<bool>, timestamp: string, writeError: Option<string>)
    returns (r: Outcome)
    modifies store`items
    ensures (r, store.items)
      == AddLogEffect(old(store.items), writeError,
                      LogEntry(message, timestamp, Warn, source, detail, hidden))
  {
    r := AddLog(store, message, Warn, source, detail, hidden, timestamp, writeError);
  }

  /** `logError(message, source, error, hidden)`: level `error`, detail derived from `error`. */
  method LogError(store: Storage.Store, message: string, source: LogSource, error: Thrown,
                  hidden: Option<bool>, timestamp: string, writeError: Option<string>)
    returns (r: Outcome)
    modifies store`items
    ensures (r, store.items)
      == AddLogEffect(old(store.items), writeError,
                      LogEntry(message, timestamp, Error, source, ErrorDetail(error), hidden))
  {
    var detail := ErrorDetail(error);
    r := AddLog(store, message, Error, source, detail, hidden, timestamp, writeError);
  }

  /** The wall-clock reading `now()` formats, as the `Date` getters return it (`monthIndex` is
      `getMonth()`, counting from 0). */
  datatype ClockReading = ClockReading(
    year: nat, monthIndex: nat, day: nat, hours: nat, minutes: nat, seconds: nat)

  /** `String(n).padStart(2, '0')`. */
  function Pad(n: nat): (s: string)
    ensures n < 100 ==> |s| == 2
    ensures forall i :: 0 <= i < |s| ==> IsDigit(s[i])
    ensures DigitsValue(s) == n
  {
    NatToStringRoundTrip(n);
    var digits := NatToString(n);
    if |digits| < 2 then
      var s := "0" + digits;
      assert s[..1] == "0";
      assert DigitsValue(s[..1]) == 0 by { assert s[..1][..0] == []; }
      s
    else digits
  }

  /** `now()`: "YYYY-MM-DD HH:mm:ss" built from the clock reading. For a four-digit year the
      result has that fixed layout and every field reads back as the reading's value. */
  function FormatTimestamp(c: ClockReading): (s: string)
    ensures PlausibleReading(c) ==> ReadsAs(s, c)
  {
    var s := NatToString(c.year) + "-" + Pad(c.monthIndex + 1) + "-" + Pad(c.day) + " "
      + Pad(c.hours) + ":" + Pad(c.minutes) + ":" + Pad(c.seconds);
    assert PlausibleReading(c) ==> ReadsAs(s, c) by {
      if PlausibleReading(c) { TimestampFields(c, s); }
    }
    s
  }

  /** `s` has the 19-character layout "YYYY-MM-DD HH:mm:ss", and each digit field holds the
      value of the matching field of `c`. */
  predicate ReadsAs(s: string, c: ClockReading)
  {
    && |s| == 19
    && s[4] == '-' && s[7] == '-' && s[10] == ' ' && s[13] == ':' && s[16] == ':'
    && (forall i :: 0 <= i < 19 && i !in {4, 7, 10, 13, 16} ==> IsDigit(s[i]))
    && DigitsValue(s[0..4]) == c.year
    && DigitsValue(s[5..7]) == c.monthIndex + 1
    && DigitsValue(s[8..10]) == c.day
    && DigitsValue(s[11..13]) == c.hours
    && DigitsValue(s[14..16]) == c.minutes
    && DigitsValue(s[17..19]) == c.seconds
  }

  /** A calendar reading with a four-digit year. */
  predicate PlausibleReading(c: ClockReading)
  {
    1000 <= c.year <= 9999 && c.monthIndex < 12 && 1 <= c.day <= 31
    && c.hours < 24 && c.minutes < 60 && c.seconds < 60
  }

  lemma SliceLeft(a: string, b: string, i: nat, j: nat)
    requires i <= j <= |a|
    ensures (a + b)[i..j] == a[i..j]
  {
  }

  lemma SliceRight(a: string, b: string)
    ensures (a + b)[|a|..|a| + |b|] == b
  {
  }

  /** The fields of the concatenation `now()` builds sit at fixed positions. */
  lemma TimestampFields(c: ClockReading, s: string)
    requires PlausibleReading(c)
    requires s == NatToString(c.year) + "-" + Pad(c.monthIndex + 1) + "-" + Pad(c.day) + " "
      + Pad(c.hours) + ":" + Pad(c.minutes) + ":" + Pad(c.seconds)
    ensures ReadsAs(s, c)
  {
    var y := NatToString(c.year);
    NatToStringRoundTrip(c.year);
    YearDigits(c.year);
    var mo, d, h, mi, se := Pad(c.monthIndex + 1), Pad(c.day), Pad(c.hours), Pad(c.minutes), Pad(c.seconds);
    var p1 := y + "-";
    var p2 := p1 + mo;
    var p3 := p2 + "-";
    var p4 := p3 + d;
    var p5 := p4 + " ";
    var p6 := p5 + h;
    var p7 := p6 + ":";
    var p8 := p7 + mi;
    var p9 := p8 + ":";
    assert s == p9 + se;
    SliceRight(p9, se);
    SliceLeft(p9, se, 14, 16); SliceLeft(p8, ":", 14, 16); SliceRight(p7, mi);
    SliceLeft(p9, se, 11, 13); SliceLeft(p8, ":", 11, 13); SliceLeft(p7, mi, 11, 13);
    SliceLeft(p6, ":", 11, 13); SliceRight(p5, h);
    SliceLeft(p9, se, 8, 10); SliceLeft(p8, ":", 8, 10); SliceLeft(p7, mi, 8, 10);
    SliceLeft(p6, ":", 8, 10); SliceLeft(p5, h, 8, 10); SliceLeft(p4, " ", 8, 10); SliceRight(p3, d);
    assert s[..10] == p4;
    assert s[5..7] == p4[5..7] == p2[5..7] == mo;
    assert s[0..4] == p4[0..4] == p1[0..4] == y;
    DigitFields(s);
  }

  /** Six digit fields at the timestamp's positions make every non-separator character a digit. */
  lemma DigitFields(s: string)
    requires |s| == 19
    requires forall i :: 0 <= i < 4 ==> IsDigit(s[0..4][i])
    requires forall i :: 0 <= i < 2 ==> IsDigit(s[5..7][i]) && IsDigit(s[8..10][i])
    requires forall i :: 0 <= i < 2 ==> IsDigit(s[11..13][i]) && IsDigit(s[14..16][i]) && IsDigit(s[17..19][i])
    ensures forall i :: 0 <= i < 19 && i !in {4, 7, 10, 13, 16} ==> IsDigit(s[i])
  {
    forall i | 0 <= i < 19 && i !in {4, 7, 10, 13, 16}
      ensures IsDigit(s[i])
    {
      if i < 4 { assert s[i] == s[0..4][i]; }
      else if i < 7 { assert s[i] == s[5..7][i - 5]; }
      else if i < 10 { assert s[i] == s[8..10][i - 8]; }
      else if i < 13 { assert s[i] == s[11..13][i - 11]; }
      else if i < 16 { assert s[i] == s[14..16][i - 14]; }
      else { assert s[i] == s[17..19][i - 17]; }
    }
  }

  lemma YearDigits(year: nat)
    requires 1000 <= year <= 9999
    ensures |NatToString(year)| == 4
  {
    var a, b, c := year / 10, year / 100, year / 1000;
    assert 100 <= a <= 999 && 10 <= b <= 99 && 1 <= c <= 9;
    assert a / 10 == b && b / 10 == c;
    assert |NatToString(c)| == 1;
    assert |NatToString(b)| == |NatToString(c)| + 1;
    assert |NatToString(a)| == |NatToString(b)| + 1;
    assert |NatToString(year)| == |NatToString(a)| + 1;
  }
}
