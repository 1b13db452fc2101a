/** The values the extension keeps in `chrome.storage.local`, the log record it appends
    (src/utils/logger.ts), and the JavaScript conversions the popup applies to them. */
module Values {
  import opened Text

  datatype Option<T> = None | Some(value: T)

  /** What a rejected storage promise or a thrown exception carries in the model. */
  datatype Fault =
    | HostError(message: string)  // chrome.runtime.lastError reported by the host
    | TypeError                   // a JavaScript TypeError raised by the popup's own code

  datatype Result<T> = Success(value: T) | Failure(fault: Fault)

  datatype Outcome = Ok | Failed(fault: Fault)

  datatype LogLevel = Info | Warn | Error

  datatype LogSource = Popup | Background | Content

  function LevelName(level: LogLevel): string
  {
    match level
    case Info => "info"
    case Warn => "warn"
    case Error => "error"
  }

  function SourceName(source: LogSource): string
  {
    match source
    case Popup => "popup"
    case Background => "background"
    case Content => "content"
  }

  /** One stored log record. `detail` and `hidden` are optional properties: `None` is a
      property that is absent (or `undefined`, which JSON storage drops). */
  datatype LogEntry = LogEntry(
    message: string,
    timestamp: string,
    level: LogLevel,
    source: LogSource,
    detail: Option<string>,
    hidden: Option<bool>)

  /** `e.hidden` is truthy: only an explicit `hidden: true` hides an entry. */
  predicate IsHidden(e: LogEntry)
  {
    e.hidden == Some(true)
  }

  /** `entries.filter(e => !e.hidden)`. */
  function Visible(entries: seq<LogEntry>): (r: seq<LogEntry>)
    ensures |r| <= |entries|
    ensures forall e :: e in r <==> e in entries && !IsHidden(e)
    decreases |entries|
  {
    if |entries| == 0 then []
    else (if IsHidden(entries[0]) then [] else [entries[0]]) + Visible(entries[1..])
  }

  /** `entries.filter(e => !e.hidden).length`. */
  function VisibleCount(entries: seq<LogEntry>): nat
  {
    |Visible(entries)|
  }

  /** Filtering distributes over concatenation, so the visible entries of a longer log extend
      those of any prefix of it, in the same order. */
  lemma {:induction false} VisibleAppend(a: seq<LogEntry>, b: seq<LogEntry>)
    ensures Visible(a + b) == Visible(a) + Visible(b)
    decreases |a|
  {
    if |a| == 0 {
      assert a + b == b;
    } else {
      assert (a + b)[0] == a[0];
      assert (a + b)[1..] == a[1..] + b;
      VisibleAppend(a[1..], b);
    }
  }

  /** Appending one entry to a log adds it to the visible entries exactly when it is not hidden. */
  lemma VisibleSnoc(a: seq<LogEntry>, e: LogEntry)
    ensures Visible(a + [e]) == Visible(a) + (if IsHidden(e) then [] else [e])
  {
    VisibleAppend(a, [e]);
    assert [e][1..] == [];
  }

  /** A JSON-like value held under a storage key. Arrays appear only as arrays of log records;
      numbers are integers. */
  datatype Value =
    | Null
    | Bool(b: bool)
    | Num(n: int)
    | Str(s: string)
    | Obj(fields: map<string, Value>)
    | LogList(entries: seq<LogEntry>)

  /** JavaScript truthiness. */
  predicate Truthy(v: Value)
  {
    match v
    case Null => false
    case Bool(b) => b
    case Num(n) => n != 0
    case Str(s) => s != ""
    case Obj(_) => true
    case LogList(_) => true
  }

  /** `String(v)`: a plain object prints as "[object Object]", an array as its elements'
      strings joined by ",". Only the empty string and the empty array print as nothing. */
  function Stringify(v: Value): (s: string)
    ensures s == "" <==> v == Str("") || v == LogList([])
  {
    match v
    case Null => "null"
    case Bool(b) => if b then "true" else "false"
    case Num(n) => IntToString(n)
    case Str(s) => s
    case Obj(_) => "[object Object]"
    case LogList(entries) =>
      var parts := seq(|entries|, _ => "[object Object]");
      assert |entries| > 0 ==> |parts[0]| > 0;
      Join(parts, ",")
  }

  /** A value passed to a `catch` handler or to the `error` parameter of a log helper. */
  datatype Thrown =
    | Nothing                        // `undefined`: no error value given
    | ErrorInstance(message: string) // an object that is `instanceof Error`
    | ThrownValue(v: Value)          // any other value

  /** The value a storage call rejects with: `chrome.runtime.lastError` is a plain object with a
      `message` property, not an `Error` instance. */
  function HostRejection(message: string): Thrown
  {
    ThrownValue(Obj(map["message" := Str(message)]))
  }

  /** The value a `catch` handler receives for a fault: the host's rejection object, or a
      TypeError instance (whose engine-specific message is not modelled). */
  function Rejection(f: Fault): Thrown
  {
    match f
    case HostError(message) => HostRejection(message)
    case TypeError => ErrorInstance("")
  }
}
