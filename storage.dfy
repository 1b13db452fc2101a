/** The host's local storage area and the typed accessors of src/utils/storage.ts. */
module Storage {
  import opened Values

  const SETTINGS_KEY := "settings"
  const ENABLED_KEY := "enabled"

  /** An open mapping from option name to value (src/settings/settings.ts). */
  type Settings = map<string, Value>

  /** `DEFAULT_SETTINGS = { theme: 'system' }`. */
  const DEFAULT_SETTINGS: Settings := map["theme" := Str("system")]

  /** The entries of `m` whose keys are among `keys`: what a `get` of those keys resolves to. */
  function Restrict(m: map<string, Value>, keys: set<string>): (r: map<string, Value>)
    ensures r.Keys == m.Keys * keys
    ensures forall k :: k in r ==> r[k] == m[k]
  {
    map k | k in m && k in keys :: m[k]
  }

  /** `chrome.storage.local`: a last-write-wins map from key to value. Whether the host reports
      an error through `chrome.runtime.lastError` is decided call by call, so each write takes the
      host's answer for that call as `hostError` (`None` when it succeeds). */
  class Store {
    var items: map<string, Value>

    constructor (items: map<string, Value>)
      ensures this.items == items
    {
      this.items := items;
    }

    /** `chrome.storage.local.get(keys, callback)`: the callback receives the stored entries for
        those keys. */
    method Get(keys: set<string>) returns (result: map<string, Value>)
      ensures result == Restrict(items, keys)
    {
      result := Restrict(items, keys);
    }

    /** `chrome.storage.local.set(entries, callback)`: merges `entries` into the store, key by
        key, unless the host reports an error for this call. */
    method Set(entries: map<string, Value>, hostError: Option<string>)
      modifies this`items
      ensures items == if hostError.None? then old(items) + entries else old(items)
    {
      if hostError.None? {
        items := items + entries;
      }
    }

    /** `chrome.storage.local.remove(keys, callback)`: deletes the keys unless the host reports
        an error for this call. */
    method Remove(keys: set<string>, hostError: Option<string>)
      modifies this`items
      ensures items == if hostError.None? then old(items) - keys else old(items)
    {
      if hostError.None? {
        items := items - keys;
      }
    }
  }

  /** What `getSettings` resolves to on a store holding `items`: the stored value, unless it is
      absent or null (`??`), in which case the default settings. */
  function SettingsOf(items: map<string, Value>): (v: Value)
  {
    if SETTINGS_KEY in items && items[SETTINGS_KEY] != Null then items[SETTINGS_KEY]
    else Obj(DEFAULT_SETTINGS)
  }

  /** What `isEnabled` resolves to: `data.enabled === true`. */
  predicate EnabledOf(items: map<string, Value>)
  {
    ENABLED_KEY in items && items[ENABLED_KEY] == Bool(true)
  }

  /** `getStorage(keys)`: rejects with the error the host reports for this call, otherwise
      resolves to the stored entries for those keys. */
  method GetStorage(store: Store, keys: set<string>, hostError: Option<string>)
    returns (r: Result<map<string, Value>>)
    ensures hostError.Some? ==> r == Failure(HostError(hostError.value))
    ensures hostError.None? ==> (r.Success?
      && r.value.Keys == store.items.Keys * keys
      && forall k :: k in r.value ==> r.value[k] == store.items[k])
  {
    var result := store.Get(keys);
    if hostError.Some? {
      return Failure(HostError(hostError.value));
    }
    return Success(result);
  }

  /** `setStorage(entries)`: rejects with the host error, otherwise writes the entries. */
  method SetStorage(store: Store, entries: map<string, Value>, hostError: Option<string>)
    returns (r: Outcome)
    modifies store`items
    ensures hostError.Some? ==> (r == Failed(HostError(hostError.value))
      && store.items == old(store.items))
    ensures hostError.None? ==> r == Ok && store.items == old(store.items) + entries
  {
    store.Set(entries, hostError);
    if hostError.Some? {
      return Failed(HostError(hostError.value));
    }
    return Ok;
  }

  /** `getSettings()`: the stored settings, or the defaults when none are stored; a host error
      is passed on as a rejection. */
  method GetSettings(store: Store, hostError: Option<string>) returns (r: Result<Value>)
    ensures hostError.Some? ==> r == Failure(HostError(hostError.value))
    ensures hostError.None? ==> r == Success(SettingsOf(store.items))
  {
    var data := GetStorage(store, {SETTINGS_KEY}, hostError);
    if data.Failure? {
      return Failure(data.fault);
    }
    if SETTINGS_KEY in data.value && data.value[SETTINGS_KEY] != Null {
      return Success(data.value[SETTINGS_KEY]);
    }
    return Success(Obj(DEFAULT_SETTINGS));
  }

  /** `isEnabled()`: true exactly when the stored flag is the boolean `true`. */
  method IsEnabled(store: Store, hostError: Option<string>) returns (r: Result<bool>)
    ensures hostError.Some? ==> r == Failure(HostError(hostError.value))
    ensures hostError.None? ==> r == Success(EnabledOf(store.items))
  {
    var data := GetStorage(store, {ENABLED_KEY}, hostError);
    if data.Failure? {
      return Failure(data.fault);
    }
    return Success(ENABLED_KEY in data.value && data.value[ENABLED_KEY] == Bool(true));
  }

  /** `setSettings(settings)`: replaces the whole `settings` value, touching no other key. */
  method SetSettings(store: Store, settings: Settings, hostError: Option<string>) returns (r: Outcome)
    modifies store`items
    ensures hostError.Some? ==> (r == Failed(HostError(hostError.value))
      && store.items == old(store.items))
    ensures hostError.None? ==> (r == Ok
      && store.items == old(store.items)[SETTINGS_KEY := Obj(settings)])
  {
    r := SetStorage(store, map[SETTINGS_KEY := Obj(settings)], hostError);
  }

  /** `setEnabled(enabled)`: writes the flag, touching no other key. */
  method SetEnabled(store: Store, enabled: bool, hostError: Option<string>) returns (r: Outcome)
    modifies store`items
    ensures hostError.Some? ==> (r == Failed(HostError(hostError.value))
      && store.items == old(store.items))
    ensures hostError.None? ==> (r == Ok
      && store.items == old(store.items)[ENABLED_KEY := Bool(enabled)])
  {
    r := SetStorage(store, map[ENABLED_KEY := Bool(enabled)], hostError);
  }

  /** An empty store reads as the default settings and as disabled. */
  lemma EmptyStoreDefaults()
    ensures SettingsOf(map[]) == Obj(map["theme" := Str("system")])
    ensures !EnabledOf(map[])
  {
  }

  /** Whatever value is stored under `enabled`, `isEnabled` reports true only for the boolean
      `true`: a missing key, `false`, null, 0, 1 or the string "true" all read as false. */
  lemma EnabledOnlyForTrue(items: map<string, Value>, v: Value)
    ensures EnabledOf(items[ENABLED_KEY := v]) <==> v == Bool(true)
    ensures ENABLED_KEY !in items ==> !EnabledOf(items)
  {
  }

  /** `setEnabled(b)` followed by `isEnabled()` gives back `b`, whatever else is stored. */
  lemma EnabledRoundTrip(items: map<string, Value>, enabled: bool)
    ensures EnabledOf(items[ENABLED_KEY := Bool(enabled)]) == enabled
  {
  }

  /** `setSettings(s)` followed by `getSettings()` gives back `s`, and the write leaves the
      `enabled` flag as it was. */
  lemma SettingsRoundTrip(items: map<string, Value>, settings: Settings)
    ensures SettingsOf(items[SETTINGS_KEY := Obj(settings)]) == Obj(settings)
    ensures EnabledOf(items[SETTINGS_KEY := Obj(settings)]) == EnabledOf(items)
  {
  }
}
