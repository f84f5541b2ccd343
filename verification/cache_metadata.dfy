/** `local_cache/metadata.py`: the document `CacheMetadataManager` keeps in
    `cache_metadata.json` -- what loading it gives, the per-store entry
    `update_store` writes, and the freshness test `is_store_fresh`.  The file
    is a value of `MetaFile`; writing a document and reading it back gives
    the same document.  The clock is a parameter (`now` in seconds since the
    epoch, `nowIso` its ISO text), and so are `datetime.fromisoformat`
    (`fromIso`) and `int()` on a JSON value (`toInt`, `None` when it raises). */
module CacheMetadata {
  import opened Wrappers
  import opened Records
  import Calendar

  /** `str(n)` for a Python `int`. */
  function IntText(n: int): string {
    if n < 0 then "-" + Calendar.DecimalString(-n) else Calendar.DecimalString(n)
  }

  /** A Python `int` as a value of the document. */
  function IntCell(n: int): Cell {
    Num(n as real, IntText(n))
  }

  /** `d.get(k)` */
  function JGet(d: Json, k: string): Cell {
    if k in d then d[k] else Null
  }

  // ---- parse_iso ----

  /** A time stamp `datetime.fromisoformat` accepted: its wall-clock reading
      in seconds since the epoch and its UTC offset in seconds, `None` for a
      naive stamp. */
  datatype Stamp = Stamp(wall: int, offset: Option<int>)

  /** The instant a stamp denotes, a naive one read as UTC. */
  function UtcInstant(st: Stamp): int {
    st.wall - (if st.offset.Some? then st.offset.value else 0)
  }

  /** `parse_iso` applied to a value of the document: `None` for a falsy
      value, for a non-string (`fromisoformat` raises `TypeError`) and for
      text `fromisoformat` rejects; otherwise the instant, in seconds since
      the epoch. */
  function ParseIso(v: Cell, fromIso: string -> Option<Stamp>): (r: Option<int>)
    ensures !Truthy(v) || !v.Str? ==> r.None?
    ensures v.Str? && fromIso(v.s).None? ==> r.None?
    ensures v.Str? && |v.s| > 0 && fromIso(v.s).Some? ==> r == Some(UtcInstant(fromIso(v.s).value))
  {
    if !Truthy(v) || !v.Str? then None
    else match fromIso(v.s)
      case None => None
      case Some(st) => Some(UtcInstant(st))
  }

  /** A naive stamp means the same instant as the same reading marked UTC,
      and an offset moves the instant back by that much. */
  lemma NaiveIsUtc(wall: int, offset: int)
    ensures UtcInstant(Stamp(wall, None)) == UtcInstant(Stamp(wall, Some(0)))
    ensures UtcInstant(Stamp(wall, Some(offset))) == UtcInstant(Stamp(wall - offset, Some(0)))
  {
  }

  // ---- the document ----

  /** What `update_store` records about a store. */
  datatype StoreMetadata = StoreMetadata(updatedAt: string, recordCount: int, dbFile: string, pklFile: string)

  /** An entry of `stores`: one `update_store` wrote, or any JSON value found in the file. */
  datatype StoreValue = Written(entry: StoreMetadata) | Read(value: Cell)

  /** The `stores` member of the file's object. */
  datatype StoresField = NoStores | NonObjectStores(value: Cell) | Stores(entries: map<string, StoreValue>)

  /** The metadata file: absent, unreadable (`open` or `json.load` raises),
      holding a JSON value that is not an object, or holding an object (its
      `stores` member apart from the others). */
  datatype MetaFile =
    | Missing
    | Unreadable
    | NonObject(value: Cell)
    | Object(top: Json, stores: StoresField)

  /** A loaded document: its members other than `stores`, and `stores`. */
  datatype Metadata = Metadata(top: Json, stores: map<string, StoreValue>)

  /** The manager's settings. */
  datatype Config = Config(defaultVersion: string, ttlSeconds: int)

  /** `save`: the file written. */
  function Save(m: Metadata): MetaFile {
    Object(m.top, Stores(m.stores))
  }

  /** The document `ensure_exists` creates. */
  function Defaults(cfg: Config, nowIso: string): (m: Metadata)
    ensures m.stores == map[] && "stores" !in m.top
    ensures "cache_version" in m.top && m.top["cache_version"] == Str(cfg.defaultVersion)
    ensures "ttl_seconds" in m.top && m.top["ttl_seconds"] == IntCell(cfg.ttlSeconds)
  {
    Metadata(map["schema_version" := IntCell(1), "cache_version" := Str(cfg.defaultVersion),
                 "ttl_seconds" := IntCell(cfg.ttlSeconds), "created_at" := Str(nowIso), "updated_at" := Str(nowIso)],
             map[])
  }

  /** A file holding an object, with a missing or non-object `stores`
      member read as `{}`. */
  function Normalize(top: Json, stores: StoresField): (m: Metadata)
    ensures "stores" !in m.top && forall k :: k in top && k != "stores" ==> k in m.top && m.top[k] == top[k]
    ensures !stores.Stores? ==> m.stores == map[]
    ensures stores.Stores? ==> m.stores == stores.entries
  {
    Metadata(top - {"stores"}, if stores.Stores? then stores.entries else map[])
  }

  /** `load` as written.  An unreadable file and a file holding a non-object
      make `load` call `ensure_exists`, which finds the file and calls `load`
      again; `fuel` bounds the depth of that recursion, and `None` means no
      document came back within it. */
  function LoadAsWritten(file: MetaFile, cfg: Config, nowIso: string, fuel: nat): (r: Option<Metadata>)
    decreases fuel
  {
    if fuel == 0 then None
    else match file
      case Missing => Some(Defaults(cfg, nowIso))
      case Object(top, stores) => Some(Normalize(top, stores))
      case _ => LoadAsWritten(file, cfg, nowIso, fuel - 1)
  }

  /** However deep the stack, `load` as written never returns a document for
      an unreadable or non-object file. */
  lemma {:induction false} LoadAsWrittenNeverReturns(file: MetaFile, cfg: Config, nowIso: string, fuel: nat)
    requires file.Unreadable? || file.NonObject?
    ensures LoadAsWritten(file, cfg, nowIso, fuel) == None
    decreases fuel
  {
    if fuel > 0 {
      LoadAsWrittenNeverReturns(file, cfg, nowIso, fuel - 1);
    }
  }

  /** `load` as evidently intended: the defaults for an absent, unreadable or
      non-object file, the normalised object otherwise. */
  function Load(file: MetaFile, cfg: Config, nowIso: string): (m: Metadata)
    ensures "stores" !in m.top
    ensures !file.Object? ==> m == Defaults(cfg, nowIso)
    ensures file.Object? ==> m == Normalize(file.top, file.stores)
  {
    if file.Object? then Normalize(file.top, file.stores) else Defaults(cfg, nowIso)
  }

  /** Where `load` as written returns at all, it agrees with `Load`. */
  lemma LoadAsWrittenAgrees(file: MetaFile, cfg: Config, nowIso: string, fuel: nat)
    requires fuel > 0 && (file.Missing? || file.Object?)
    ensures LoadAsWritten(file, cfg, nowIso, fuel) == Some(Load(file, cfg, nowIso))
  {
  }

  /** What `load` as written hands back: nothing for an unreadable or
      non-object file, whose recursion never returns a document, and
      `Load`'s document otherwise.  `update_store` and `is_store_fresh`
      start from this. */
  function LoadResult(file: MetaFile, cfg: Config, nowIso: string): (r: Option<Metadata>)
    ensures r.None? <==> file.Unreadable? || file.NonObject?
    ensures r.Some? ==> r.value == Load(file, cfg, nowIso)
  {
    if file.Unreadable? || file.NonObject? then None else Some(Load(file, cfg, nowIso))
  }

  /** `LoadResult` is `load` as written, at every depth of the recursion. */
  lemma LoadResultAsWritten(file: MetaFile, cfg: Config, nowIso: string, fuel: nat)
    requires fuel > 0
    ensures LoadAsWritten(file, cfg, nowIso, fuel) == LoadResult(file, cfg, nowIso)
  {
    if file.Unreadable? || file.NonObject? {
      LoadAsWrittenNeverReturns(file, cfg, nowIso, fuel);
    }
  }

  /** Saving a loaded document and loading it again gives it back. */
  lemma {:induction false} LoadSaved(m: Metadata, cfg: Config, nowIso: string)
    requires "stores" !in m.top
    ensures Load(Save(m), cfg, nowIso) == m
  {
    assert m.top - {"stores"} == m.top;
  }

  // ---- update_store ----

  /** A truthy `version` argument. */
  predicate Given(version: Option<string>) {
    version.Some? && |version.value| > 0
  }

  /** `int(data.get("ttl_seconds") or self.ttl_seconds)` */
  function TtlSetting(top: Json, cfg: Config, toInt: Cell -> Option<int>): Option<int> {
    toInt(if Truthy(JGet(top, "ttl_seconds")) then top["ttl_seconds"] else IntCell(cfg.ttlSeconds))
  }

  /** `version or data.get("cache_version") or self.default_version`: the
      given version, else the stored one when truthy, else the default. */
  function NewVersion(d: Metadata, cfg: Config, version: Option<string>): (v: Cell)
    ensures Given(version) ==> v == Str(version.value)
    ensures !Given(version) && Truthy(JGet(d.top, "cache_version")) ==> v == d.top["cache_version"]
    ensures !Given(version) && !Truthy(JGet(d.top, "cache_version")) ==> v == Str(cfg.defaultVersion)
  {
    if Given(version) then Str(version.value)
    else if Truthy(JGet(d.top, "cache_version")) then d.top["cache_version"]
    else Str(cfg.defaultVersion)
  }

  /** `update_store`: the document written, or `None` when nothing is
      written -- `load` never returns (an unreadable or non-object file), or
      `int()` raises on the stored `ttl_seconds`.  It sets the store's entry
      and three members and leaves everything else as loaded. */
  function UpdateStore(file: MetaFile, cfg: Config, key: string, entry: StoreMetadata, version: Option<string>,
                       nowIso: string, toInt: Cell -> Option<int>): (r: Option<Metadata>)
    ensures (file.Unreadable? || file.NonObject?) ==> r.None?
    ensures var d := Load(file, cfg, nowIso);
            && (r.None? <==> LoadResult(file, cfg, nowIso).None? || TtlSetting(d.top, cfg, toInt).None?)
            && (r.Some? ==> r.value.stores.Keys == d.stores.Keys + {key} && r.value.stores[key] == Written(entry))
            && (r.Some? ==> forall k :: k in d.stores && k != key ==> r.value.stores[k] == d.stores[k])
            && (r.Some? ==> "stores" !in r.value.top
                            && r.value.top.Keys == d.top.Keys + {"cache_version", "ttl_seconds", "updated_at"}
                            && r.value.top["updated_at"] == Str(nowIso)
                            && r.value.top["ttl_seconds"] == IntCell(TtlSetting(d.top, cfg, toInt).value))
            && (r.Some? ==> forall k :: k in d.top && k !in {"cache_version", "ttl_seconds", "updated_at"} ==> r.value.top[k] == d.top[k])
            && (r.Some? ==> r.value.top["cache_version"] == NewVersion(d, cfg, version))
  {
    match LoadResult(file, cfg, nowIso)
    case None => None
    case Some(d) =>
      var cv := NewVersion(d, cfg, version);
      match TtlSetting(d.top, cfg, toInt)
      case None => None
      case Some(ttl) =>
        Some(Metadata(d.top["cache_version" := cv]["ttl_seconds" := IntCell(ttl)]["updated_at" := Str(nowIso)],
                      d.stores[key := Written(entry)]))
  }

  // ---- is_store_fresh ----

  /** `str(data.get("cache_version") or "")` */
  function CurrentVersion(d: Metadata): string {
    var c := JGet(d.top, "cache_version");
    if Truthy(c) then Show(c) else ""
  }

  /** `expected_version or self.default_version` */
  function ExpectedVersion(cfg: Config, expected: Option<string>): string {
    if Given(expected) then expected.value else cfg.defaultVersion
  }

  /** `(stores.get(key) or {}).get("updated_at", "")`, or `None` when the
      entry is truthy but not an object and `.get` raises. */
  function StampValue(d: Metadata, key: string): (r: Option<Cell>)
    ensures key in d.stores && d.stores[key].Written? ==> r == Some(Str(d.stores[key].entry.updatedAt))
    ensures key !in d.stores ==> r == Some(Str(""))
  {
    if key !in d.stores then Some(Str(""))
    else match d.stores[key]
      case Written(e) => Some(Str(e.updatedAt))
      case Read(v) =>
        if !Truthy(v) then Some(Str(""))
        else if v.Dict? then Some(if "updated_at" in v.fields then v.fields["updated_at"] else Str(""))
        else None
  }

  /** `is_store_fresh`, or `None` when it never answers (`load` does not
      return, for an unreadable or non-object file) or raises (`int()` on
      the stored `ttl_seconds`, or `.get` on a non-object entry).  Fresh
      means: the document's version is the expected one, the store's
      `updated_at` parses, and no more than `ttl` seconds have passed since. */
  function IsStoreFresh(file: MetaFile, cfg: Config, key: string, ttlArg: Option<int>, expected: Option<string>,
                        now: int, nowIso: string, fromIso: string -> Option<Stamp>, toInt: Cell -> Option<int>): (r: Option<bool>)
    ensures (file.Unreadable? || file.NonObject?) ==> r.None?
    ensures var d := Load(file, cfg, nowIso);
            var ttl := if ttlArg.Some? then ttlArg else TtlSetting(d.top, cfg, toInt);
            && (ttl.None? ==> r.None?)
            && (LoadResult(file, cfg, nowIso).Some? && ttl.Some? && CurrentVersion(d) != ExpectedVersion(cfg, expected) ==> r == Some(false))
            && (r == Some(true) <==>
                  LoadResult(file, cfg, nowIso).Some? && ttl.Some? && CurrentVersion(d) == ExpectedVersion(cfg, expected)
                  && StampValue(d, key).Some? && ParseIso(StampValue(d, key).value, fromIso).Some?
                  && now - ParseIso(StampValue(d, key).value, fromIso).value <= ttl.value)
            && (r == Some(false) ==> ttl.Some?)
  {
    var d := Load(file, cfg, nowIso);
    var ttl := if ttlArg.Some? then ttlArg else TtlSetting(d.top, cfg, toInt);
    if LoadResult(file, cfg, nowIso).None? then None
    else if ttl.None? then None
    else if CurrentVersion(d) != ExpectedVersion(cfg, expected) then Some(false)
    else match StampValue(d, key)
      case None => None
      case Some(v) =>
        match ParseIso(v, fromIso)
        case None => Some(false)
        case Some(t) => Some(now - t <= ttl.value)
  }

  /** A store whose entry was just written with the current UTC time, under
      the expected version, is fresh exactly while no more than `ttl`
      seconds have passed since. */
  lemma UpdateThenFresh(file: MetaFile, cfg: Config, key: string, entry: StoreMetadata, version: string,
                        nowIso: string, laterIso: string, t0: int, now: int, ttl: int,
                        fromIso: string -> Option<Stamp>, toInt: Cell -> Option<int>)
    requires |version| > 0 && |entry.updatedAt| > 0
    requires fromIso(entry.updatedAt) == Some(Stamp(t0, Some(0)))
    requires UpdateStore(file, cfg, key, entry, Some(version), nowIso, toInt).Some?
    ensures var written := Save(UpdateStore(file, cfg, key, entry, Some(version), nowIso, toInt).value);
            IsStoreFresh(written, cfg, key, Some(ttl), Some(version), now, laterIso, fromIso, toInt) == Some(now - t0 <= ttl)
  {
    var m := UpdateStore(file, cfg, key, entry, Some(version), nowIso, toInt).value;
    LoadSaved(m, cfg, laterIso);
    assert CurrentVersion(m) == version;
  }

  /** A store stays stale under another version, whatever its entry says. */
  lemma OtherVersionStale(file: MetaFile, cfg: Config, key: string, entry: StoreMetadata, version: string, other: string,
                          nowIso: string, laterIso: string, now: int, ttl: int,
                          fromIso: string -> Option<Stamp>, toInt: Cell -> Option<int>)
    requires |version| > 0 && |other| > 0 && other != version
    requires UpdateStore(file, cfg, key, entry, Some(version), nowIso, toInt).Some?
    ensures var written := Save(UpdateStore(file, cfg, key, entry, Some(version), nowIso, toInt).value);
            IsStoreFresh(written, cfg, key, Some(ttl), Some(other), now, laterIso, fromIso, toInt) == Some(false)
  {
    var m := UpdateStore(file, cfg, key, entry, Some(version), nowIso, toInt).value;
    LoadSaved(m, cfg, laterIso);
    assert CurrentVersion(m) == version;
  }
}
