/** `checkpoint_manager.py`: the file-name rules of `CheckpointManager`
    (which checkpoint is the latest, what resuming returns, what clearing
    leaves), the change analysis of `IncrementalUpdate` between two
    collection runs, and the append-only log of `VersionManager`.  The
    checkpoint directory is its list of file names plus a function reading
    a file's JSON object (`None` when reading or decoding fails); the clock
    is a parameter. */
module Checkpoints {
  import opened Wrappers
  import opened Text
  import opened Seqs
  import opened Records
  import opened Ordering

  // ---- CheckpointManager ----

  /** `checkpoint_{stage}_`: the start of the names of a stage's checkpoints. */
  function CheckpointPrefix(stage: string): string {
    "checkpoint_" + stage + "_"
  }

  /** The file `save_checkpoint` writes, given the `%Y%m%d_%H%M%S` stamp of
      the moment of saving. */
  function CheckpointFile(stage: string, stamp: string): (name: string)
    ensures StartsWith(name, CheckpointPrefix(stage))
  {
    var name := CheckpointPrefix(stage) + stamp + ".json";
    assert name[..|CheckpointPrefix(stage)|] == CheckpointPrefix(stage);
    name
  }

  /** What `save_checkpoint` writes: the stage, the ISO time of saving and
      the progress. */
  function CheckpointContent(stage: string, isoTime: string, progress: Cell): (j: Json)
    ensures j.Keys == {"stage", "timestamp", "progress"}
  {
    map["stage" := Str(stage), "timestamp" := Str(isoTime), "progress" := progress]
  }

  /** The file `save_partial_results` writes into the same directory. */
  function PartialResultFile(stage: string, count: string): string {
    "partial_result_" + stage + "_" + count + ".json"
  }

  /** Partial results never pass for checkpoints: their names start
      differently. */
  lemma PartialNotCheckpoint(stage: string, count: string, other: string)
    ensures !StartsWith(PartialResultFile(stage, count), CheckpointPrefix(other))
  {
    var f := PartialResultFile(stage, count);
    var p := CheckpointPrefix(other);
    assert f[0] == 'p' && p[0] == 'c';
  }

  function HasPrefix(prefix: string): string -> bool {
    f => StartsWith(f, prefix)
  }

  /** `sorted(files)[-1]` over the files of the stage: the greatest name, or
      `None` when the stage has no checkpoint. */
  function LatestFile(stage: string, files: seq<string>): (r: Option<string>)
    ensures r.None? <==> forall f :: f in files ==> !StartsWith(f, CheckpointPrefix(stage))
    ensures r.Some? ==> r.value in files && StartsWith(r.value, CheckpointPrefix(stage))
    ensures r.Some? ==> forall f :: f in files && StartsWith(f, CheckpointPrefix(stage)) ==> StrLe(f, r.value)
  {
    var matching := Filter(files, HasPrefix(CheckpointPrefix(stage)));
    if |matching| == 0 then None
    else
      Some(MaxString(matching))
  }

  /** `f` is a checkpoint of the stage and sorts last among them. */
  predicate IsLatest(f: string, stage: string, files: seq<string>) {
    && f in files && StartsWith(f, CheckpointPrefix(stage))
    && forall g :: g in files && StartsWith(g, CheckpointPrefix(stage)) ==> StrLe(g, f)
  }

  /** `get_latest_checkpoint`: the contents of the stage's latest file, or
      `None` when there is none or it cannot be read. */
  function GetLatestCheckpoint(stage: string, files: seq<string>, read: string -> Option<Json>): (r: Option<Json>)
    ensures r.Some? ==> exists f :: f in files && StartsWith(f, CheckpointPrefix(stage)) && read(f) == r
    ensures (forall f :: f in files ==> !StartsWith(f, CheckpointPrefix(stage))) ==> r.None?
    ensures forall f :: IsLatest(f, stage, files) ==> r == read(f)
  {
    StrLeTotalOrder();
    match LatestFile(stage, files)
    case None => None
    case Some(f) => read(f)
  }

  /** `resume_from_checkpoint` raises `KeyError` on a checkpoint without a time stamp. */
  datatype ResumeError = MissingTimestamp

  /** `resume_from_checkpoint`: the latest checkpoint's `progress` (`None`,
      here `Null`, when it has none), or `None` when there is no checkpoint
      or it is an empty object. */
  function ResumeFromCheckpoint(stage: string, files: seq<string>, read: string -> Option<Json>): (r: Result<Cell, ResumeError>)
    ensures GetLatestCheckpoint(stage, files, read).None? ==> r == Success(Null)
    ensures r.Failure? ==> GetLatestCheckpoint(stage, files, read).Some? && "timestamp" !in GetLatestCheckpoint(stage, files, read).value
    ensures r.Success? && r.value != Null ==>
              var cp := GetLatestCheckpoint(stage, files, read);
              cp.Some? && "progress" in cp.value && cp.value["progress"] == r.value
    ensures r.Failure? <==>
              var cp := GetLatestCheckpoint(stage, files, read);
              cp.Some? && |cp.value| > 0 && "timestamp" !in cp.value
    ensures forall f :: IsLatest(f, stage, files) && read(f).Some? && "timestamp" in read(f).value ==>
              r == Success(if "progress" in read(f).value then read(f).value["progress"] else Null)
    ensures forall f :: IsLatest(f, stage, files) && (read(f).None? || |read(f).value| == 0) ==> r == Success(Null)
  {
    match GetLatestCheckpoint(stage, files, read)
    case None => Success(Null)
    case Some(cp) =>
      if |cp| == 0 then Success(Null)
      else if "timestamp" !in cp then Failure(MissingTimestamp)
      else Success(if "progress" in cp then cp["progress"] else Null)
  }

  /** A later time stamp of the same width names a later file. */
  lemma LaterStampLaterFile(stage: string, earlier: string, later: string)
    requires |earlier| == |later| && StrLess(earlier, later)
    ensures StrLess(CheckpointFile(stage, earlier), CheckpointFile(stage, later))
  {
    StrLessCommonSuffix(earlier, later, ".json");
    StrLessCommonPrefix(CheckpointPrefix(stage), earlier + ".json", later + ".json");
    assert CheckpointFile(stage, earlier) == CheckpointPrefix(stage) + (earlier + ".json");
    assert CheckpointFile(stage, later) == CheckpointPrefix(stage) + (later + ".json");
  }

  /** Saving a checkpoint whose name sorts after every earlier checkpoint of
      the stage (a later stamp, `LaterStampLaterFile`) and resuming gives
      back the progress saved. */
  lemma SaveThenResume(stage: string, stamp: string, isoTime: string, progress: Cell,
                       files: seq<string>, read: string -> Option<Json>)
    requires forall f :: f in files && StartsWith(f, CheckpointPrefix(stage)) ==> StrLess(f, CheckpointFile(stage, stamp))
    requires read(CheckpointFile(stage, stamp)) == Some(CheckpointContent(stage, isoTime, progress))
    ensures ResumeFromCheckpoint(stage, files + [CheckpointFile(stage, stamp)], read) == Success(progress)
  {
    var name := CheckpointFile(stage, stamp);
    var all := files + [name];
    var latest := LatestFile(stage, all);
    assert name in all;
    if latest.value != name {
      assert latest.value in files;
      assert StrLess(latest.value, name);
      assert StrLe(name, latest.value);
      StrLeTotalOrder();
      StrLessIrreflexive(name);
    }
  }

  /** `clear_checkpoints`: the files left after removing the stage's
      checkpoints, or every file when no stage (or an empty one) is given. */
  function ClearCheckpoints(stage: Option<string>, files: seq<string>): (r: seq<string>)
    ensures stage.Some? && |stage.value| > 0 ==>
              forall f :: f in r <==> f in files && !StartsWith(f, CheckpointPrefix(stage.value))
    ensures !(stage.Some? && |stage.value| > 0) ==> r == []
  {
    if stage.Some? && |stage.value| > 0 then Filter(files, (f: string) => !StartsWith(f, CheckpointPrefix(stage.value)))
    else []
  }

  /** After clearing a stage nothing is left to resume from. */
  lemma ClearThenResume(stage: string, files: seq<string>, read: string -> Option<Json>)
    requires |stage| > 0
    ensures ResumeFromCheckpoint(stage, ClearCheckpoints(Some(stage), files), read) == Success(Null)
  {
  }

  /** `get_latest_checkpoint` selects by name prefix only: a checkpoint of
      stage `stock_list` is also one of stage `stock`. */
  lemma StagePrefixOverlap(stamp: string)
    ensures StartsWith(CheckpointFile("stock_list", stamp), CheckpointPrefix("stock"))
  {
    var f := CheckpointFile("stock_list", stamp);
    assert f == "checkpoint_stock_" + ("list_" + stamp + ".json");
  }

  // ---- IncrementalUpdate.compare_stocks ----

  /** `set(stock.get('code') for stock in stocks)` */
  function CodesOf(stocks: seq<Record>): (cs: set<Cell>)
    ensures forall c :: c in cs <==> exists s :: s in stocks && Get(s, Code) == c
  {
    set s | s in stocks :: Get(s, Code)
  }

  /** The result of `compare_stocks`. */
  datatype StockChanges = StockChanges(
    newCodes: set<Cell>, newCount: nat, newDetails: seq<Record>,
    delisted: set<Cell>, delistedCount: nat,
    kept: set<Cell>, keptCount: nat,
    totalCurrent: nat, totalPrevious: nat)

  function CodeIn(codes: set<Cell>): Record -> bool {
    s => Get(s, Code) in codes
  }

  /** `compare_stocks`: the current codes split into new and unchanged ones,
      the previous codes into delisted and unchanged ones; each count is the
      size of its set; the details are the current records with a new code,
      in their order. */
  function CompareStocks(previous: seq<Record>, current: seq<Record>): (r: StockChanges)
    ensures r.newCodes + r.kept == CodesOf(current) && r.newCodes !! r.kept
    ensures r.delisted + r.kept == CodesOf(previous) && r.delisted !! r.kept
    ensures r.newCodes !! CodesOf(previous) && r.delisted !! CodesOf(current)
    ensures r.newCount == |r.newCodes| && r.delistedCount == |r.delisted| && r.keptCount == |r.kept|
    ensures forall s :: s in r.newDetails <==> s in current && Get(s, Code) !in CodesOf(previous)
    ensures Subseq(r.newDetails, current)
    ensures r.totalCurrent == |current| && r.totalPrevious == |previous|
  {
    var before, now := CodesOf(previous), CodesOf(current);
    var added, gone, kept := now - before, before - now, before * now;
    SetSplit(now, before);
    SetSplit(before, now);
    StockChanges(added, |added|, Filter(current, CodeIn(added)), gone, |gone|, kept, |kept|, |current|, |previous|)
  }

  /** A set is split by another into its difference and its intersection. */
  lemma SetSplit<T>(a: set<T>, b: set<T>)
    ensures (a - b) + (a * b) == a && (a - b) !! (a * b) && a * b == b * a
  {
  }

  /** `|A - B| + |A & B| == |A|` */
  lemma SplitCount<T>(a: set<T>, b: set<T>)
    ensures |a - b| + |a * b| == |a|
  {
    SetSplit(a, b);
    assert (a - b) * (a * b) == {};
  }

  /** The counts add up: new and unchanged make up the distinct current
      codes, delisted and unchanged the distinct previous ones. */
  lemma CompareStocksCounts(previous: seq<Record>, current: seq<Record>)
    ensures var r := CompareStocks(previous, current);
            && r.newCount + r.keptCount == |CodesOf(current)|
            && r.delistedCount + r.keptCount == |CodesOf(previous)|
  {
    var before, now := CodesOf(previous), CodesOf(current);
    SplitCount(now, before);
    SplitCount(before, now);
    assert now * before == before * now;
  }

  // ---- IncrementalUpdate.compare_financial_data ----

  /** `{item['code']: item for item in previous}` raises `KeyError` on an item without a code. */
  datatype CompareError = PreviousWithoutCode

  /** An item whose code is `c`. */
  function CodeIs(c: Cell): Record -> bool {
    s => Code in s && s[Code] == c
  }

  /** The dictionary of the previous run's financial items by code; a later
      item replaces an earlier one with the same code. */
  function PreviousMap(previous: seq<Record>): (r: Result<map<Cell, Record>, CompareError>)
    ensures r.Failure? <==> exists s :: s in previous && Code !in s
    ensures r.Success? ==> forall c :: c in r.value ==> Code in r.value[c] && r.value[c][Code] == c
  {
    if |previous| == 0 then Success(map[])
    else
      var init := previous[..|previous| - 1];
      var last := previous[|previous| - 1];
      assert previous == init + [last];
      match PreviousMap(init)
      case Failure(e) => Failure(e)
      case Success(m) =>
        if Code !in last then Failure(PreviousWithoutCode)
        else Success(m[last[Code] := last])
  }

  /** The dictionary holds a code exactly when some previous item has it,
      with the last such item. */
  lemma {:induction false} PreviousMapLastWins(previous: seq<Record>, c: Cell)
    requires PreviousMap(previous).Success?
    ensures c in PreviousMap(previous).value <==> LastIndex(previous, CodeIs(c)) >= 0
    ensures c in PreviousMap(previous).value ==> PreviousMap(previous).value[c] == previous[LastIndex(previous, CodeIs(c))]
  {
    if |previous| > 0 {
      var init := previous[..|previous| - 1];
      assert previous == init + [previous[|previous| - 1]];
      PreviousMapLastWins(init, c);
    }
  }

  /** Its keys are the previous codes. */
  lemma PreviousMapKeys(previous: seq<Record>)
    requires PreviousMap(previous).Success?
    ensures PreviousMap(previous).value.Keys == CodesOf(previous)
  {
    var m := PreviousMap(previous).value;
    forall c | c in CodesOf(previous) ensures c in m {
      var t :| t in previous && Get(t, Code) == c;
      PreviousMapLastWins(previous, c);
      assert CodeIs(c)(t);
    }
    forall c | c in m ensures c in CodesOf(previous) {
      PreviousMapLastWins(previous, c);
      assert previous[LastIndex(previous, CodeIs(c))] in previous;
    }
  }

  /** How a current item compares with the previous run. */
  datatype Change =
    | New(code: Cell, details: Record)
    | Updated(code: Cell, before: Record, after: Record)

  /** The 2023 or the 2024 value differs. */
  predicate ValuesDiffer(before: Record, after: Record) {
    Get(after, Financial(Y2023)) != Get(before, Financial(Y2023)) || Get(after, Financial(Y2024)) != Get(before, Financial(Y2024))
  }

  /** One current item: a change, or `None` when it is unchanged. */
  function Classify(prev: map<Cell, Record>, item: Record): (r: Option<Change>)
    ensures r.None? <==> Get(item, Code) in prev && !ValuesDiffer(prev[Get(item, Code)], item)
    ensures r.Some? && r.value.New? <==> Get(item, Code) !in prev
    ensures r.Some? ==> r.value.code == Get(item, Code)
  {
    var code := Get(item, Code);
    if code !in prev then Some(New(code, item))
    else if ValuesDiffer(prev[code], item) then Some(Updated(code, prev[code], item))
    else None
  }

  /** The result of `compare_financial_data`. */
  datatype FinancialChanges = FinancialChanges(
    updated: seq<Change>, same: seq<Cell>,
    updatedCount: nat, sameCount: nat, newCount: nat, modifiedCount: nat)

  /** The classification loop: the changes and the unchanged codes, each in
      input order. */
  function ClassifyAll(prev: map<Cell, Record>, items: seq<Record>): (r: (seq<Change>, seq<Cell>))
    ensures |r.0| + |r.1| == |items|
    ensures forall c :: c in r.0 <==> exists s :: s in items && Classify(prev, s) == Some(c)
  {
    if |items| == 0 then ([], [])
    else
      var init := items[..|items| - 1];
      var item := items[|items| - 1];
      assert items == init + [item];
      var (changes, same) := ClassifyAll(prev, init);
      match Classify(prev, item)
      case None => (changes, same + [Get(item, Code)])
      case Some(c) => (changes + [c], same)
  }

  /** The change `Classify` finds for an item, as a function of the item. */
  function ClassifyIn(prev: map<Cell, Record>): Record -> Option<Change> {
    s => Classify(prev, s)
  }

  /** The code of an unchanged item, `None` for a changed one. */
  function UnchangedCode(prev: map<Cell, Record>): Record -> Option<Cell> {
    s => if Classify(prev, s).None? then Some(Get(s, Code)) else None
  }

  /** The loop keeps, in input order, every change and every unchanged code. */
  lemma {:induction false} ClassifyAllInOrder(prev: map<Cell, Record>, items: seq<Record>)
    ensures ClassifyAll(prev, items).0 == FilterMap(items, ClassifyIn(prev))
    ensures ClassifyAll(prev, items).1 == FilterMap(items, UnchangedCode(prev))
    decreases |items|
  {
    if |items| > 0 {
      ClassifyAllInOrder(prev, items[..|items| - 1]);
    }
  }

  /** An unchanged item's code is among the unchanged codes. */
  lemma UnchangedListed(prev: map<Cell, Record>, items: seq<Record>, s: Record)
    requires s in items && Classify(prev, s).None?
    ensures Get(s, Code) in ClassifyAll(prev, items).1
  {
    ClassifyAllInOrder(prev, items);
    FilterMapContents(items, UnchangedCode(prev), Get(s, Code));
    assert UnchangedCode(prev)(s) == Some(Get(s, Code));
  }

  /** What the classification loop reports for each item: an unknown code
      as new; a known code against the previous item the dictionary holds
      for it (the last one, `PreviousMapLastWins`), updated when a compared
      year differs and listed unchanged otherwise. */
  lemma ClassifiedPerItem(prev: map<Cell, Record>, current: seq<Record>)
    ensures var (changes, same) := ClassifyAll(prev, current);
            && (forall c :: c in changes && c.New? ==> c.code !in prev)
            && (forall c :: c in changes && c.Updated? ==> ValuesDiffer(c.before, c.after))
            && (forall s :: s in current && Get(s, Code) !in prev ==> New(Get(s, Code), s) in changes)
            && (forall s :: s in current && Get(s, Code) in prev ==>
                 && (ValuesDiffer(prev[Get(s, Code)], s) ==> Updated(Get(s, Code), prev[Get(s, Code)], s) in changes)
                 && (!ValuesDiffer(prev[Get(s, Code)], s) ==> Get(s, Code) in same))
            && changes == FilterMap(current, ClassifyIn(prev))
            && same == FilterMap(current, UnchangedCode(prev))
            && |Filter(changes, IsNew)| + |Filter(changes, IsUpdated)| == |changes|
  {
    var (changes, same) := ClassifyAll(prev, current);
    ClassifyAllInOrder(prev, current);
    FilterSplit(changes, IsNew, IsUpdated);
    forall c | c in changes && c.New? ensures c.code !in prev {
      var s :| s in current && Classify(prev, s) == Some(c);
    }
    forall c | c in changes && c.Updated? ensures ValuesDiffer(c.before, c.after) {
      var s :| s in current && Classify(prev, s) == Some(c);
    }
    forall s | s in current && Get(s, Code) in prev && !ValuesDiffer(prev[Get(s, Code)], s)
      ensures Get(s, Code) in same
    {
      UnchangedListed(prev, current, s);
    }
  }

  function IsNew(c: Change): bool {
    c.New?
  }

  function IsUpdated(c: Change): bool {
    c.Updated?
  }

  /** `compare_financial_data`: every current item is counted once, as new,
      as updated or as unchanged. */
  function CompareFinancialData(previous: seq<Record>, current: seq<Record>): (r: Result<FinancialChanges, CompareError>)
    ensures r.Failure? <==> exists s :: s in previous && Code !in s
    ensures r.Success? ==> r.value.updatedCount + r.value.sameCount == |current|
    ensures r.Success? ==> r.value.newCount + r.value.modifiedCount == r.value.updatedCount
    ensures r.Success? ==> forall c :: c in r.value.updated && c.New? ==> c.code !in CodesOf(previous)
    ensures r.Success? ==> forall c :: c in r.value.updated && c.Updated? ==> ValuesDiffer(c.before, c.after)
    ensures r.Success? ==> forall s :: s in current && Get(s, Code) !in CodesOf(previous) ==>
              New(Get(s, Code), s) in r.value.updated
    ensures r.Success? ==> forall s :: s in current && Get(s, Code) in PreviousMap(previous).value ==>
              var before := PreviousMap(previous).value[Get(s, Code)];
              && (ValuesDiffer(before, s) ==> Updated(Get(s, Code), before, s) in r.value.updated)
              && (!ValuesDiffer(before, s) ==> Get(s, Code) in r.value.same)
    ensures r.Success? ==> r.value.updated == FilterMap(current, ClassifyIn(PreviousMap(previous).value))
    ensures r.Success? ==> r.value.same == FilterMap(current, UnchangedCode(PreviousMap(previous).value))
  {
    match PreviousMap(previous)
    case Failure(e) => Failure(e)
    case Success(prev) =>
      var (changes, same) := ClassifyAll(prev, current);
      ClassifiedPerItem(prev, current);
      PreviousMapKeys(previous);
      Success(FinancialChanges(changes, same, |changes|, |same|, |Filter(changes, IsNew)|, |Filter(changes, IsUpdated)|))
  }

  // ---- VersionManager ----

  /** One entry of the version history. */
  datatype VersionEntry = VersionEntry(version: string, timestamp: string, totalStocks: Cell,
                                       totalRecords: Cell, completeness: Cell, notes: Cell)

  /** `metadata.get(key)` */
  function Lookup(metadata: Json, key: string, default: Cell): Cell {
    if key in metadata then metadata[key] else default
  }

  /** `record_version`: one entry appended, the history before it untouched. */
  function RecordVersion(history: seq<VersionEntry>, version: string, now: string, metadata: Json): (r: seq<VersionEntry>)
    ensures |r| == |history| + 1 && r[..|history|] == history
    ensures r[|history|].version == version && r[|history|].timestamp == now
    ensures r[|history|].totalStocks == Lookup(metadata, "total_stocks", Null)
    ensures r[|history|].notes == Lookup(metadata, "notes", Str(""))
  {
    history + [VersionEntry(version, now, Lookup(metadata, "total_stocks", Null), Lookup(metadata, "total_records", Null),
                            Lookup(metadata, "data_completeness", Null), Lookup(metadata, "notes", Str("")))]
  }

  /** `get_latest_version`: the last entry, `None` for an empty history. */
  function GetLatestVersion(history: seq<VersionEntry>): (r: Option<VersionEntry>)
    ensures r.None? <==> |history| == 0
    ensures r.Some? ==> r.value in history
  {
    if |history| > 0 then Some(history[|history| - 1]) else None
  }

  /** The version just recorded is the latest one. */
  lemma RecordedIsLatest(history: seq<VersionEntry>, version: string, now: string, metadata: Json)
    ensures var h := RecordVersion(history, version, now, metadata);
            GetLatestVersion(h).Some? && GetLatestVersion(h).value.version == version
            && GetLatestVersion(h).value.timestamp == now
  {
  }
}
