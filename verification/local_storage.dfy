/** `local_storage.py`: the rows `LocalDatabase` writes into its SQLite
    tables, the dictionaries it reads back from them, and the header rule of
    `CSVBackupManager.backup_to_csv`.  A table is the sequence of its rows in
    insertion order.  Each backup empties its table and inserts inside one
    transaction; when a statement raises, the handler rolls back and the
    table keeps its old rows. */
module LocalStorage {
  import opened Wrappers
  import opened Seqs
  import opened Records
  import opened Ordering

  // ---- stocks ----

  /** A row of `stocks`, without its time stamps. */
  datatype StockRow = StockRow(code: Cell, name: Cell, market: Cell, listDate: Cell, source: Cell)

  function StockRowOf(s: Record): StockRow {
    StockRow(Get(s, Code), Get(s, Name), Get(s, Market), Get(s, ListDate), Get(s, DataSource))
  }

  /** The insert raises: `name` is `NOT NULL`, or a value cannot be bound. */
  predicate StockRowFails(row: StockRow) {
    row.name == Null || !Bindable(row.code) || !Bindable(row.name) || !Bindable(row.market)
    || !Bindable(row.listDate) || !Bindable(row.source)
  }

  /** No two rows share a code other than `NULL`. */
  predicate UniqueCodes(table: seq<StockRow>) {
    forall i, j :: 0 <= i < j < |table| && table[i].code != Null ==> table[i].code != table[j].code
  }

  /** The table without its rows with code `c`, the others in order. */
  function Without(table: seq<StockRow>, c: Cell): (r: seq<StockRow>)
    ensures forall x :: x in r <==> x in table && x.code != c
    ensures UniqueCodes(table) ==> UniqueCodes(r)
  {
    if |table| == 0 then []
    else
      var init := table[..|table| - 1];
      var last := table[|table| - 1];
      assert table == init + [last];
      var rest := Without(init, c);
      if last.code == c then rest
      else
        assert UniqueCodes(table) ==> forall i :: 0 <= i < |rest| && rest[i].code != Null ==> rest[i].code != last.code by {
          if UniqueCodes(table) {
            forall i | 0 <= i < |rest| && rest[i].code != Null ensures rest[i].code != last.code {
              var k :| 0 <= k < |init| && init[k] == rest[i];
              assert table[k] == init[k];
            }
          }
        }
        rest + [last]
  }

  /** `INSERT OR REPLACE` keyed by the `code` primary key: the row goes last
      and replaces the row with its code.  SQLite lets a `TEXT PRIMARY KEY`
      hold several `NULL`s, so a row without a code replaces nothing. */
  function InsertOrReplace(table: seq<StockRow>, row: StockRow): (r: seq<StockRow>)
    ensures forall x :: x in r <==> x == row || (x in table && (row.code == Null || x.code != row.code))
    ensures UniqueCodes(table) ==> UniqueCodes(r)
  {
    var kept := if row.code == Null then table else Without(table, row.code);
    assert UniqueCodes(table) ==> UniqueCodes(kept + [row]) by {
      if UniqueCodes(table) && row.code != Null {
        assert forall i :: 0 <= i < |kept| ==> kept[i] in kept;
      }
    }
    kept + [row]
  }

  /** The insert loop of `backup_stocks` on the emptied table. */
  function StocksTable(stocks: seq<Record>): (r: seq<StockRow>)
    ensures UniqueCodes(r)
    ensures forall s :: s in stocks && Get(s, Code) == Null ==> StockRowOf(s) in r
  {
    if |stocks| == 0 then []
    else
      var init := stocks[..|stocks| - 1];
      assert stocks == init + [stocks[|stocks| - 1]];
      InsertOrReplace(StocksTable(init), StockRowOf(stocks[|stocks| - 1]))
  }

  function StockCodeIs(c: Cell): Record -> bool {
    (s: Record) => Get(s, Code) == c
  }

  /** Last write wins: the table has a row with a code exactly when some
      stock has it, and that row is the last such stock's. */
  lemma {:induction false} StocksLastWins(stocks: seq<Record>, c: Cell, x: StockRow)
    requires c != Null
    ensures (exists y :: y in StocksTable(stocks) && y.code == c) <==> LastIndex(stocks, StockCodeIs(c)) >= 0
    ensures x in StocksTable(stocks) && x.code == c ==> x == StockRowOf(stocks[LastIndex(stocks, StockCodeIs(c))])
  {
    if |stocks| > 0 {
      var init := stocks[..|stocks| - 1];
      var last := stocks[|stocks| - 1];
      assert stocks == init + [last];
      StocksLastWins(init, c, x);
      if Get(last, Code) != c && LastIndex(init, StockCodeIs(c)) >= 0 {
        var y :| y in StocksTable(init) && y.code == c;
        assert y in StocksTable(stocks);
      }
    }
  }

  /** `backup_stocks`: the table afterwards, or the old rows when an insert
      raises. */
  function BackupStocks(table: seq<StockRow>, stocks: seq<Record>): (r: seq<StockRow>)
    ensures (exists s :: s in stocks && StockRowFails(StockRowOf(s))) ==> r == table
    ensures (forall s :: s in stocks ==> !StockRowFails(StockRowOf(s))) ==> r == StocksTable(stocks) && UniqueCodes(r)
  {
    if exists s :: s in stocks && StockRowFails(StockRowOf(s)) then table else StocksTable(stocks)
  }

  // ---- industries ----

  /** A row of `industries`, without its id and time stamps. */
  datatype IndustryRow = IndustryRow(code: string, l1: Cell, l2: Cell, l3: Cell, source: Cell)

  /** `fields.get(k)` */
  function FieldOf(fields: Json, k: string): Cell {
    if k in fields then fields[k] else Null
  }

  function IndustryRowOf(code: string, fields: Json): IndustryRow {
    IndustryRow(code, FieldOf(fields, "l1"), FieldOf(fields, "l2"), FieldOf(fields, "l3"), FieldOf(fields, "source"))
  }

  /** An entry of the mapping handed to `backup_industries`. */
  type IndustryEntry = (string, Cell)

  /** The entry makes the loop raise: it is truthy but not a dictionary (it
      has no `.get`), or one of its values cannot be bound. */
  predicate IndustryFails(e: IndustryEntry) {
    Truthy(e.1) && (!e.1.Dict? || var row := IndustryRowOf(e.0, e.1.fields);
                                  !Bindable(row.l1) || !Bindable(row.l2) || !Bindable(row.l3) || !Bindable(row.source))
  }

  /** The row a truthy dictionary entry gives; a falsy entry gives none. */
  function IndustryRowFor(e: IndustryEntry): (r: Option<IndustryRow>)
    ensures r.Some? <==> Truthy(e.1) && e.1.Dict?
    ensures r.Some? ==> r.value.code == e.0
  {
    if Truthy(e.1) && e.1.Dict? then Some(IndustryRowOf(e.0, e.1.fields)) else None
  }

  /** `backup_industries`: the table afterwards, or the old rows when the
      loop raises. */
  function BackupIndustries(table: seq<IndustryRow>, entries: seq<IndustryEntry>): (r: seq<IndustryRow>)
    ensures (exists e :: e in entries && IndustryFails(e)) ==> r == table
    ensures (forall e :: e in entries ==> !IndustryFails(e)) ==> r == FilterMap(entries, IndustryRowFor)
  {
    if exists e :: e in entries && IndustryFails(e) then table else FilterMap(entries, IndustryRowFor)
  }

  /** The dictionary `restore_industries` builds from a row. */
  function IndustryDict(row: IndustryRow): (d: Json)
    ensures d.Keys == {"l1", "l2", "l3", "source"}
  {
    map["l1" := row.l1, "l2" := row.l2, "l3" := row.l3, "source" := row.source]
  }

  /** `restore_industries` over the rows in table order: each code maps to
      the dictionary of a row with it. */
  function RestoreIndustries(table: seq<IndustryRow>): (r: map<string, Json>)
    ensures forall c :: c in r <==> exists row :: row in table && row.code == c
  {
    if |table| == 0 then map[]
    else
      var init := table[..|table| - 1];
      var last := table[|table| - 1];
      assert table == init + [last];
      RestoreIndustries(init)[last.code := IndustryDict(last)]
  }

  function IndustryCodeIs(c: string): IndustryRow -> bool {
    (row: IndustryRow) => row.code == c
  }

  /** A later row for a code overwrites an earlier one. */
  lemma {:induction false} RestoreIndustriesLastWins(table: seq<IndustryRow>, c: string)
    requires c in RestoreIndustries(table)
    ensures LastIndex(table, IndustryCodeIs(c)) >= 0
    ensures RestoreIndustries(table)[c] == IndustryDict(table[LastIndex(table, IndustryCodeIs(c))])
  {
    var init := table[..|table| - 1];
    if table[|table| - 1].code != c {
      RestoreIndustriesLastWins(init, c);
    }
  }

  /** The keys of a Python dictionary are distinct. */
  predicate DistinctKeys(entries: seq<IndustryEntry>) {
    forall i, j :: 0 <= i < j < |entries| ==> entries[i].0 != entries[j].0
  }

  /** Backing up the industries and restoring gives back each truthy entry,
      as its `l1`, `l2`, `l3` and `source`, and nothing for the falsy ones. */
  lemma IndustriesRoundTrip(table: seq<IndustryRow>, entries: seq<IndustryEntry>, c: string)
    requires DistinctKeys(entries)
    requires forall e :: e in entries ==> !IndustryFails(e)
    ensures var r := RestoreIndustries(BackupIndustries(table, entries));
            && (c in r <==> exists i :: 0 <= i < |entries| && entries[i].0 == c && Truthy(entries[i].1))
            && forall i :: 0 <= i < |entries| && entries[i].0 == c && Truthy(entries[i].1) ==>
                 entries[i].1.Dict? && r[c] == IndustryDict(IndustryRowOf(c, entries[i].1.fields))
  {
    var rows := FilterMap(entries, IndustryRowFor);
    var r := RestoreIndustries(rows);
    if c in r {
      RestoreIndustriesLastWins(rows, c);
      var row := rows[LastIndex(rows, IndustryCodeIs(c))];
      FilterMapContents(entries, IndustryRowFor, row);
      var e :| e in entries && IndustryRowFor(e) == Some(row);
      var k :| 0 <= k < |entries| && entries[k] == e;
      forall i | 0 <= i < |entries| && entries[i].0 == c && Truthy(entries[i].1)
        ensures entries[i].1.Dict? && r[c] == IndustryDict(IndustryRowOf(c, entries[i].1.fields))
      {
        assert !IndustryFails(entries[i]);
        assert i == k;
      }
    }
    forall i | 0 <= i < |entries| && entries[i].0 == c && Truthy(entries[i].1) ensures c in r {
      assert !IndustryFails(entries[i]);
      var row := IndustryRowOf(c, entries[i].1.fields);
      FilterMapContents(entries, IndustryRowFor, row);
      assert entries[i] in entries;
    }
  }

  // ---- financial_data ----

  /** A row of `financial_data`. */
  datatype FinancialRow = FinancialRow(code: Cell, name: Cell, year: Year, value: Cell, source: Cell)

  /** The record has a value for the year: the key is there and not `None`. */
  predicate Present(rec: Record, y: Year) {
    Financial(y) in rec && rec[Financial(y)] != Null
  }

  function FinancialRowOf(rec: Record, y: Year): FinancialRow {
    FinancialRow(Get(rec, Code), Get(rec, Name), y, Get(rec, Financial(y)), Get(rec, DataSource))
  }

  /** The insert raises: `code` is `NOT NULL`, or a value cannot be bound. */
  predicate FinancialRowFails(row: FinancialRow) {
    row.code == Null || !Bindable(row.code) || !Bindable(row.name) || !Bindable(row.value) || !Bindable(row.source)
  }

  /** The rows one record gives: one per year, 2023 first, with a value. */
  function RecordRows(rec: Record): (rows: seq<FinancialRow>)
    ensures forall y :: FinancialRowOf(rec, y) in rows <==> Present(rec, y)
    ensures forall row :: row in rows ==> Present(rec, row.year) && row == FinancialRowOf(rec, row.year)
  {
    var rows := (if Present(rec, Y2023) then [FinancialRowOf(rec, Y2023)] else [])
                + (if Present(rec, Y2024) then [FinancialRowOf(rec, Y2024)] else []);
    assert forall y :: FinancialRowOf(rec, y) in rows <==> Present(rec, y) by {
      forall y ensures FinancialRowOf(rec, y) in rows <==> Present(rec, y) {
        if y == Y2023 {} else {}
      }
    }
    rows
  }

  /** The rows the insert loop of `backup_financial_data` issues, in order:
      a row for each record and each year it has a value for, and no other. */
  function FinancialRows(records: seq<Record>): (rows: seq<FinancialRow>)
    ensures forall rec, y :: rec in records && Present(rec, y) ==> FinancialRowOf(rec, y) in rows
    ensures forall row :: row in rows ==> exists rec :: rec in records && Present(rec, row.year) && row == FinancialRowOf(rec, row.year)
  {
    if |records| == 0 then []
    else
      var init := records[..|records| - 1];
      var last := records[|records| - 1];
      assert records == init + [last];
      FinancialRows(init) + RecordRows(last)
  }

  /** `backup_financial_data`: the table afterwards.  One row per record and
      year with a value; the old rows when an insert raises. */
  function BackupFinancialData(table: seq<FinancialRow>, records: seq<Record>): (r: seq<FinancialRow>)
    ensures (exists row :: row in FinancialRows(records) && FinancialRowFails(row)) ==> r == table
    ensures (forall row :: row in FinancialRows(records) ==> !FinancialRowFails(row)) ==> r == FinancialRows(records)
  {
    var rows := FinancialRows(records);
    if exists row :: row in rows && FinancialRowFails(row) then table else rows
  }

  /** The keys a restored record can have. */
  const RestoredKeys: set<Key> := {Code, Name, DataSource, Financial(Y2023), Financial(Y2024)}

  function CodeIs(c: Cell): FinancialRow -> bool {
    (row: FinancialRow) => row.code == c
  }

  function CodeYearIs(c: Cell, y: Year): FinancialRow -> bool {
    (row: FinancialRow) => row.code == c && row.year == y
  }

  /** The merge loop of `restore_financial_data`: the codes in order of first
      appearance and the dictionary being built for each. */
  function Gather(rows: seq<FinancialRow>): (r: (seq<Cell>, map<Cell, Record>))
    ensures forall c :: c in r.1 <==> c in r.0
    ensures Distinct(r.0)
    ensures forall c :: c in r.1 ==> r.1[c].Keys <= RestoredKeys && Code in r.1[c] && r.1[c][Code] == c
                                     && Name in r.1[c] && DataSource in r.1[c]
  {
    if |rows| == 0 then ([], map[])
    else
      var (order, m) := Gather(rows[..|rows| - 1]);
      var row := rows[|rows| - 1];
      var order' := if row.code in m then order else order + [row.code];
      assert forall i :: 0 <= i < |order| ==> order'[i] == order[i];
      assert Financial(row.year) in RestoredKeys by {
        if row.year == Y2023 {} else {}
      }
      (order', AddRow(m, row))
  }

  /** One pass of the merge loop: the row's code gets its dictionary (a new
      one from the row's name and source when the code is new) with the
      row's year set to the row's value. */
  function AddRow(m: map<Cell, Record>, row: FinancialRow): map<Cell, Record> {
    var entry := if row.code in m then m[row.code] else map[Code := row.code, Name := row.name, DataSource := row.source];
    m[row.code := entry[Financial(row.year) := row.value]]
  }

  /** What one pass does to a code's value for one year. */
  lemma AddRowYear(m: map<Cell, Record>, row: FinancialRow, c: Cell, y: Year)
    ensures var m' := AddRow(m, row);
            && (c in m' <==> c in m || c == row.code)
            && (c in m' ==> (Financial(y) in m'[c] <==> (row.code == c && row.year == y) || (c in m && Financial(y) in m[c])))
            && (c in m' && Financial(y) in m'[c] ==>
                  m'[c][Financial(y)] == if row.code == c && row.year == y then row.value else m[c][Financial(y)])
  {
  }

  /** A code is gathered exactly when some row has it; its dictionary takes
      the name and the source of the first such row. */
  lemma {:induction false} GatherFirst(rows: seq<FinancialRow>, c: Cell)
    ensures var m := Gather(rows).1;
            && (c in m <==> FirstIndex(rows, CodeIs(c), 0) < |rows|)
            && (c in m ==> m[c][Name] == rows[FirstIndex(rows, CodeIs(c), 0)].name
                           && m[c][DataSource] == rows[FirstIndex(rows, CodeIs(c), 0)].source)
  {
    if |rows| > 0 {
      var init := rows[..|rows| - 1];
      var last := rows[|rows| - 1];
      assert rows == init + [last];
      GatherFirst(init, c);
      FirstIndexSnoc(init, last, CodeIs(c), 0);
    }
  }

  /** A gathered dictionary has a year's value exactly when some row has its
      code and that year, and the value is the last such row's. */
  lemma {:induction false} GatherLast(rows: seq<FinancialRow>, c: Cell, y: Year)
    ensures var m := Gather(rows).1;
            && (c in m ==> (Financial(y) in m[c] <==> LastIndex(rows, CodeYearIs(c, y)) >= 0))
            && (c in m && Financial(y) in m[c] ==> m[c][Financial(y)] == rows[LastIndex(rows, CodeYearIs(c, y))].value)
  {
    if |rows| > 0 {
      var init := rows[..|rows| - 1];
      var last := rows[|rows| - 1];
      GatherLast(init, c, y);
      AddRowYear(Gather(init).1, last, c, y);
      if last.code == c && last.year != y && c !in Gather(init).1 {
        GatherFirst(init, c);
        FirstIndexNone(init, CodeIs(c));
      }
    }
  }

  /** `restore_financial_data`, given the rows as the query returns them:
      one record per distinct code, in order of first appearance. */
  function RestoreFinancialData(rows: seq<FinancialRow>): (r: seq<Record>)
    ensures forall i, j :: 0 <= i < j < |r| ==> Get(r[i], Code) != Get(r[j], Code)
    ensures forall i :: 0 <= i < |r| ==> r[i].Keys <= RestoredKeys && Get(r[i], Code) in Gather(rows).1
  {
    var (order, m) := Gather(rows);
    seq(|order|, i requires 0 <= i < |order| => m[order[i]])
  }

  /** The record has a value for at least one year, so it leaves a row. */
  predicate HasFinancial(rec: Record) {
    Present(rec, Y2023) || Present(rec, Y2024)
  }

  /** What restoring gives back for a record: its code, name and source (or
      `None`) and its values for the years it had them. */
  function Restored(rec: Record): (x: Record)
    ensures x.Keys <= RestoredKeys
    ensures Code in x && x[Code] == Get(rec, Code) && Name in x && x[Name] == Get(rec, Name)
    ensures DataSource in x && x[DataSource] == Get(rec, DataSource)
    ensures forall y :: Financial(y) in x <==> Present(rec, y)
    ensures forall y :: Present(rec, y) ==> x[Financial(y)] == rec[Financial(y)]
  {
    var base := map[Code := Get(rec, Code), Name := Get(rec, Name), DataSource := Get(rec, DataSource)];
    var with2023 := if Present(rec, Y2023) then base[Financial(Y2023) := rec[Financial(Y2023)]] else base;
    var x := if Present(rec, Y2024) then with2023[Financial(Y2024) := rec[Financial(Y2024)]] else with2023;
    assert forall y :: Financial(y) in x <==> Present(rec, y) by {
      forall y ensures Financial(y) in x <==> Present(rec, y) {
        if y == Y2023 {} else {}
      }
    }
    x
  }

  /** No two records share a code. */
  predicate DistinctCodes(records: seq<Record>) {
    forall i, j :: 0 <= i < j < |records| ==> Get(records[i], Code) != Get(records[j], Code)
  }

  /** With distinct codes, a row with a record's code is that record's row
      for its year. */
  lemma RowOfRecord(records: seq<Record>, rows: seq<FinancialRow>, rec: Record, row: FinancialRow)
    requires DistinctCodes(records)
    requires forall x :: x in rows <==> x in FinancialRows(records)
    requires rec in records && row in rows && row.code == Get(rec, Code)
    ensures Present(rec, row.year) && row == FinancialRowOf(rec, row.year)
  {
    var other :| other in records && Present(other, row.year) && row == FinancialRowOf(other, row.year);
    var i :| 0 <= i < |records| && records[i] == rec;
    var j :| 0 <= j < |records| && records[j] == other;
  }

  /** The gathered name and source for a record's code are the record's. */
  lemma GatheredHeader(records: seq<Record>, rows: seq<FinancialRow>, rec: Record)
    requires DistinctCodes(records)
    requires forall x :: x in rows <==> x in FinancialRows(records)
    requires rec in records && Get(rec, Code) in Gather(rows).1
    ensures Gather(rows).1[Get(rec, Code)][Name] == Get(rec, Name)
    ensures Gather(rows).1[Get(rec, Code)][DataSource] == Get(rec, DataSource)
  {
    GatherFirst(rows, Get(rec, Code));
    RowOfRecord(records, rows, rec, rows[FirstIndex(rows, CodeIs(Get(rec, Code)), 0)]);
  }

  /** The gathered dictionary for a record's code has the record's value
      for a year exactly when the record has one. */
  lemma GatheredYear(records: seq<Record>, rows: seq<FinancialRow>, rec: Record, y: Year)
    requires DistinctCodes(records)
    requires forall x :: x in rows <==> x in FinancialRows(records)
    requires rec in records && Get(rec, Code) in Gather(rows).1
    ensures Financial(y) in Gather(rows).1[Get(rec, Code)] <==> Present(rec, y)
    ensures Present(rec, y) ==> Gather(rows).1[Get(rec, Code)][Financial(y)] == rec[Financial(y)]
  {
    var c := Get(rec, Code);
    GatherLast(rows, c, y);
    var l := LastIndex(rows, CodeYearIs(c, y));
    if l >= 0 {
      RowOfRecord(records, rows, rec, rows[l]);
    }
    if Present(rec, y) {
      assert FinancialRowOf(rec, y) in rows;
      assert CodeYearIs(c, y)(FinancialRowOf(rec, y));
    }
  }

  /** The gathered dictionary for a record's code is what restoring promises
      for that record. */
  lemma GatheredIsRestored(records: seq<Record>, rows: seq<FinancialRow>, rec: Record)
    requires DistinctCodes(records)
    requires forall x :: x in rows <==> x in FinancialRows(records)
    requires rec in records && Get(rec, Code) in Gather(rows).1
    ensures Gather(rows).1[Get(rec, Code)] == Restored(rec)
  {
    var d := Gather(rows).1[Get(rec, Code)];
    var x := Restored(rec);
    GatheredHeader(records, rows, rec);
    GatheredYear(records, rows, rec, Y2023);
    GatheredYear(records, rows, rec, Y2024);
    SameRestoredRecord(d, x);
  }

  /** Two dictionaries over the restored keys that agree on each of them are equal. */
  lemma SameRestoredRecord(d: Record, x: Record)
    requires d.Keys <= RestoredKeys && x.Keys <= RestoredKeys
    requires Code in d && Code in x && d[Code] == x[Code]
    requires Name in d && Name in x && d[Name] == x[Name]
    requires DataSource in d && DataSource in x && d[DataSource] == x[DataSource]
    requires Financial(Y2023) in d <==> Financial(Y2023) in x
    requires Financial(Y2023) in d ==> d[Financial(Y2023)] == x[Financial(Y2023)]
    requires Financial(Y2024) in d <==> Financial(Y2024) in x
    requires Financial(Y2024) in d ==> d[Financial(Y2024)] == x[Financial(Y2024)]
    ensures d == x
  {
    assert d.Keys == x.Keys;
  }

  /** Backing up records with distinct codes and restoring gives back, in
      whatever order the query returns the rows, exactly the records that
      had a value for some year, each with its code, name, source and
      values. */
  lemma FinancialRoundTrip(records: seq<Record>, rows: seq<FinancialRow>)
    requires DistinctCodes(records)
    requires forall x :: x in rows <==> x in FinancialRows(records)
    ensures forall x :: x in RestoreFinancialData(rows) <==> exists rec :: rec in records && HasFinancial(rec) && x == Restored(rec)
  {
    var r := RestoreFinancialData(rows);
    forall i | 0 <= i < |r| ensures exists rec :: rec in records && HasFinancial(rec) && r[i] == Restored(rec) {
      RestoredEntry(records, rows, i);
    }
    forall rec | rec in records && HasFinancial(rec) ensures Restored(rec) in r {
      RecordIsRestored(records, rows, rec);
    }
  }

  /** Each restored record is what restoring promises for some backed-up record. */
  lemma RestoredEntry(records: seq<Record>, rows: seq<FinancialRow>, i: nat)
    requires DistinctCodes(records)
    requires forall x :: x in rows <==> x in FinancialRows(records)
    requires i < |RestoreFinancialData(rows)|
    ensures exists rec :: rec in records && HasFinancial(rec) && RestoreFinancialData(rows)[i] == Restored(rec)
  {
    var (order, m) := Gather(rows);
    var c := order[i];
    assert RestoreFinancialData(rows)[i] == m[c];
    GatherFirst(rows, c);
    var row := rows[FirstIndex(rows, CodeIs(c), 0)];
    assert row in FinancialRows(records);
    var rec :| rec in records && Present(rec, row.year) && row == FinancialRowOf(rec, row.year);
    assert HasFinancial(rec) by {
      if row.year == Y2023 {} else {}
    }
    GatheredIsRestored(records, rows, rec);
    assert RestoreFinancialData(rows)[i] == Restored(rec);
  }

  /** A record with a value is restored. */
  lemma RecordIsRestored(records: seq<Record>, rows: seq<FinancialRow>, rec: Record)
    requires DistinctCodes(records)
    requires forall x :: x in rows <==> x in FinancialRows(records)
    requires rec in records && HasFinancial(rec)
    ensures Restored(rec) in RestoreFinancialData(rows)
  {
    var (order, m) := Gather(rows);
    var c := Get(rec, Code);
    var y := if Present(rec, Y2023) then Y2023 else Y2024;
    assert FinancialRowOf(rec, y) in rows;
    GatherFirst(rows, c);
    GatheredIsRestored(records, rows, rec);
    var i :| 0 <= i < |order| && order[i] == c;
    assert RestoreFinancialData(rows)[i] == Restored(rec);
  }

  /** A successful backup followed by `restore_financial_data` (which reads
      the same rows sorted by code and year) gives back the records that had
      a value. */
  lemma BackupThenRestoreFinancial(table: seq<FinancialRow>, records: seq<Record>, queried: seq<FinancialRow>)
    requires DistinctCodes(records)
    requires forall row :: row in FinancialRows(records) ==> !FinancialRowFails(row)
    requires forall x :: x in queried <==> x in BackupFinancialData(table, records)
    ensures forall x :: x in RestoreFinancialData(queried) <==> exists rec :: rec in records && HasFinancial(rec) && x == Restored(rec)
  {
    FinancialRoundTrip(records, queried);
  }

  // ---- CSVBackupManager.backup_to_csv ----

  /** Every key of every item. */
  function AllKeys(data: seq<Json>): (keys: set<string>)
    ensures forall k :: k in keys <==> exists i :: 0 <= i < |data| && k in data[i]
  {
    set i, k | 0 <= i < |data| && k in data[i] :: k
  }

  /** How `csv` writes a value: `None` as an empty field, anything else as `str()`. */
  function CsvField(c: Cell): string {
    if c == Null then "" else Show(c)
  }

  /** `DictWriter.writerow` for the header: the fields in header order, an
      empty one for a key the item lacks. */
  function CsvRow(header: seq<string>, item: Json): (row: seq<string>)
    ensures |row| == |header|
    ensures forall j :: 0 <= j < |header| && header[j] !in item ==> row[j] == ""
    ensures forall j :: 0 <= j < |header| && header[j] in item ==> row[j] == CsvField(item[header[j]])
  {
    seq(|header|, j requires 0 <= j < |header| => if header[j] in item then CsvField(item[header[j]]) else "")
  }

  /** `backup_to_csv`: nothing for empty data; otherwise the header, the
      sorted union of the items' keys, and one line per item. */
  function BackupToCsv(data: seq<Json>): (r: Option<(seq<string>, seq<seq<string>>)>)
    ensures r.None? <==> |data| == 0
    ensures r.Some? ==> forall k :: k in r.value.0 <==> exists i :: 0 <= i < |data| && k in data[i]
    ensures r.Some? ==> forall i, j :: 0 <= i < j < |r.value.0| ==> StrLess(r.value.0[i], r.value.0[j])
    ensures r.Some? ==> |r.value.1| == |data|
  {
    if |data| == 0 then None
    else
      var header := SortedFromSet(AllKeys(data));
      Some((header, seq(|data|, i requires 0 <= i < |data| => CsvRow(header, data[i]))))
  }

  /** No field is lost: each key of each item has a column, and the item's
      line holds its value there. */
  lemma CsvKeepsEveryField(data: seq<Json>, i: nat, k: string)
    requires i < |data| && k in data[i]
    ensures var r := BackupToCsv(data);
            r.Some? && exists j :: 0 <= j < |r.value.0| && r.value.0[j] == k && r.value.1[i][j] == CsvField(data[i][k])
  {
    var header := BackupToCsv(data).value.0;
    assert k in header;
    var j :| 0 <= j < |header| && header[j] == k;
    assert BackupToCsv(data).value.1[i] == CsvRow(header, data[i]);
  }
}
