/** `DataDeduplication` in `data_validator.py`: first-wins de-duplication of
    stock records by code, the priority-ordered merge of industry records from
    several sources, and the merge of financial records that keeps, per
    year, a truthy value and of two truthy values the larger. */
module DataDeduplication {
  import opened Wrappers
  import opened Seqs
  import opened Records

  // ---- deduplicate_stocks ----

  /** `stock.get('code')` */
  function CodeOf(r: Record): Cell {
    Get(r, Code)
  }

  /** `deduplicate_stocks`: the first record for each truthy code, in input
      order; records without a truthy code are dropped. */
  method DeduplicateStocks(stocks: seq<Record>) returns (r: seq<Record>)
    ensures Subseq(r, stocks)
    ensures forall i :: 0 <= i < |r| ==> Truthy(CodeOf(r[i]))
    ensures forall i, j :: 0 <= i < j < |r| ==> CodeOf(r[i]) != CodeOf(r[j])
    ensures forall i :: (0 <= i < |stocks| && Truthy(CodeOf(stocks[i])) &&
                         forall j :: 0 <= j < i ==> CodeOf(stocks[j]) != CodeOf(stocks[i])) ==> stocks[i] in r
    ensures forall y :: y in r ==> exists i :: 0 <= i < |stocks| && stocks[i] == y &&
                                     forall j :: 0 <= j < i ==> CodeOf(stocks[j]) != CodeOf(y)
  {
    r := DeduplicateBy(stocks, CodeOf, Truthy);
    DedupSubseq(stocks, CodeOf, Truthy);
    forall i | 0 <= i < |stocks| && Truthy(CodeOf(stocks[i])) &&
               (forall j :: 0 <= j < i ==> CodeOf(stocks[j]) != CodeOf(stocks[i]))
      ensures stocks[i] in r
    {
      DedupKeepsFirst(stocks, CodeOf, Truthy, i);
    }
    forall y | y in r
      ensures exists i :: 0 <= i < |stocks| && stocks[i] == y &&
                          forall j :: 0 <= j < i ==> CodeOf(stocks[j]) != CodeOf(y)
    {
      DedupOnlyFirst(stocks, CodeOf, Truthy, y);
      var i :| FirstWithKey(stocks, CodeOf, y, i);
    }
  }

  // ---- merge_industry_data ----

  /** The default source priority: sina, eastmoney, tencent, cninfo. */
  const DefaultPriority: seq<string> := ["sina", "eastmoney", "tencent", "cninfo"]

  /** `item.get('source') == name` */
  function FromSource(name: string): Record -> bool {
    x => Get(x, Source) == Str(name)
  }

  /** Any item at all (the pass over the sources without priority). */
  function AnyItem(): Record -> bool {
    x => true
  }

  /** The industry of the first item that `accept` admits and whose code is `c`. */
  function FirstMatch(xs: seq<Record>, accept: Record -> bool, c: Cell): (v: Option<Cell>)
    ensures v.Some? <==> exists i :: 0 <= i < |xs| && accept(xs[i]) && CodeOf(xs[i]) == c
    decreases |xs|
  {
    if |xs| == 0 then None
    else if accept(xs[0]) && CodeOf(xs[0]) == c then Some(Get(xs[0], Industry))
    else
      var v := FirstMatch(xs[1..], accept, c);
      assert forall i :: 1 <= i < |xs| ==> xs[i] == xs[1..][i - 1];
      v
  }

  /** One pass of `merge_industry_data` over the items: an admitted item
      with a truthy code not yet in the result adds its industry. */
  function Absorb(acc: map<Cell, Cell>, xs: seq<Record>, accept: Record -> bool): (m: map<Cell, Cell>)
    ensures forall c :: c in acc ==> c in m && m[c] == acc[c]
    ensures forall c :: c !in acc ==> (c in m <==> Truthy(c) && FirstMatch(xs, accept, c).Some?)
    ensures forall c :: c !in acc && c in m ==> m[c] == FirstMatch(xs, accept, c).value
    decreases |xs|
  {
    if |xs| == 0 then acc
    else
      var x := xs[0];
      var c := CodeOf(x);
      var next := if accept(x) && Truthy(c) && c !in acc then acc[c := Get(x, Industry)] else acc;
      Absorb(next, xs[1..], accept)
  }

  /** The passes over the priority sources from index `from` on. */
  function AbsorbSources(acc: map<Cell, Cell>, xs: seq<Record>, priority: seq<string>, from: nat): (m: map<Cell, Cell>)
    requires from <= |priority|
    decreases |priority| - from
  {
    if from == |priority| then acc
    else AbsorbSources(Absorb(acc, xs, FromSource(priority[from])), xs, priority, from + 1)
  }

  /** `merge_industry_data`: code to industry, from the priority sources
      first and then from any item. */
  function MergeIndustryData(xs: seq<Record>, priorityOrder: Option<seq<string>>): (m: map<Cell, Cell>)
    ensures forall c :: c in m <==> Truthy(c) && exists i :: 0 <= i < |xs| && CodeOf(xs[i]) == c
    ensures forall c :: c in m ==> m[c] == Chosen(xs, priorityOrder.GetOr(DefaultPriority), c).value
  {
    var priority := priorityOrder.GetOr(DefaultPriority);
    var m := Absorb(AbsorbSources(map[], xs, priority, 0), xs, AnyItem());
    MergeIndustryChoice(xs, priority);
    m
  }

  /** Some item from source `s` carries code `c`. */
  function OffersFn(xs: seq<Record>, c: Cell): string -> bool {
    s => FirstMatch(xs, FromSource(s), c).Some?
  }

  /** The industry the merge picks for code `c`: that of the first item
      with code `c` from the earliest priority source offering `c`, or else
      that of the first item with code `c`. */
  function Chosen(xs: seq<Record>, priority: seq<string>, c: Cell): Option<Cell> {
    var j := FirstIndex(priority, OffersFn(xs, c), 0);
    if j < |priority| then FirstMatch(xs, FromSource(priority[j]), c) else FirstMatch(xs, AnyItem(), c)
  }

  /** The priority passes from `from` on add exactly the codes some source
      at or after `from` offers, each with the industry `Chosen` picks. */
  lemma {:induction false} AbsorbSourcesChoice(acc: map<Cell, Cell>, xs: seq<Record>, priority: seq<string>, from: nat)
    requires from <= |priority|
    ensures forall c :: c in acc ==> c in AbsorbSources(acc, xs, priority, from) && AbsorbSources(acc, xs, priority, from)[c] == acc[c]
    ensures forall c :: c !in acc ==>
              (c in AbsorbSources(acc, xs, priority, from) <==> Truthy(c) && FirstIndex(priority, OffersFn(xs, c), from) < |priority|)
    ensures forall c :: c !in acc && c in AbsorbSources(acc, xs, priority, from) ==>
              AbsorbSources(acc, xs, priority, from)[c] == FirstMatch(xs, FromSource(priority[FirstIndex(priority, OffersFn(xs, c), from)]), c).value
    decreases |priority| - from
  {
    if from < |priority| {
      var next := Absorb(acc, xs, FromSource(priority[from]));
      AbsorbSourcesChoice(next, xs, priority, from + 1);
      forall c | c !in acc
        ensures FirstIndex(priority, OffersFn(xs, c), from) ==
                (if OffersFn(xs, c)(priority[from]) then from else FirstIndex(priority, OffersFn(xs, c), from + 1))
      {
      }
    }
  }

  /** The merged industry of each code is the one `Chosen` picks. */
  lemma MergeIndustryChoice(xs: seq<Record>, priority: seq<string>)
    ensures forall c :: c in Absorb(AbsorbSources(map[], xs, priority, 0), xs, AnyItem()) <==>
                        Truthy(c) && FirstMatch(xs, AnyItem(), c).Some?
    ensures forall c :: c in Absorb(AbsorbSources(map[], xs, priority, 0), xs, AnyItem()) ==>
                        Absorb(AbsorbSources(map[], xs, priority, 0), xs, AnyItem())[c] == Chosen(xs, priority, c).value
  {
    var p := AbsorbSources(map[], xs, priority, 0);
    AbsorbSourcesChoice(map[], xs, priority, 0);
    forall c | c in p ensures FirstMatch(xs, AnyItem(), c).Some? {
      var j := FirstIndex(priority, OffersFn(xs, c), 0);
      assert OffersFn(xs, c)(priority[j]);
      var i :| 0 <= i < |xs| && FromSource(priority[j])(xs[i]) && CodeOf(xs[i]) == c;
      assert AnyItem()(xs[i]);
    }
  }

  // ---- merge_financial_data ----

  /** Whether a year's stored value gives way to an item's incoming value:
      a falsy stored value gives way to a truthy one, and of two truthy
      values that both convert with `float()` the larger stays.  A value that
      does not convert leaves the stored one in place. */
  predicate TakeNew(stored: Cell, incoming: Cell, parse: string -> Option<real>) {
    if !Truthy(stored) then Truthy(incoming)
    else Truthy(incoming) && ToFloat(stored, parse).Some? && ToFloat(incoming, parse).Some?
         && ToFloat(incoming, parse).value > ToFloat(stored, parse).value
  }

  /** One year of the merge of `item` into the stored record `e`. */
  function MergeYear(e: Record, item: Record, y: Year, parse: string -> Option<real>): (r: Record)
    ensures forall k :: k != Financial(y) ==> (k in r <==> k in e) && Get(r, k) == Get(e, k)
    ensures Get(r, Financial(y)) == if TakeNew(Get(e, Financial(y)), Get(item, Financial(y)), parse)
                                    then Get(item, Financial(y)) else Get(e, Financial(y))
  {
    if TakeNew(Get(e, Financial(y)), Get(item, Financial(y)), parse) then e[Financial(y) := item[Financial(y)]] else e
  }

  /** Both years of the merge of `item` into `e`. */
  function MergeInto(e: Record, item: Record, parse: string -> Option<real>): (r: Record)
    ensures forall k: Key :: !k.Financial? ==> (k in r <==> k in e) && Get(r, k) == Get(e, k)
    ensures forall y: Year :: Get(r, Financial(y)) == if TakeNew(Get(e, Financial(y)), Get(item, Financial(y)), parse)
                                                then Get(item, Financial(y)) else Get(e, Financial(y))
  {
    var r := MergeYear(MergeYear(e, item, Y2023, parse), item, Y2024, parse);
    forall y: Year
      ensures Get(r, Financial(y)) == if TakeNew(Get(e, Financial(y)), Get(item, Financial(y)), parse)
                                      then Get(item, Financial(y)) else Get(e, Financial(y))
    {
      if y == Y2023 {} else {}
    }
    r
  }

  /** The loop of `merge_financial_data` from item `xs[0]` on, with the
      records merged so far in `acc`. */
  function MergeFrom(acc: map<Cell, Record>, xs: seq<Record>, parse: string -> Option<real>): map<Cell, Record>
    decreases |xs|
  {
    if |xs| == 0 then acc
    else
      var x := xs[0];
      var c := CodeOf(x);
      var next := if !Truthy(c) then acc else if c !in acc then acc[c := x] else acc[c := MergeInto(acc[c], x, parse)];
      MergeFrom(next, xs[1..], parse)
  }

  /** The items with code `c`, in order. */
  function WithCode(xs: seq<Record>, c: Cell): (ys: seq<Record>)
    ensures forall y :: y in ys <==> y in xs && CodeOf(y) == c
    decreases |xs|
  {
    if |xs| == 0 then []
    else if CodeOf(xs[0]) == c then [xs[0]] + WithCode(xs[1..], c)
    else WithCode(xs[1..], c)
  }

  /** Merging a run of items, one after another, into `e`. */
  function MergeAll(e: Record, ys: seq<Record>, parse: string -> Option<real>): Record
    decreases |ys|
  {
    if |ys| == 0 then e else MergeAll(MergeInto(e, ys[0], parse), ys[1..], parse)
  }

  /** `merge_financial_data`: one record per truthy code, the first item
      with that code with the later items of that code merged into it. */
  function MergeFinancialData(xs: seq<Record>, parse: string -> Option<real>): (m: map<Cell, Record>)
    ensures forall c :: c in m <==> Truthy(c) && |WithCode(xs, c)| > 0
    ensures forall c :: c in m ==> m[c] == MergeAll(WithCode(xs, c)[0], WithCode(xs, c)[1..], parse)
  {
    MergeFromPerCode(map[], xs, parse);
    MergeFrom(map[], xs, parse)
  }

  /** The loop treats each code on its own: a code already stored has the
      later items with its code merged in; a new one starts from its first. */
  lemma MergeFromPerCode(acc: map<Cell, Record>, xs: seq<Record>, parse: string -> Option<real>)
    requires forall c :: c in acc ==> Truthy(c)
    ensures forall c :: c in MergeFrom(acc, xs, parse) <==> c in acc || (Truthy(c) && |WithCode(xs, c)| > 0)
    ensures forall c :: c in acc ==> MergeFrom(acc, xs, parse)[c] == MergeAll(acc[c], WithCode(xs, c), parse)
    ensures forall c :: c !in acc && c in MergeFrom(acc, xs, parse) ==>
              MergeFrom(acc, xs, parse)[c] == MergeAll(WithCode(xs, c)[0], WithCode(xs, c)[1..], parse)
  {
    var m := MergeFrom(acc, xs, parse);
    forall c
      ensures c in m <==> c in acc || (Truthy(c) && |WithCode(xs, c)| > 0)
      ensures c in acc ==> m[c] == MergeAll(acc[c], WithCode(xs, c), parse)
      ensures c !in acc && c in m ==> m[c] == MergeAll(WithCode(xs, c)[0], WithCode(xs, c)[1..], parse)
    {
      MergeFromAt(acc, xs, parse, c);
    }
  }

  /** What the loop leaves under code `c`, given what it started with. */
  predicate MergedAt(acc: map<Cell, Record>, xs: seq<Record>, parse: string -> Option<real>, c: Cell) {
    var m := MergeFrom(acc, xs, parse);
    && (c in m <==> c in acc || (Truthy(c) && |WithCode(xs, c)| > 0))
    && (c in acc ==> m[c] == MergeAll(acc[c], WithCode(xs, c), parse))
    && (c !in acc && c in m ==> m[c] == MergeAll(WithCode(xs, c)[0], WithCode(xs, c)[1..], parse))
  }

  lemma {:induction false} MergeFromAt(acc: map<Cell, Record>, xs: seq<Record>, parse: string -> Option<real>, c: Cell)
    requires forall c :: c in acc ==> Truthy(c)
    ensures MergedAt(acc, xs, parse, c)
    decreases |xs|
  {
    if |xs| > 0 {
      var x := xs[0];
      var c0 := CodeOf(x);
      var next := if !Truthy(c0) then acc else if c0 !in acc then acc[c0 := x] else acc[c0 := MergeInto(acc[c0], x, parse)];
      MergeFromAt(next, xs[1..], parse, c);
      assert MergeFrom(acc, xs, parse) == MergeFrom(next, xs[1..], parse);
      WithCodeStep(xs, c);
    }
  }

  lemma WithCodeStep(xs: seq<Record>, c: Cell)
    requires |xs| > 0
    ensures WithCode(xs, c) == if c == CodeOf(xs[0]) then [xs[0]] + WithCode(xs[1..], c) else WithCode(xs[1..], c)
  {
  }

  /** Merging never touches a field other than the two year values. */
  lemma {:induction false} MergeAllKeepsFields(e: Record, ys: seq<Record>, parse: string -> Option<real>)
    ensures forall k: Key :: !k.Financial? ==> (k in MergeAll(e, ys, parse) <==> k in e) && Get(MergeAll(e, ys, parse), k) == Get(e, k)
    decreases |ys|
  {
    if |ys| > 0 {
      MergeAllKeepsFields(MergeInto(e, ys[0], parse), ys[1..], parse);
    }
  }

  /** A year's merged value is truthy exactly when the stored value or some
      merged item's value is. */
  lemma {:induction false} MergeAllTruthy(e: Record, ys: seq<Record>, y: Year, parse: string -> Option<real>)
    ensures Truthy(Get(MergeAll(e, ys, parse), Financial(y))) <==>
              Truthy(Get(e, Financial(y))) || exists z :: z in ys && Truthy(Get(z, Financial(y)))
    decreases |ys|
  {
    if |ys| > 0 {
      MergeAllTruthy(MergeInto(e, ys[0], parse), ys[1..], y, parse);
      assert forall z :: z in ys <==> z == ys[0] || z in ys[1..];
    }
  }

  /** When every truthy value of a year converts with `float()`, the merged
      value is one of them and at least as large as each. */
  lemma {:induction false} MergeAllMax(e: Record, ys: seq<Record>, y: Year, parse: string -> Option<real>)
    requires Truthy(Get(e, Financial(y))) ==> ToFloat(Get(e, Financial(y)), parse).Some?
    requires forall z :: z in ys && Truthy(Get(z, Financial(y))) ==> ToFloat(Get(z, Financial(y)), parse).Some?
    ensures var v := Get(MergeAll(e, ys, parse), Financial(y));
            && (v == Get(e, Financial(y)) || exists z :: z in ys && v == Get(z, Financial(y)))
            && (Truthy(v) ==> ToFloat(v, parse).Some?)
            && (Truthy(Get(e, Financial(y))) ==>
                  Truthy(v) && ToFloat(v, parse).Some? && ToFloat(v, parse).value >= ToFloat(Get(e, Financial(y)), parse).value)
            && (forall z :: z in ys && Truthy(Get(z, Financial(y))) ==>
                  Truthy(v) && ToFloat(v, parse).Some? && ToFloat(v, parse).value >= ToFloat(Get(z, Financial(y)), parse).value)
    decreases |ys|
  {
    if |ys| > 0 {
      var e1 := MergeInto(e, ys[0], parse);
      assert forall z :: z in ys <==> z == ys[0] || z in ys[1..];
      MergeAllTruthy(e1, ys[1..], y, parse);
      MergeAllMax(e1, ys[1..], y, parse);
    }
  }

  /** The first item with code `c` heads `WithCode(xs, c)`. */
  lemma {:induction false} WithCodeFirst(xs: seq<Record>, c: Cell)
    requires |WithCode(xs, c)| > 0
    ensures exists i :: 0 <= i < |xs| && xs[i] == WithCode(xs, c)[0] && CodeOf(xs[i]) == c &&
                        forall j :: 0 <= j < i ==> CodeOf(xs[j]) != c
    decreases |xs|
  {
    if CodeOf(xs[0]) != c {
      WithCodeFirst(xs[1..], c);
      var i :| 0 <= i < |xs[1..]| && xs[1..][i] == WithCode(xs[1..], c)[0] && CodeOf(xs[1..][i]) == c &&
               forall j :: 0 <= j < i ==> CodeOf(xs[1..][j]) != c;
      assert xs[i + 1] == xs[1..][i];
      forall j | 0 <= j < i + 1 ensures CodeOf(xs[j]) != c {
        if j > 0 {
          assert xs[j] == xs[1..][j - 1];
        }
      }
    }
  }

  /** Every field of the merged record for `c` other than the year values
      comes from the first item with code `c`. */
  lemma MergeFinancialKeepsFirst(xs: seq<Record>, c: Cell, parse: string -> Option<real>)
    requires c in MergeFinancialData(xs, parse)
    ensures exists i :: FirstWithCode(xs, c, i) && SameOtherFields(MergeFinancialData(xs, parse)[c], xs[i])
  {
    var w := WithCode(xs, c);
    var merged := MergeFinancialData(xs, parse)[c];
    assert merged == MergeAll(w[0], w[1..], parse);
    WithCodeFirst(xs, c);
    var i :| 0 <= i < |xs| && xs[i] == w[0] && CodeOf(xs[i]) == c && forall j :: 0 <= j < i ==> CodeOf(xs[j]) != c;
    MergeAllKeepsFields(w[0], w[1..], parse);
    assert FirstWithCode(xs, c, i);
    assert SameOtherFields(merged, xs[i]);
  }

  /** `xs[i]` is the first item with code `c`. */
  predicate FirstWithCode(xs: seq<Record>, c: Cell, i: int) {
    0 <= i < |xs| && CodeOf(xs[i]) == c && forall j :: 0 <= j < i ==> CodeOf(xs[j]) != c
  }

  /** Two records agree on every key other than the year values. */
  ghost predicate SameOtherFields(a: Record, b: Record) {
    forall k: Key :: !k.Financial? ==> (k in a <==> k in b) && Get(a, k) == Get(b, k)
  }

  /** A merged year value is truthy exactly when some item with code `c`
      has a truthy value for that year. */
  lemma MergeFinancialTruthy(xs: seq<Record>, c: Cell, y: Year, parse: string -> Option<real>)
    requires c in MergeFinancialData(xs, parse)
    ensures Truthy(Get(MergeFinancialData(xs, parse)[c], Financial(y))) <==>
              exists z :: z in xs && CodeOf(z) == c && Truthy(Get(z, Financial(y)))
  {
    var w := WithCode(xs, c);
    assert forall z :: z in w <==> z == w[0] || z in w[1..] by {
      assert w == [w[0]] + w[1..];
    }
    MergeAllTruthy(w[0], w[1..], y, parse);
  }

  /** When every truthy value of year `y` among the items with code `c`
      converts with `float()`, the merged value is at least each of them. */
  lemma MergeFinancialMax(xs: seq<Record>, c: Cell, y: Year, parse: string -> Option<real>)
    requires c in MergeFinancialData(xs, parse)
    requires forall z :: z in xs && CodeOf(z) == c && Truthy(Get(z, Financial(y))) ==> ToFloat(Get(z, Financial(y)), parse).Some?
    ensures forall z :: z in xs && CodeOf(z) == c && Truthy(Get(z, Financial(y))) ==>
              var v := Get(MergeFinancialData(xs, parse)[c], Financial(y));
              ToFloat(v, parse).Some? && ToFloat(v, parse).value >= ToFloat(Get(z, Financial(y)), parse).value
  {
    var w := WithCode(xs, c);
    assert forall z :: z in w <==> z == w[0] || z in w[1..] by {
      assert w == [w[0]] + w[1..];
    }
    MergeAllMax(w[0], w[1..], y, parse);
  }
}
