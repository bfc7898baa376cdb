/**
  Reading the rows of the results query back by column name, so that the order of the columns, and any
  columns besides, do not matter.
 */
module ResultColumns {
  import opened Options
  import opened ResultsQuery
  import opened Statistics

  // ----- Column names -----

  /** Slot i has the alias `m<i>`; other columns may stand between. */
  datatype Column = Variant | N | SumOf(i: nat) | SquaresOf(i: nat) | Other(name: string)

  function Digits(n: nat): (s: string)
    ensures s != []
  {
    if n < 10 then [('0' as int + n) as char] else Digits(n / 10) + [('0' as int + n % 10) as char]
  }

  function Alias(i: nat): string
  {
    "m" + Digits(i)
  }

  function Name(c: Column): string
  {
    match c
    case Variant => "variant"
    case N => "n"
    case SumOf(i) => Alias(i) + "_sum"
    case SquaresOf(i) => Alias(i) + "_sum_squares"
    case Other(name) => name
  }

  function Decimal(s: string): int
  {
    if s == [] then 0 else 10 * Decimal(s[..|s| - 1]) + (s[|s| - 1] as int - '0' as int)
  }

  /** The decimal digits of a number, without leading zeros. */
  lemma {:induction false} DigitsDenote(n: nat)
    ensures Decimal(Digits(n)) == n
    ensures forall i :: 0 <= i < |Digits(n)| ==> '0' <= Digits(n)[i] <= '9'
    ensures n > 0 ==> Digits(n)[0] != '0'
  {
    var s := Digits(n);
    if n < 10 {
      assert s[..0] == [];
    } else {
      DigitsDenote(n / 10);
      assert s[..|s| - 1] == Digits(n / 10);
    }
  }

  lemma {:induction false} DigitsInjective(a: nat, b: nat)
    ensures Digits(a) == Digits(b) ==> a == b
  {
    if a >= 10 && b >= 10 && Digits(a) == Digits(b) {
      var p, q := Digits(a / 10), Digits(b / 10);
      assert Digits(a)[..|p|] == p && Digits(b)[..|q|] == q;
      assert Digits(a)[|p|] == Digits(b)[|q|];
      DigitsInjective(a / 10, b / 10);
    }
  }

  lemma SlotName(i: nat, c: Column)
    requires c == SumOf(i) || c == SquaresOf(i)
    ensures var name := Name(c);
            && |name| >= 5 && name[0] == 'm'
            && name[|name| - 1] == (if c.SumOf? then 'm' else 's')
            && name[1..|name| - (if c.SumOf? then 4 else 12)] == Digits(i)
  {
  }

  /** The query's own columns never share a name. */
  lemma NamesDiffer(a: Column, b: Column)
    requires !a.Other? && !b.Other? && Name(a) == Name(b)
    ensures a == b
  {
    if a.SumOf? || a.SquaresOf? {
      SlotName(a.i, a);
    }
    if b.SumOf? || b.SquaresOf? {
      SlotName(b.i, b);
    }
    if (a.SumOf? || a.SquaresOf?) && (b.SumOf? || b.SquaresOf?) {
      DigitsInjective(a.i, b.i);
    }
  }

  // ----- Rows -----

  /** What `str`, `int` and `float` make of a value. */
  datatype Cell = Cell(text: string, integer: nat, number: real)

  /** `{name: position}`: the last position of a name. */
  function Position(names: seq<string>, name: string): Option<nat>
  {
    if names == [] then None
    else if names[|names| - 1] == name then Some(|names| - 1)
    else Position(names[..|names| - 1], name)
  }

  /** A value by name; None for the error when the column or the value is missing. */
  function Field(names: seq<string>, row: seq<Cell>, name: string): Option<Cell>
  {
    var position := Position(names, name);
    if position.Some? && position.value < |row| then Some(row[position.value]) else None
  }

  /** One variant's row: its identities, and per slot a sum and a sum of squares. */
  datatype VariantRow = VariantRow(variant: string, n: nat, totals: seq<(real, real)>)

  /** Slot i's two totals, by their names. */
  function Slot(names: seq<string>, row: seq<Cell>, i: nat): Option<(real, real)>
  {
    var sum, squares := Field(names, row, Name(SumOf(i))), Field(names, row, Name(SquaresOf(i)));
    if sum.None? || squares.None? then None else Some((sum.value.number, squares.value.number))
  }

  /** The first values of a function, if all are there. */
  function Collect<T>(f: nat -> Option<T>, n: nat): Option<seq<T>>
  {
    if n == 0 then Some([])
    else
      var before, last := Collect(f, n - 1), f(n - 1);
      if before.None? || last.None? then None else Some(before.value + [last.value])
  }

  lemma {:induction false} CollectLength<T>(f: nat -> Option<T>, n: nat)
    ensures Collect(f, n).Some? ==> |Collect(f, n).value| == n
  {
    if n > 0 {
      CollectLength(f, n - 1);
    }
  }

  function Totals(names: seq<string>, row: seq<Cell>, slots: nat): Option<seq<(real, real)>>
  {
    Collect((i: nat) => Slot(names, row, i), slots)
  }

  function DecodeRow(names: seq<string>, row: seq<Cell>, slots: nat): (r: Option<VariantRow>)
    ensures r.Some? ==> |r.value.totals| == slots
  {
    CollectLength((i: nat) => Slot(names, row, i), slots);
    var variant, n, totals := Field(names, row, Name(Variant)), Field(names, row, Name(N)), Totals(names, row, slots);
    if variant.None? || n.None? || totals.None? then None
    else Some(VariantRow(variant.value.text, n.value.integer, totals.value))
  }

  // ----- Any order of columns gives back the same row -----

  predicate Wanted(c: Column, slots: nat)
  {
    match c
    case SumOf(i) => i < slots
    case SquaresOf(i) => i < slots
    case Other(_) => false
    case _ => true
  }

  function CellOf(r: VariantRow, c: Column, others: string -> Cell): Cell
    requires c.Other? || Wanted(c, |r.totals|)
  {
    match c
    case Variant => Cell(r.variant, 0, 0.0)
    case N => Cell("", r.n, r.n as real)
    case SumOf(i) => Cell("", 0, r.totals[i].0)
    case SquaresOf(i) => Cell("", 0, r.totals[i].1)
    case Other(name) => others(name)
  }

  /** A select list: every wanted column, once, among others of different names. */
  ghost predicate SelectList(columns: seq<Column>, slots: nat)
  {
    && (forall k :: 0 <= k < |columns| ==> columns[k].Other? || Wanted(columns[k], slots))
    && (forall c :: Wanted(c, slots) ==> c in columns)
    && (forall k, l :: 0 <= k < l < |columns| ==> Name(columns[k]) != Name(columns[l]))
  }

  function Names(columns: seq<Column>): seq<string>
  {
    seq(|columns|, k requires 0 <= k < |columns| => Name(columns[k]))
  }

  function Cells(r: VariantRow, columns: seq<Column>, others: string -> Cell): seq<Cell>
    requires forall k :: 0 <= k < |columns| ==> columns[k].Other? || Wanted(columns[k], |r.totals|)
  {
    seq(|columns|, k requires 0 <= k < |columns| => CellOf(r, columns[k], others))
  }

  lemma {:induction false} PositionOf(names: seq<string>, k: nat)
    requires k < |names| && forall i, j :: 0 <= i < j < |names| ==> names[i] != names[j]
    ensures Position(names, names[k]) == Some(k)
  {
    if k < |names| - 1 {
      PositionOf(names[..|names| - 1], k);
    }
  }

  lemma FieldOf(r: VariantRow, columns: seq<Column>, others: string -> Cell, c: Column)
    requires SelectList(columns, |r.totals|) && Wanted(c, |r.totals|)
    ensures Field(Names(columns), Cells(r, columns, others), Name(c)) == Some(CellOf(r, c, others))
  {
    assert c in columns;
    var k :| 0 <= k < |columns| && columns[k] == c;
    PositionOf(Names(columns), k);
  }

  lemma SlotOf(r: VariantRow, columns: seq<Column>, others: string -> Cell, i: nat)
    requires SelectList(columns, |r.totals|) && i < |r.totals|
    ensures Slot(Names(columns), Cells(r, columns, others), i) == Some(r.totals[i])
  {
    FieldOf(r, columns, others, SumOf(i));
    FieldOf(r, columns, others, SquaresOf(i));
  }

  lemma {:induction false} CollectAll<T>(f: nat -> Option<T>, xs: seq<T>, n: nat)
    requires n <= |xs| && forall i: nat :: i < |xs| ==> f(i) == Some(xs[i])
    ensures Collect(f, n) == Some(xs[..n])
  {
    if n > 0 {
      CollectAll(f, xs, n - 1);
      assert xs[..n] == xs[..n - 1] + [xs[n - 1]];
    }
  }

  /** Whatever the order of the select list, and whatever else it lists, decoding gives back the row. */
  lemma DecodingIgnoresColumnOrder(r: VariantRow, columns: seq<Column>, others: string -> Cell)
    requires SelectList(columns, |r.totals|)
    ensures DecodeRow(Names(columns), Cells(r, columns, others), |r.totals|) == Some(r)
  {
    FieldOf(r, columns, others, Variant);
    FieldOf(r, columns, others, N);
    var slot := (i: nat) => Slot(Names(columns), Cells(r, columns, others), i);
    forall i: nat | i < |r.totals| ensures slot(i) == Some(r.totals[i]) {
      SlotOf(r, columns, others, i);
    }
    CollectAll(slot, r.totals, |r.totals|);
    assert r.totals[..|r.totals|] == r.totals;
  }

  // ----- The dictionaries of a result -----

  /** Per metric id, per variant. */
  type Stats = map<int, map<string, VariantStats>>

  function DecodeAll(names: seq<string>, rows: seq<seq<Cell>>, slots: nat): (r: Option<seq<VariantRow>>)
    ensures r.Some? ==> |r.value| == |rows| && forall k :: 0 <= k < |rows| ==> |r.value[k].totals| == slots
  {
    if rows == [] then Some([])
    else
      var before, last := DecodeAll(names, rows[..|rows| - 1], slots), DecodeRow(names, rows[|rows| - 1], slots);
      if before.None? || last.None? then None else Some(before.value + [last.value])
  }

  function CountsOf(decoded: seq<VariantRow>): map<string, nat>
  {
    if decoded == [] then map[]
    else CountsOf(decoded[..|decoded| - 1])[decoded[|decoded| - 1].variant := decoded[|decoded| - 1].n]
  }

  function EmptyStats(specs: seq<MetricSpec>): Stats
  {
    if specs == [] then map[] else EmptyStats(specs[..|specs| - 1])[specs[|specs| - 1].metricId := map[]]
  }

  /** One row's statistics, filled in for the first `i` slots. */
  function FillRow(stats: Stats, row: VariantRow, specs: seq<MetricSpec>, i: nat): Stats
    requires i <= |specs| && |row.totals| == |specs|
  {
    if i == 0 then stats
    else
      var before, id := FillRow(stats, row, specs, i - 1), specs[i - 1].metricId;
      var variants := if id in before then before[id] else map[];
      before[id := variants[row.variant := VariantStats(row.n, row.totals[i - 1].0, row.totals[i - 1].1)]]
  }

  function Filled(decoded: seq<VariantRow>, specs: seq<MetricSpec>): Stats
    requires forall k :: 0 <= k < |decoded| ==> |decoded[k].totals| == |specs|
  {
    if decoded == [] then EmptyStats(specs)
    else FillRow(Filled(decoded[..|decoded| - 1], specs), decoded[|decoded| - 1], specs, |specs|)
  }

  lemma {:induction false} DecodeStops(names: seq<string>, rows: seq<seq<Cell>>, slots: nat, k: nat)
    requires k <= |rows| && DecodeAll(names, rows[..k], slots).None?
    ensures DecodeAll(names, rows, slots).None?
  {
    if k == |rows| {
      assert rows[..k] == rows;
    } else {
      assert rows[..|rows| - 1][..k] == rows[..k];
      DecodeStops(names, rows[..|rows| - 1], slots, k);
    }
  }

  /** One more row decoded. */
  lemma RowDecoded(names: seq<string>, rows: seq<seq<Cell>>, specs: seq<MetricSpec>, k: nat, decoded: seq<VariantRow>,
                   row: VariantRow)
    requires k < |rows| && DecodeAll(names, rows[..k], |specs|) == Some(decoded) &&
             DecodeRow(names, rows[k], |specs|) == Some(row)
    ensures DecodeAll(names, rows[..k + 1], |specs|) == Some(decoded + [row])
    ensures forall l :: 0 <= l < |decoded| ==> |decoded[l].totals| == |specs|
    ensures CountsOf(decoded + [row]) == CountsOf(decoded)[row.variant := row.n]
    ensures Filled(decoded + [row], specs) == FillRow(Filled(decoded, specs), row, specs, |specs|)
  {
    assert rows[..k + 1][..k] == rows[..k] && (decoded + [row])[..|decoded|] == decoded;
  }

  method FillSlots(before: Stats, row: VariantRow, specs: seq<MetricSpec>) returns (stats: Stats)
    requires |row.totals| == |specs|
    ensures stats == FillRow(before, row, specs, |specs|)
  {
    stats := before;
    for i := 0 to |specs|
      invariant stats == FillRow(before, row, specs, i)
    {
      var id := specs[i].metricId;
      var variants := if id in stats then stats[id] else map[];
      stats := stats[id := variants[row.variant := VariantStats(row.n, row.totals[i].0, row.totals[i].1)]];
    }
  }

  /** What the loop has of the first `k` rows. */
  ghost predicate DecodedSoFar(names: seq<string>, rows: seq<seq<Cell>>, specs: seq<MetricSpec>, k: nat,
                               decoded: seq<VariantRow>, counts: map<string, nat>, stats: Stats)
  {
    && k <= |rows| && DecodeAll(names, rows[..k], |specs|) == Some(decoded)
    && (forall l :: 0 <= l < |decoded| ==> |decoded[l].totals| == |specs|)
    && counts == CountsOf(decoded) && stats == Filled(decoded, specs)
  }

  /** The loop's body; None for the error when a column is missing. */
  method DecodeNext(names: seq<string>, rows: seq<seq<Cell>>, specs: seq<MetricSpec>, k: nat,
                    ghost decoded: seq<VariantRow>, counts: map<string, nat>, stats: Stats)
    returns (row: Option<VariantRow>, counts': map<string, nat>, stats': Stats)
    requires k < |rows| && DecodedSoFar(names, rows, specs, k, decoded, counts, stats)
    ensures row.None? ==> DecodeAll(names, rows, |specs|).None?
    ensures row.Some? ==> DecodedSoFar(names, rows, specs, k + 1, decoded + [row.value], counts', stats')
  {
    row, counts', stats' := DecodeRow(names, rows[k], |specs|), counts, stats;
    if row.None? {
      assert rows[..k + 1][..k] == rows[..k];
      DecodeStops(names, rows, |specs|, k + 1);
    } else {
      counts' := counts[row.value.variant := row.value.n];
      stats' := FillSlots(stats, row.value, specs);
      RowDecoded(names, rows, specs, k, decoded, row.value);
    }
  }

  /** `decode_rows`; None for the error when a column is missing. */
  method DecodeRows(names: seq<string>, rows: seq<seq<Cell>>, specs: seq<MetricSpec>)
    returns (result: Option<(map<string, nat>, Stats)>)
    ensures var decoded := DecodeAll(names, rows, |specs|);
            result == if decoded.None? then None else Some((CountsOf(decoded.value), Filled(decoded.value, specs)))
  {
    var counts, stats := map[], EmptyStats(specs);
    ghost var decoded: seq<VariantRow> := [];
    for k := 0 to |rows|
      invariant DecodedSoFar(names, rows, specs, k, decoded, counts, stats)
    {
      var row;
      row, counts, stats := DecodeNext(names, rows, specs, k, decoded, counts, stats);
      if row.None? {
        return None;
      }
      decoded := decoded + [row.value];
    }
    assert rows[..|rows|] == rows;
    return Some((counts, stats));
  }

  ghost predicate DistinctMetrics(specs: seq<MetricSpec>)
  {
    forall i, j :: 0 <= i < j < |specs| ==> specs[i].metricId != specs[j].metricId
  }

  ghost predicate DistinctVariants(decoded: seq<VariantRow>)
  {
    forall k, l :: 0 <= k < l < |decoded| ==> decoded[k].variant != decoded[l].variant
  }

  function Lookup(stats: Stats, id: int, variant: string): Option<VariantStats>
  {
    if id in stats && variant in stats[id] then Some(stats[id][variant]) else None
  }

  lemma {:induction false} FillRowAt(stats: Stats, row: VariantRow, specs: seq<MetricSpec>, i: nat, j: nat,
                                     variant: string)
    requires i <= |specs| && |row.totals| == |specs| && j < |specs| && DistinctMetrics(specs)
    ensures Lookup(FillRow(stats, row, specs, i), specs[j].metricId, variant) ==
            if j < i && variant == row.variant then Some(VariantStats(row.n, row.totals[j].0, row.totals[j].1))
            else Lookup(stats, specs[j].metricId, variant)
  {
    if i > 0 {
      FillRowAt(stats, row, specs, i - 1, j, variant);
    }
  }

  lemma {:induction false} EmptyKeys(specs: seq<MetricSpec>, id: int)
    ensures id in EmptyStats(specs) <==> exists i :: 0 <= i < |specs| && specs[i].metricId == id
    ensures id in EmptyStats(specs) ==> EmptyStats(specs)[id] == map[]
  {
    if specs != [] {
      EmptyKeys(specs[..|specs| - 1], id);
    }
  }

  lemma {:induction false} FilledKeys(stats: Stats, row: VariantRow, specs: seq<MetricSpec>, i: nat, id: int,
                                      variant: string)
    requires i <= |specs| && |row.totals| == |specs|
    ensures var filled := FillRow(stats, row, specs, i);
            var met := exists j :: 0 <= j < i && specs[j].metricId == id;
            && (id in filled <==> id in stats || met)
            && (id in filled ==>
                  (variant in filled[id] <==> (id in stats && variant in stats[id]) || (met && variant == row.variant)))
  {
    if i > 0 {
      FilledKeys(stats, row, specs, i - 1, id, variant);
    }
  }

  /** Every metric has its dictionary, and a variant is in it exactly if the result has a row for it. */
  lemma {:induction false} DecodedKeys(decoded: seq<VariantRow>, specs: seq<MetricSpec>, id: int, variant: string)
    requires forall k :: 0 <= k < |decoded| ==> |decoded[k].totals| == |specs|
    ensures id in Filled(decoded, specs) <==> exists i :: 0 <= i < |specs| && specs[i].metricId == id
    ensures id in Filled(decoded, specs) ==>
              (variant in Filled(decoded, specs)[id] <==>
               exists k :: 0 <= k < |decoded| && decoded[k].variant == variant)
    ensures variant in CountsOf(decoded) <==> exists k :: 0 <= k < |decoded| && decoded[k].variant == variant
  {
    if decoded == [] {
      EmptyKeys(specs, id);
    } else {
      var n := |decoded| - 1;
      DecodedKeys(decoded[..n], specs, id, variant);
      FilledKeys(Filled(decoded[..n], specs), decoded[n], specs, |specs|, id, variant);
      assert forall k :: 0 <= k < n ==> decoded[..n][k] == decoded[k];
    }
  }

  /** Each row's statistics are found under its metric and variant. */
  lemma {:induction false} DecodedAt(decoded: seq<VariantRow>, specs: seq<MetricSpec>, k: nat, i: nat)
    requires (forall k :: 0 <= k < |decoded| ==> |decoded[k].totals| == |specs|) && k < |decoded| && i < |specs|
    requires DistinctMetrics(specs) && DistinctVariants(decoded)
    ensures Lookup(Filled(decoded, specs), specs[i].metricId, decoded[k].variant) ==
            Some(VariantStats(decoded[k].n, decoded[k].totals[i].0, decoded[k].totals[i].1))
    ensures decoded[k].variant in CountsOf(decoded) && CountsOf(decoded)[decoded[k].variant] == decoded[k].n
  {
    var n := |decoded| - 1;
    FillRowAt(Filled(decoded[..n], specs), decoded[n], specs, |specs|, i, decoded[k].variant);
    if k < n {
      DecodedAt(decoded[..n], specs, k, i);
    }
  }
}
