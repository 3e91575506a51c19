/** What the blindings of the batched update hide (pps-garbled-circuits/src/plain.rs and
    batched_update.rs): a server learns nothing from its own new state alone, because every state
    comes out under some seed of the other server. */
module Blinding {
  import opened Bits
  import opened BatchedUpdate
  import opened TwoServers

  /** A seed that draws the given table, row by row, and then the given column. */
  function SeedFor(rows: seq<seq<Location>>, column: seq<Word>, m: nat, l: nat): nat -> nat
    requires Shaped(rows, m, l) && |column| == m && l > 0
  {
    (p: nat) =>
      if p < m * l then RowEntry(rows, m, l, p) else if p - m * l < m then column[p - m * l] else 0
  }

  function RowEntry(rows: seq<seq<Location>>, m: nat, l: nat, p: nat): Location
    requires Shaped(rows, m, l) && l > 0 && p < m * l
  {
    assert l * m == m * l;
    DivLess(p, l, m);
    rows[p / l][p % l]
  }

  lemma {:induction false} RowStartIs(i: nat, l: nat)
    ensures RowStart(0, i, l) == i * l
  {
    if i > 0 {
      RowStartIs(i - 1, l);
      MulDistrib(i - 1, 1, l);
    }
  }

  lemma {:induction false} RowsAt(draws: nat -> nat, m: nat, l: nat, i: nat, j: nat)
    requires i < m && j < l
    ensures RowsFrom(draws, 0, m, l)[i][j] == draws(i * l + j)
  {
    if i < m - 1 {
      RowsAt(draws, m - 1, l, i, j);
    } else {
      RowStartIs(i, l);
    }
  }

  lemma SeedDraws(rows: seq<seq<Location>>, column: seq<Word>, m: nat, l: nat, i: nat, j: nat)
    requires Shaped(rows, m, l) && |column| == m && l > 0 && i < m && j < l
    ensures SeedFor(rows, column, m, l)(i * l + j) == rows[i][j]
    ensures SeedFor(rows, column, m, l)(m * l + i) == column[i]
  {
    MulMono(i + 1, m, l);
    MulDistrib(i, 1, l);
    DivUnique(i * l + j, l, i, j);
  }

  /** Every table and every column come from one seed: they use disjoint draws, and all of them. */
  lemma SeedCovers(rows: seq<seq<Location>>, column: seq<Word>, m: nat, l: nat)
    requires Shaped(rows, m, l) && |column| == m && l > 0
    ensures BlindTable(SeedFor(rows, column, m, l), m, l).rows == rows
    ensures BlindColumn(SeedFor(rows, column, m, l), m, l) == column
  {
    hide SeedFor, RowsFrom;
    var seed := SeedFor(rows, column, m, l);
    RowStartIs(m, l);
    forall i | 0 <= i < m ensures RowsFrom(seed, 0, m, l)[i] == rows[i] {
      forall j | 0 <= j < l ensures RowsFrom(seed, 0, m, l)[i][j] == rows[i][j] {
        RowsAt(seed, m, l, i, j);
        SeedDraws(rows, column, m, l, i, j);
      }
    }
    forall i | 0 <= i < m ensures seed(m * l + i) == column[i] {
      SeedDraws(rows, column, m, l, i, 0);
    }
  }

  // ---------- one run ----------

  /** Under strategy A the output unblinds to the count, under strategy B it is the blinding. */
  lemma IndexUnblinds(blinding: Word, count: Word)
    ensures XorWord(IndexOut(Strategy.A, blinding, count), blinding) == count
    ensures IndexOut(Strategy.B, blinding, count) == blinding
  {
    hide BitXor;
    BitXorComm(BitXor(blinding, count), blinding);
    BitXorCancel(blinding, count);
  }

  /** The new count of a row. */
  ghost function NewCount(gb: Server, ev: Server, m: nat, l: nat, signals: seq<Signal>, i: nat): (count: Word)
    requires Sized(gb, m, l) && Sized(ev, m, l) && i < m && l < 65536
  {
    var start := XorWord(gb.indexes[i], ev.indexes[i]);
    start + Placed(start, |Addressed(signals, i)|, l)
  }

  /** The garbler's blinding of a row's index that makes `index` the output. */
  ghost function ColumnEntry(strategy: Strategy, evColumn: Word, count: Word, index: Word): Word {
    XorWord(if strategy == A then XorWord(index, count) else index, evColumn)
  }

  lemma ColumnEntryWorks(strategy: Strategy, evColumn: Word, count: Word, index: Word)
    ensures IndexOut(strategy, XorWord(ColumnEntry(strategy, evColumn, count, index), evColumn), count) == index
  {
    hide BitXor;
    var x := if strategy == A then XorWord(index, count) else index;
    BitXorCancel(evColumn, x);
    BitXorCancel(count, index);
  }

  lemma RowEntryWorks(row: Location, blindEv: Location, value: Location)
    ensures BitXor(BitXor(BitXor(BitXor(row, value), blindEv), blindEv), value) == row
  {
    hide BitXor;
    BitXorCancel(blindEv, BitXor(row, value));
    BitXorCancel(value, row);
  }

  ghost function HidingRows(gb: Server, ev: Server, m: nat, l: nat, evSeed: nat -> nat, signals: seq<Signal>,
                            rows: seq<seq<Location>>): (blind: seq<seq<Location>>)
    requires Sized(gb, m, l) && Sized(ev, m, l) && Shaped(rows, m, l)
    ensures Shaped(blind, m, l)
  {
    seq(m, i requires 0 <= i < m =>
      seq(l, j requires 0 <= j < l =>
        BitXor(BitXor(rows[i][j], SlotValue(ev.table.rows[i][j], Addressed(signals, i),
                                            XorWord(gb.indexes[i], ev.indexes[i]), j)),
               BlindTable(evSeed, m, l).rows[i][j])))
  }

  ghost function HidingColumn(gb: Server, ev: Server, m: nat, l: nat, evSeed: nat -> nat, strategy: Strategy,
                              signals: seq<Signal>, indexes: seq<Word>): (column: seq<Word>)
    requires Sized(gb, m, l) && Sized(ev, m, l) && |indexes| == m && l < 65536
    ensures |column| == m
  {
    seq(m, i requires 0 <= i < m =>
      ColumnEntry(strategy, BlindColumn(evSeed, m, l)[i], NewCount(gb, ev, m, l, signals, i), indexes[i]))
  }

  /** For fixed states, signals and evaluator's seed, every table and every column of indexes are
      what the evaluator gets under some seed of the garbler. */
  lemma RunHides(gb: Server, ev: Server, m: nat, l: nat, evSeed: nat -> nat, strategy: Strategy,
                 signals: seq<Signal>, rows: seq<seq<Location>>, indexes: seq<Word>)
    requires Sized(gb, m, l) && Sized(ev, m, l) && Shaped(rows, m, l) && |indexes| == m && 0 < l < 65536
    ensures exists gbSeed: nat -> nat :: RunGives(gb, ev, m, l, gbSeed, evSeed, strategy, signals, rows, indexes)
  {
    hide XorWord, BitXor, SeedFor, RowsFrom, RowStart, ColumnFrom, Addressed, SlotValue, Placed, IndexOut;
    var blind := HidingRows(gb, ev, m, l, evSeed, signals, rows);
    var column := HidingColumn(gb, ev, m, l, evSeed, strategy, signals, indexes);
    var gbSeed := SeedFor(blind, column, m, l);
    SeedCovers(blind, column, m, l);
    forall i | 0 <= i < m
      ensures RowUpdated(ev.table, BlindTable(gbSeed, m, l), BlindTable(evSeed, m, l), gb.indexes, ev.indexes,
                         BlindColumn(gbSeed, m, l), BlindColumn(evSeed, m, l), strategy, signals, i, rows[i],
                         indexes[i])
    {
      var a, start := Addressed(signals, i), XorWord(gb.indexes[i], ev.indexes[i]);
      ColumnEntryWorks(strategy, BlindColumn(evSeed, m, l)[i], NewCount(gb, ev, m, l, signals, i), indexes[i]);
      forall j | 0 <= j < l
        ensures rows[i][j] == BitXor(BitXor(BlindTable(gbSeed, m, l).rows[i][j], BlindTable(evSeed, m, l).rows[i][j]),
                                     SlotValue(ev.table.rows[i][j], a, start, j))
      {
        RowEntryWorks(rows[i][j], BlindTable(evSeed, m, l).rows[i][j], SlotValue(ev.table.rows[i][j], a, start, j));
      }
    }
    assert RunGives(gb, ev, m, l, gbSeed, evSeed, strategy, signals, rows, indexes);
  }

  /** The seeds fix what a run gives. */
  lemma RunDetermined(gb: Server, ev: Server, m: nat, l: nat, gbSeed: nat -> nat, evSeed: nat -> nat,
                      strategy: Strategy, signals: seq<Signal>, rows: seq<seq<Location>>, indexes: seq<Word>,
                      rows': seq<seq<Location>>, indexes': seq<Word>)
    requires Sized(gb, m, l) && Sized(ev, m, l)
    requires RunGives(gb, ev, m, l, gbSeed, evSeed, strategy, signals, rows, indexes)
    requires RunGives(gb, ev, m, l, gbSeed, evSeed, strategy, signals, rows', indexes')
    ensures rows == rows' && indexes == indexes'
  {
    hide XorWord, BitXor, RowsFrom, RowStart, ColumnFrom, Addressed, SlotValue, Placed, IndexOut, RowUpdated;
    forall i | 0 <= i < m ensures rows[i] == rows'[i] && indexes[i] == indexes'[i] {
      RowDetermined(ev.table, BlindTable(gbSeed, m, l), BlindTable(evSeed, m, l), gb.indexes, ev.indexes,
                    BlindColumn(gbSeed, m, l), BlindColumn(evSeed, m, l), strategy, signals, i,
                    rows[i], indexes[i], rows'[i], indexes'[i]);
    }
  }

  lemma RowDetermined(t: Table, blindGb: Table, blindEv: Table, indexGb: seq<Word>, indexEv: seq<Word>,
                      columnGb: seq<Word>, columnEv: seq<Word>, strategy: Strategy, signals: seq<Signal>, i: nat,
                      row: seq<Location>, index: Word, row': seq<Location>, index': Word)
    requires WellSized(t) && WellSized(blindGb) && WellSized(blindEv)
    requires i < t.m == blindGb.m == blindEv.m && t.l == blindGb.l == blindEv.l
    requires |indexGb| == |indexEv| == |columnGb| == |columnEv| == t.m
    requires RowUpdated(t, blindGb, blindEv, indexGb, indexEv, columnGb, columnEv, strategy, signals, i, row, index)
    requires RowUpdated(t, blindGb, blindEv, indexGb, indexEv, columnGb, columnEv, strategy, signals, i, row', index')
    ensures row == row' && index == index'
  {
    hide XorWord, BitXor, Addressed, SlotValue, Placed, IndexOut;
  }
}
