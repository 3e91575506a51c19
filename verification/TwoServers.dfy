/** The two PPS-GC servers (pps-garbled-circuits/src/lib.rs): every batch is run twice with
    the roles swapped, and the exclusive or of the servers' tables follows the plain append. */
module TwoServers {
  import opened Bits
  import opened BatchedUpdate

  /** Blindings are drawn from a seeded generator. */
  class BlindingRng {
    const draws: nat -> nat
    var pos: nat

    constructor (draws: nat -> nat)
      ensures this.draws == draws && pos == 0
    {
      this.draws := draws;
      pos := 0;
    }

    method RandomRow(l: nat) returns (row: seq<Location>)
      modifies this`pos
      ensures row == RowFrom(draws, old(pos), l) && pos == old(pos) + l
    {
      row := [];
      for j := 0 to l
        invariant row == RowFrom(draws, old(pos), j) && pos == old(pos) + j
      {
        row := row + [draws(pos)];
        pos := pos + 1;
      }
    }

    method RandomTable(m: nat, l: nat) returns (t: Table)
      modifies this`pos
      ensures t == TableFrom(draws, old(pos), m, l) && pos == RowStart(old(pos), m, l)
    {
      var rows: seq<seq<Location>> := [];
      for i := 0 to m
        invariant rows == RowsFrom(draws, old(pos), i, l) && pos == RowStart(old(pos), i, l)
      {
        var row := RandomRow(l);
        rows := rows + [row];
      }
      t := Table(m, l, rows);
    }

    method RandomColumn(m: nat) returns (column: seq<Word>)
      modifies this`pos
      ensures column == ColumnFrom(draws, old(pos), m) && pos == old(pos) + m
    {
      column := [];
      for i := 0 to m
        invariant column == ColumnFrom(draws, old(pos), i) && pos == old(pos) + i
      {
        column := column + [draws(pos) % 65536];
        pos := pos + 1;
      }
    }
  }

  function RowFrom(draws: nat -> nat, pos: nat, l: nat): (row: seq<Location>)
    ensures |row| == l
  {
    seq(l, j requires 0 <= j < l => draws(pos + j))
  }

  function RowStart(pos: nat, i: nat, l: nat): nat {
    if i == 0 then pos else RowStart(pos, i - 1, l) + l
  }

  function RowsFrom(draws: nat -> nat, pos: nat, m: nat, l: nat): (rows: seq<seq<Location>>)
    ensures |rows| == m && forall i :: 0 <= i < m ==> |rows[i]| == l
  {
    if m == 0 then [] else RowsFrom(draws, pos, m - 1, l) + [RowFrom(draws, RowStart(pos, m - 1, l), l)]
  }

  function TableFrom(draws: nat -> nat, pos: nat, m: nat, l: nat): (t: Table)
    ensures t.m == m && t.l == l && Shaped(t.rows, m, l)
  {
    Table(m, l, RowsFrom(draws, pos, m, l))
  }

  function ColumnFrom(draws: nat -> nat, pos: nat, m: nat): (column: seq<Word>)
    ensures |column| == m
  {
    seq(m, i requires 0 <= i < m => draws(pos + i) % 65536)
  }

  /** The blinding table and column that a seed gives. */
  function BlindTable(seed: nat -> nat, m: nat, l: nat): Table {
    TableFrom(seed, 0, m, l)
  }

  function BlindColumn(seed: nat -> nat, m: nat, l: nat): seq<Word> {
    ColumnFrom(seed, RowStart(0, m, l), m)
  }

  // ---------- one run ----------

  datatype Server = Server(table: Table, indexes: seq<Word>)

  ghost predicate Sized(s: Server, m: nat, l: nat) {
    WellSized(s.table) && s.table.m == m && s.table.l == l && |s.indexes| == m
  }

  function Inputs(gb: seq<Word>, ev: seq<Word>, locations: seq<Location>): (r: seq<Encoded>)
    requires |gb| == |ev| == |locations|
    ensures |r| == |gb|
  {
    seq(|gb|, k requires 0 <= k < |gb| => Encoded(gb[k], ev[k], locations[k]))
  }

  /** What one run gives the evaluator. */
  ghost predicate RunGives(gb: Server, ev: Server, m: nat, l: nat, gbSeed: nat -> nat, evSeed: nat -> nat,
                           strategy: Strategy, signals: seq<Signal>, rows: seq<seq<Location>>, indexes: seq<Word>)
    requires Sized(gb, m, l) && Sized(ev, m, l)
  {
    && |rows| == |indexes| == m
    && forall i :: 0 <= i < m ==>
      RowUpdated(ev.table, BlindTable(gbSeed, m, l), BlindTable(evSeed, m, l), gb.indexes, ev.indexes,
                 BlindColumn(gbSeed, m, l), BlindColumn(evSeed, m, l), strategy, signals, i, rows[i], indexes[i])
  }

  /** A garbler and an evaluator run the update circuit: each draws its blinding table and
      then its blinding column from its own seed. */
  method RunUpdate(gb: Server, ev: Server, m: nat, l: nat, gbSeed: nat -> nat, evSeed: nat -> nat,
                   strategy: Strategy, gbRecipients: seq<Word>, evRecipients: seq<Word>, locations: seq<Location>)
    returns (outcome: Outcome)
    requires Sized(gb, m, l) && Sized(ev, m, l) && m > 0 && l > 0
    requires |gbRecipients| == |evRecipients| == |locations|
    ensures outcome.Updated? <==> |locations| > 0 && m < 65536 && l < 65536
    ensures outcome.Updated? ==>
      RunGives(gb, ev, m, l, gbSeed, evSeed, strategy, RevealAll(Inputs(gbRecipients, evRecipients, locations)),
               outcome.rows, outcome.indexes)
  {
    hide RowUpdated, HandledRows, XorWord, RowsFrom, RowStart;
    var garbler := new BlindingRng(gbSeed);
    var evaluator := new BlindingRng(evSeed);
    var tableGb := garbler.RandomTable(m, l);
    var tableEv := evaluator.RandomTable(m, l);
    var columnGb := garbler.RandomColumn(m);
    var columnEv := evaluator.RandomColumn(m);
    ghost var handled;
    outcome, handled := BatchedUpdateTable(ev.table, tableGb, tableEv, gb.indexes, ev.indexes, columnGb, columnEv,
                                           strategy, Inputs(gbRecipients, evRecipients, locations));
  }

  // ---------- one batch ----------

  /** The exclusive or of the servers' state. */
  function Joined(a: Server, b: Server): (st: State)
    requires |a.table.rows| == |b.table.rows| && |a.indexes| == |b.indexes|
    requires forall i :: 0 <= i < |a.table.rows| ==> |a.table.rows[i]| == |b.table.rows[i]|
    ensures |st.rows| == |a.table.rows| && |st.counts| == |a.indexes|
  {
    State(seq(|a.table.rows|, i requires 0 <= i < |a.table.rows| => JoinedRow(a.table.rows[i], b.table.rows[i])),
          seq(|a.indexes|, i requires 0 <= i < |a.indexes| => XorWord(a.indexes[i], b.indexes[i])))
  }

  function JoinedRow(x: seq<Location>, y: seq<Location>): (r: seq<Location>)
    requires |x| == |y|
    ensures |r| == |x|
  {
    seq(|x|, j requires 0 <= j < |x| => BitXor(x[j], y[j]))
  }

  /** A signal shared between the servers. */
  datatype Share = Share(recipientA: Word, recipientB: Word, locationA: Location, locationB: Location)

  function Open(s: Share): Signal {
    Signal(XorWord(s.recipientA, s.recipientB), BitXor(s.locationA, s.locationB))
  }

  function OpenAll(shares: seq<Share>): (r: seq<Signal>)
    ensures |r| == |shares|
  {
    seq(|shares|, k requires 0 <= k < |shares| => Open(shares[k]))
  }

  function ToA(shares: seq<Share>): (r: seq<Signal>)
    ensures |r| == |shares|
  {
    seq(|shares|, k requires 0 <= k < |shares| =>
      Signal(XorWord(shares[k].recipientA, shares[k].recipientB), shares[k].locationA))
  }

  function ToB(shares: seq<Share>): (r: seq<Signal>)
    ensures |r| == |shares|
  {
    seq(|shares|, k requires 0 <= k < |shares| =>
      Signal(XorWord(shares[k].recipientA, shares[k].recipientB), shares[k].locationB))
  }

  /** The locations a row gets at A and at B are shares of the ones sent to it. */
  lemma {:induction false} AddressedShares(shares: seq<Share>, i: nat)
    ensures var a, b, open := Addressed(ToA(shares), i), Addressed(ToB(shares), i), Addressed(OpenAll(shares), i);
      |a| == |b| == |open| && forall k :: 0 <= k < |open| ==> open[k] == BitXor(a[k], b[k])
  {
    hide BitXor, XorWord;
    if shares != [] {
      var front := shares[..|shares| - 1];
      AddressedShares(front, i);
      assert ToA(shares)[..|shares| - 1] == ToA(front);
      assert ToB(shares)[..|shares| - 1] == ToB(front);
      assert OpenAll(shares)[..|shares| - 1] == OpenAll(front);
    }
  }

  /** A slot of the joined row. */
  lemma SlotJoined(blindA: Location, blindB: Location, x: Location, y: Location)
    ensures BitXor(BitXor(BitXor(blindB, blindA), x), BitXor(BitXor(blindA, blindB), y)) == BitXor(x, y)
  {
    hide BitXor;
    var blind := BitXor(blindA, blindB);
    BitXorComm(blindA, blindB);
    BitXorSwapMiddle(blind, x, blind, y);
    BitXorSelf(blind);
    BitXorComm(0, BitXor(x, y));
    XorZero(BitXor(x, y));
  }

  /** The index entries of two runs on swapped roles join to the count when the strategies
      differ and to zero when they are equal. */
  lemma CountJoined(sA: Strategy, sB: Strategy, columnA: Word, columnB: Word, count: Word)
    ensures XorWord(IndexOut(sA, XorWord(columnB, columnA), count), IndexOut(sB, XorWord(columnA, columnB), count))
         == (if sA != sB then count else 0)
  {
    hide BitXor;
    var blinding := XorWord(columnA, columnB);
    BitXorComm(columnA, columnB);
    BitXorSelf(blinding);
    BitXorSelf(BitXor(blinding, count));
    BitXorCancel(blinding, count);
    BitXorComm(blinding, BitXor(blinding, count));
  }

  /** One row after both runs. */
  lemma RowJoined(a: Server, b: Server, m: nat, l: nat, seedA: nat -> nat, seedB: nat -> nat, shares: seq<Share>,
                  i: nat, rowA: seq<Location>, indexA: Word, rowB: seq<Location>, indexB: Word)
    requires Sized(a, m, l) && Sized(b, m, l) && i < m
    requires RowUpdated(b.table, BlindTable(seedA, m, l), BlindTable(seedB, m, l), a.indexes, b.indexes,
                        BlindColumn(seedA, m, l), BlindColumn(seedB, m, l), Strategy.A, ToB(shares), i, rowB, indexB)
    requires RowUpdated(a.table, BlindTable(seedB, m, l), BlindTable(seedA, m, l), b.indexes, a.indexes,
                        BlindColumn(seedB, m, l), BlindColumn(seedA, m, l), Strategy.B, ToA(shares), i, rowA, indexA)
    ensures var result := AppendAll(Joined(a, b), OpenAll(shares));
      && |rowA| == |rowB| == l
      && |result.rows| == |result.counts| == m
      && result.rows[i] == JoinedRow(rowA, rowB)
      && result.counts[i] == XorWord(indexA, indexB)
  {
    hide BitXor, XorWord, RowsFrom, RowStart, ColumnFrom, Addressed, AppendAll, SlotValue, Placed;
    var tableA, tableB := BlindTable(seedA, m, l).rows, BlindTable(seedB, m, l).rows;
    var columnA, columnB := BlindColumn(seedA, m, l), BlindColumn(seedB, m, l);
    var st, open := Joined(a, b), Addressed(OpenAll(shares), i);
    AppendAllRow(st, OpenAll(shares), i);
    AddressedShares(shares, i);
    XorWordComm(a.indexes[i], b.indexes[i]);
    var start := st.counts[i];
    CountJoined(Strategy.B, Strategy.A, columnA[i], columnB[i], start + Placed(start, |open|, l));
    forall j | 0 <= j < l
      ensures AppendAll(st, OpenAll(shares)).rows[i][j] == BitXor(rowA[j], rowB[j])
    {
      SlotJoined(tableA[i][j], tableB[i][j],
                 SlotValue(a.table.rows[i][j], Addressed(ToA(shares), i), start, j),
                 SlotValue(b.table.rows[i][j], Addressed(ToB(shares), i), start, j));
      SlotShares(a.table.rows[i][j], b.table.rows[i][j], Addressed(ToA(shares), i), Addressed(ToB(shares), i),
                 open, start, j);
    }
  }

  /** For any strategies of the two runs: the index entries of a row join to its new count if
      and only if the strategies differ or the row is still empty. */
  lemma StrategiesMustDiffer(a: Server, b: Server, m: nat, l: nat, seedA: nat -> nat, seedB: nat -> nat,
                             shares: seq<Share>, sA: Strategy, sB: Strategy, i: nat,
                             rowA: seq<Location>, indexA: Word, rowB: seq<Location>, indexB: Word)
    requires Sized(a, m, l) && Sized(b, m, l) && i < m
    requires RowUpdated(b.table, BlindTable(seedA, m, l), BlindTable(seedB, m, l), a.indexes, b.indexes,
                        BlindColumn(seedA, m, l), BlindColumn(seedB, m, l), sB, ToB(shares), i, rowB, indexB)
    requires RowUpdated(a.table, BlindTable(seedB, m, l), BlindTable(seedA, m, l), b.indexes, a.indexes,
                        BlindColumn(seedB, m, l), BlindColumn(seedA, m, l), sA, ToA(shares), i, rowA, indexA)
    ensures var count := AppendAll(Joined(a, b), OpenAll(shares)).counts[i];
      XorWord(indexA, indexB) == count <==> sA != sB || count == 0
  {
    hide BitXor, XorWord, RowsFrom, RowStart, ColumnFrom, Addressed, AppendAll, SlotValue, Placed, IndexOut;
    var columnA, columnB := BlindColumn(seedA, m, l), BlindColumn(seedB, m, l);
    var st, open := Joined(a, b), Addressed(OpenAll(shares), i);
    AppendAllRow(st, OpenAll(shares), i);
    AddressedShares(shares, i);
    XorWordComm(a.indexes[i], b.indexes[i]);
    CountJoined(sA, sB, columnA[i], columnB[i], st.counts[i] + Placed(st.counts[i], |open|, l));
  }

  lemma XorWordComm(x: Word, y: Word)
    ensures XorWord(x, y) == XorWord(y, x)
  {
    BitXorComm(x, y);
  }

  lemma SlotShares(x: Location, y: Location, a: seq<Location>, b: seq<Location>, open: seq<Location>, start: nat,
                   j: nat)
    requires |a| == |b| == |open| && forall k :: 0 <= k < |open| ==> open[k] == BitXor(a[k], b[k])
    ensures BitXor(SlotValue(x, a, start, j), SlotValue(y, b, start, j)) == SlotValue(BitXor(x, y), open, start, j)
  {
    hide BitXor;
  }

  function ServerOf(m: nat, l: nat, rows: seq<seq<Location>>, indexes: seq<Word>): Server {
    Server(Table(m, l, rows), indexes)
  }

  /** What a batch leaves: B holds what it evaluated for A under strategy A, A what it evaluated
      for B under strategy B, both on the old state and with the same blindings. */
  ghost predicate BatchGives(a: Server, b: Server, m: nat, l: nat, seedA: nat -> nat, seedB: nat -> nat,
                             shares: seq<Share>, a': Server, b': Server)
    requires Sized(a, m, l) && Sized(b, m, l)
  {
    && RunGives(a, b, m, l, seedA, seedB, Strategy.A, ToB(shares), b'.table.rows, b'.indexes)
    && RunGives(b, a, m, l, seedB, seedA, Strategy.B, ToA(shares), a'.table.rows, a'.indexes)
  }

  /** One batch: A garbles for B under strategy A, then B garbles for A under strategy B. */
  method RunBatch(a: Server, b: Server, m: nat, l: nat, seedA: nat -> nat, seedB: nat -> nat, shares: seq<Share>)
    returns (ok: bool, a': Server, b': Server)
    requires Sized(a, m, l) && Sized(b, m, l) && m > 0 && l > 0
    ensures ok <==> |shares| > 0 && m < 65536 && l < 65536
    ensures Sized(a', m, l) && Sized(b', m, l)
    ensures !ok ==> a' == a && b' == b
    ensures ok ==> BatchGives(a, b, m, l, seedA, seedB, shares, a', b')
    ensures ok ==> Joined(a', b') == AppendAll(Joined(a, b), OpenAll(shares))
  {
    hide RowUpdated, XorWord, BitXor, AppendAll;
    a', b' := a, b;
    var recipientsA := seq(|shares|, k requires 0 <= k < |shares| => shares[k].recipientA);
    var recipientsB := seq(|shares|, k requires 0 <= k < |shares| => shares[k].recipientB);
    var locationsA := seq(|shares|, k requires 0 <= k < |shares| => shares[k].locationA);
    var locationsB := seq(|shares|, k requires 0 <= k < |shares| => shares[k].locationB);
    var forB := RunUpdate(a, b, m, l, seedA, seedB, Strategy.A, recipientsA, recipientsB, locationsB);
    var forA := RunUpdate(b, a, m, l, seedB, seedA, Strategy.B, recipientsB, recipientsA, locationsA);
    ok := forB.Updated? && forA.Updated?;
    if ok {
      SignalLists(shares, recipientsA, recipientsB, locationsA, locationsB);
      BatchJoined(a, b, m, l, seedA, seedB, shares, forA.rows, forA.indexes, forB.rows, forB.indexes);
      a', b' := ServerOf(m, l, forA.rows, forA.indexes), ServerOf(m, l, forB.rows, forB.indexes);
    }
  }

  lemma SignalLists(shares: seq<Share>, recipientsA: seq<Word>, recipientsB: seq<Word>,
                    locationsA: seq<Location>, locationsB: seq<Location>)
    requires |recipientsA| == |recipientsB| == |locationsA| == |locationsB| == |shares|
    requires forall k :: 0 <= k < |shares| ==>
      shares[k] == Share(recipientsA[k], recipientsB[k], locationsA[k], locationsB[k])
    ensures RevealAll(Inputs(recipientsA, recipientsB, locationsB)) == ToB(shares)
    ensures RevealAll(Inputs(recipientsB, recipientsA, locationsA)) == ToA(shares)
  {
    hide XorWord;
    forall k | 0 <= k < |shares|
      ensures XorWord(recipientsB[k], recipientsA[k]) == XorWord(recipientsA[k], recipientsB[k])
    {
      XorWordComm(recipientsA[k], recipientsB[k]);
    }
  }

  lemma BatchJoined(a: Server, b: Server, m: nat, l: nat, seedA: nat -> nat, seedB: nat -> nat, shares: seq<Share>,
                    rowsA: seq<seq<Location>>, indexesA: seq<Word>, rowsB: seq<seq<Location>>, indexesB: seq<Word>)
    requires Sized(a, m, l) && Sized(b, m, l)
    requires RunGives(a, b, m, l, seedA, seedB, Strategy.A, ToB(shares), rowsB, indexesB)
    requires RunGives(b, a, m, l, seedB, seedA, Strategy.B, ToA(shares), rowsA, indexesA)
    ensures var a', b' := ServerOf(m, l, rowsA, indexesA), ServerOf(m, l, rowsB, indexesB);
      && Sized(a', m, l) && Sized(b', m, l)
      && Joined(a', b') == AppendAll(Joined(a, b), OpenAll(shares))
  {
    hide RowUpdated, XorWord, BitXor, AppendAll, RowsFrom, ColumnFrom;
    var result := AppendAll(Joined(a, b), OpenAll(shares));
    forall i | 0 <= i < m
      ensures |rowsA[i]| == |rowsB[i]| == l
      ensures result.rows[i] == JoinedRow(rowsA[i], rowsB[i]) && result.counts[i] == XorWord(indexesA[i], indexesB[i])
    {
      RowJoined(a, b, m, l, seedA, seedB, shares, i, rowsA[i], indexesA[i], rowsB[i], indexesB[i]);
    }
    var joined := Joined(ServerOf(m, l, rowsA, indexesA), ServerOf(m, l, rowsB, indexesB));
    assert joined.rows == result.rows;
    assert joined.counts == result.counts;
  }

  // ---------- whole runs ----------

  function Flatten(batches: seq<seq<Share>>): seq<Share> {
    if batches == [] then [] else Flatten(batches[..|batches| - 1]) + batches[|batches| - 1]
  }

  /** The states between the batches: each is what its batch leaves of the one before. */
  ghost predicate Trace(states: seq<(Server, Server)>, m: nat, l: nat, seedsA: nat -> nat -> nat,
                        seedsB: nat -> nat -> nat, batches: seq<seq<Share>>)
  {
    && |states| >= 1 && |states| <= |batches| + 1
    && (forall k :: 0 <= k < |states| ==> Sized(states[k].0, m, l) && Sized(states[k].1, m, l))
    && forall k :: 0 <= k < |states| - 1 ==>
      BatchGives(states[k].0, states[k].1, m, l, seedsA(k), seedsB(k), batches[k], states[k + 1].0, states[k + 1].1)
  }

  /** Any sequence of batches, each with its own seeds: the joined state is the plain append of
      all signals in order. It ends at the first empty batch. */
  method RunBatches(a: Server, b: Server, m: nat, l: nat, seedsA: nat -> nat -> nat, seedsB: nat -> nat -> nat,
                    batches: seq<seq<Share>>)
    returns (ok: bool, a': Server, b': Server, ghost states: seq<(Server, Server)>)
    requires Sized(a, m, l) && Sized(b, m, l) && 0 < m < 65536 && 0 < l < 65536
    ensures Trace(states, m, l, seedsA, seedsB, batches)
    ensures states[0] == (a, b) && states[|states| - 1] == (a', b') && (ok ==> |states| == |batches| + 1)
    ensures ok <==> forall k :: 0 <= k < |batches| ==> batches[k] != []
    ensures Sized(a', m, l) && Sized(b', m, l)
    ensures ok ==> Joined(a', b') == AppendAll(Joined(a, b), OpenAll(Flatten(batches)))
  {
    hide AppendAll, Joined, Open, Sized, BatchGives;
    a', b', ok := a, b, true;
    states := [(a, b)];
    assert batches[..0] == [] && OpenAll(Flatten([])) == [];
    AppendNone(a, b, m, l);
    for k := 0 to |batches|
      invariant Sized(a', m, l) && Sized(b', m, l)
      invariant forall q :: 0 <= q < k ==> batches[q] != []
      invariant |states| == k + 1 && states[0] == (a, b) && states[k] == (a', b')
      invariant Trace(states, m, l, seedsA, seedsB, batches)
      invariant Compatible(a, b) && Compatible(a', b')
      invariant Joined(a', b') == AppendAll(Joined(a, b), OpenAll(Flatten(batches[..k])))
    {
      ok, a', b' := RunBatch(a', b', m, l, seedsA(k), seedsB(k), batches[k]);
      SizedCompatible(a', b', m, l);
      if !ok {
        return;
      }
      states := states + [(a', b')];
      assert batches[..k + 1][..k] == batches[..k];
      OpenConcat(Flatten(batches[..k]), batches[k]);
      AppendAllConcat(Joined(a, b), OpenAll(Flatten(batches[..k])), OpenAll(batches[k]));
    }
    assert batches[..|batches|] == batches;
  }

  /** The servers' states can be joined. */
  ghost predicate Compatible(a: Server, b: Server) {
    && |a.table.rows| == |b.table.rows| == |a.indexes| == |b.indexes|
    && forall i :: 0 <= i < |a.table.rows| ==> |a.table.rows[i]| == |b.table.rows[i]|
  }

  lemma SizedCompatible(a: Server, b: Server, m: nat, l: nat)
    requires Sized(a, m, l) && Sized(b, m, l)
    ensures Compatible(a, b)
  {
  }

  lemma AppendNone(a: Server, b: Server, m: nat, l: nat)
    requires Sized(a, m, l) && Sized(b, m, l)
    ensures Compatible(a, b) && AppendAll(Joined(a, b), []) == Joined(a, b)
  {
  }

  lemma OpenConcat(x: seq<Share>, y: seq<Share>)
    ensures OpenAll(x + y) == OpenAll(x) + OpenAll(y)
  {
    hide Open;
  }
}
