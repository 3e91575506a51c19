/** The oblivious batched update of the PPS-GC baseline (batched_update.rs): a branch-free
    double loop over slots and signals, and the plain append that it computes. */
module BatchedUpdate {
  import opened Bits

  /** A two-byte index. */
  type Word = w: nat | w < 65536

  /** A location is a 32-byte string, only ever xored: here the number with those bits. */
  type Location = nat

  function XorWord(x: Word, y: Word): (z: Word)
    ensures z == BitXor(x, y)
  {
    WordBound(x, y);
    BitXor(x, y)
  }

  lemma WordBound(x: Word, y: Word)
    ensures BitXor(x, y) < 65536
  {
    assert Pow2(16) == 65536 by { assert Pow2(8) == 256; Pow2Add(8, 8); }
    BitXorBound(x, y, 16);
  }

  /** A signal as the two servers put it in: recipient shares and the evaluator's location. */
  datatype Encoded = Encoded(gb: Word, ev: Word, location: Location)

  datatype Signal = Signal(recipient: Word, location: Location)

  // ---------- what an update means ----------

  datatype State = State(rows: seq<seq<Location>>, counts: seq<nat>)

  ghost predicate Shaped(rows: seq<seq<Location>>, m: nat, l: nat) {
    |rows| == m && forall i :: 0 <= i < m ==> |rows[i]| == l
  }

  /** Appends one signal to its recipient's row; a full row drops it. */
  function Append(st: State, s: Signal): State
    requires |st.rows| == |st.counts|
  {
    if s.recipient < |st.rows| && st.counts[s.recipient] < |st.rows[s.recipient]| then
      var r, c := s.recipient, st.counts[s.recipient];
      var row: seq<Location> := st.rows[r][c := s.location];
      State(st.rows[r := row], st.counts[r := c + 1])
    else st
  }

  function AppendAll(st: State, signals: seq<Signal>): (result: State)
    requires |st.rows| == |st.counts|
    ensures |result.rows| == |st.rows| == |result.counts|
  {
    if signals == [] then st
    else Append(AppendAll(st, signals[..|signals| - 1]), signals[|signals| - 1])
  }

  /** The locations sent to row `i`, in list order. */
  function Addressed(signals: seq<Signal>, i: nat): seq<Location> {
    if signals == [] then []
    else
      var rest, last := Addressed(signals[..|signals| - 1], i), signals[|signals| - 1];
      if last.recipient == i then rest + [last.location] else rest
  }

  /** How many of `count` signals fit into a row of `l` slots filled up to `start`. */
  function Placed(start: nat, count: nat, l: nat): nat {
    if start >= l then 0 else if count <= l - start then count else l - start
  }

  /** Slot `j` after the locations `a` were appended from `start` on. */
  function SlotValue(previous: Location, a: seq<Location>, start: nat, j: nat): Location {
    if start <= j < start + |a| then a[j - start] else previous
  }

  /** Appending one signal after another puts the k-th signal of a row into slot start + k
      while there is room, keeps every other slot and counts what was placed. */
  lemma {:induction false} AppendAllRow(st: State, signals: seq<Signal>, i: nat)
    requires |st.rows| == |st.counts| && i < |st.rows|
    ensures var a, result := Addressed(signals, i), AppendAll(st, signals);
      && result.counts[i] == st.counts[i] + Placed(st.counts[i], |a|, |st.rows[i]|)
      && |result.rows[i]| == |st.rows[i]|
      && forall j :: 0 <= j < |st.rows[i]| ==>
        result.rows[i][j] == SlotValue(st.rows[i][j], a, st.counts[i], j)
  {
    if signals != [] {
      AppendAllRow(st, signals[..|signals| - 1], i);
    }
  }

  lemma {:induction false} AppendAllConcat(st: State, x: seq<Signal>, y: seq<Signal>)
    requires |st.rows| == |st.counts|
    ensures AppendAll(AppendAll(st, x), y) == AppendAll(st, x + y)
  {
    if y == [] {
      assert x + y == x;
    } else {
      AppendAllConcat(st, x, y[..|y| - 1]);
      assert (x + y)[..|x + y| - 1] == x + y[..|y| - 1];
    }
  }

  // ---------- positions among the signals of one row ----------

  /** How many earlier signals go to the same row. */
  function Rank(signals: seq<Signal>, k: nat): nat
    requires k < |signals|
  {
    |Addressed(signals[..k], signals[k].recipient)|
  }

  lemma AddressedStep(signals: seq<Signal>, i: nat, k: nat)
    requires k < |signals|
    ensures Addressed(signals[..k + 1], i)
         == Addressed(signals[..k], i) + (if signals[k].recipient == i then [signals[k].location] else [])
  {
    assert signals[..k + 1][..k] == signals[..k];
  }

  lemma {:induction false} AddressedPrefix(signals: seq<Signal>, i: nat, k: nat)
    requires k <= |signals|
    ensures Addressed(signals[..k], i) <= Addressed(signals, i)
    decreases |signals| - k
  {
    if k < |signals| {
      AddressedStep(signals, i, k);
      AddressedPrefix(signals, i, k + 1);
    } else {
      assert signals[..k] == signals;
    }
  }

  /** The signal of rank r in a row is the r-th one addressed to it. */
  lemma RankedLocation(signals: seq<Signal>, k: nat)
    requires k < |signals|
    ensures var a := Addressed(signals, signals[k].recipient);
      Rank(signals, k) < |a| && a[Rank(signals, k)] == signals[k].location
  {
    AddressedStep(signals, signals[k].recipient, k);
    AddressedPrefix(signals, signals[k].recipient, k + 1);
  }

  lemma RankGrows(signals: seq<Signal>, q: nat, k: nat)
    requires q < k < |signals| && signals[q].recipient == signals[k].recipient
    ensures Rank(signals, q) < Rank(signals, k)
  {
    AddressedStep(signals, signals[q].recipient, q);
    AddressedPrefix(signals[..k], signals[k].recipient, q + 1);
    assert signals[..k][..q + 1] == signals[..q + 1];
  }

  /** Which signals are handled while row `i` has `placed` of its signals. */
  ghost predicate HandledIs(signals: seq<Signal>, i: nat, placed: nat, before: seq<bool>, handled: seq<bool>)
    requires |handled| == |before| == |signals|
  {
    forall q :: 0 <= q < |signals| ==>
      handled[q] == if signals[q].recipient == i then Rank(signals, q) < placed else before[q]
  }

  // ---------- the circuit ----------

  /** One slot: every signal is offered to it, at most one is caught. */
  method UpdateSlot(signals: seq<Signal>, i: Word, j: Word, blinding: Location, index: Word,
                    handled: array<bool>, ghost placed: nat, ghost before: seq<bool>)
    returns (newLocation: Location, newIndex: Word, updated: bool)
    requires handled.Length == |signals| == |before| && HandledIs(signals, i, placed, before, handled[..])
    modifies handled
    ensures var a := Addressed(signals, i);
      && updated == (index == j && placed < |a|)
      && newLocation == (if updated then BitXor(blinding, a[placed]) else blinding)
      && newIndex == (if updated then (index + 1) % 65536 else index)
      && HandledIs(signals, i, if updated then placed + 1 else placed, before, handled[..])
  {
    hide BitXor, Addressed, Rank;
    ghost var a := Addressed(signals, i);
    updated, newLocation, newIndex := false, blinding, index;
    assert signals[..0] == [];
    NoneAddressed(i);
    for k := 0 to |signals|
      invariant updated == (index == j && placed < |Addressed(signals[..k], i)|)
      invariant updated ==> placed < |a|
      invariant newLocation == if updated then BitXor(blinding, a[placed]) else blinding
      invariant newIndex == if updated then (index + 1) % 65536 else index
      invariant HandledIs(signals, i, if updated then placed + 1 else placed, before, handled[..])
    {
      var addressed, wasHandled := signals[k].recipient == i, handled[k];
      var caught := addressed && !wasHandled && j == newIndex && !updated;
      CaughtExactly(signals, i, j, k, index, newIndex, updated, placed, before, handled[..], caught);
      var updatedLocation := BitXor(newLocation, signals[k].location);
      newLocation := if caught then updatedLocation else newLocation;
      updated := updated || caught;
      handled[k] := wasHandled || caught;
      newIndex := if caught then (newIndex + 1) % 65536 else newIndex;
    }
    assert signals[..|signals|] == signals;
  }

  lemma NoneAddressed(i: nat)
    ensures Addressed([], i) == []
  {
  }

  /** One signal offered to one slot: it is caught exactly when it is the first signal of its
      row that is not placed yet and the slot is the next free one. */
  lemma CaughtExactly(signals: seq<Signal>, i: Word, j: Word, k: nat, index: Word, newIndex: Word, updated: bool,
                      placed: nat, before: seq<bool>, handled: seq<bool>, caught: bool)
    requires |handled| == |before| == |signals| && k < |signals|
    requires updated == (index == j && placed < |Addressed(signals[..k], i)|)
    requires newIndex == if updated then (index + 1) % 65536 else index
    requires HandledIs(signals, i, if updated then placed + 1 else placed, before, handled)
    requires caught == (signals[k].recipient == i && !handled[k] && j == newIndex && !updated)
    ensures (updated || caught) == (index == j && placed < |Addressed(signals[..k + 1], i)|)
    ensures caught ==> placed < |Addressed(signals, i)| && Addressed(signals, i)[placed] == signals[k].location
    ensures HandledIs(signals, i, if updated || caught then placed + 1 else placed, before,
                      handled[k := handled[k] || caught])
  {
    hide Addressed;
    AddressedStep(signals, i, k);
    RankedLocation(signals, k);
    if caught {
      assert Rank(signals, k) == placed;
      forall q | 0 <= q < |signals| && q != k && signals[q].recipient == i ensures Rank(signals, q) != placed {
        if q < k {
          RankGrows(signals, q, k);
        } else {
          RankGrows(signals, k, q);
        }
      }
    }
  }

  /** The value of an updated slot under its blinding. */
  lemma SlotMerged(previous: Location, a: seq<Location>, start: nat, j: nat, blinding: Location, updated: bool,
                   placed: nat, newLocation: Location)
    requires placed == Placed(start, |a|, j) && updated == (start + placed == j && placed < |a|)
    requires newLocation == if updated then BitXor(blinding, a[placed]) else blinding
    ensures BitXor(newLocation, if updated then 0 else previous) == BitXor(blinding, SlotValue(previous, a, start, j))
    ensures (if updated then placed + 1 else placed) == Placed(start, |a|, j + 1)
  {
    hide BitXor;
    XorZero(newLocation);
  }

  lemma XorZero(x: nat)
    ensures BitXor(x, 0) == x
  {
    BitXorSelf(x);
    BitXorCancel(x, x);
  }

  /** One row. A table with more than 65535 slots a row makes the two-byte constants run out,
      and so does one with more rows; both end in a failed index. */
  method UpdateRow(signals: seq<Signal>, i: nat, m: nat, l: nat, previous: seq<Location>,
                   blindGb: seq<Location>, blindEv: seq<Location>, start: Word, handled: array<bool>)
    returns (panicked: bool, row: seq<Location>, newIndex: Word)
    requires handled.Length == |signals| > 0 && i < m
    requires |previous| == |blindGb| == |blindEv| == l
    requires forall q :: 0 <= q < |signals| && signals[q].recipient == i ==> !handled[q]
    modifies handled
    ensures panicked <==> l > 0 && (i >= m % 65536 || l >= 65536)
    ensures !panicked ==> var a := Addressed(signals, i);
      && newIndex == start + Placed(start, |a|, l)
      && |row| == l
      && (forall j :: 0 <= j < l ==>
        row[j] == BitXor(BitXor(blindGb[j], blindEv[j]), SlotValue(previous[j], a, start, j)))
      && HandledIs(signals, i, Placed(start, |a|, l), old(handled[..]), handled[..])
  {
    hide BitXor, Addressed, SlotValue, Rank;
    ghost var before, a := handled[..], Addressed(signals, i);
    var receiverIndexes, locationIndexes := m % 65536, l % 65536;
    row, newIndex, panicked := [], start, false;
    ghost var placed := 0;
    for j := 0 to l
      invariant j > 0 ==> i < receiverIndexes && j <= locationIndexes
      invariant placed == Placed(start, |a|, j) && newIndex == start + placed
      invariant |row| == j && forall k :: 0 <= k < j ==>
        row[k] == BitXor(BitXor(blindGb[k], blindEv[k]), SlotValue(previous[k], a, start, k))
      invariant HandledIs(signals, i, placed, before, handled[..])
    {
      if i >= receiverIndexes || j >= locationIndexes {
        return true, row, newIndex;
      }
      var blinding := BitXor(blindGb[j], blindEv[j]);
      var newLocation, updated;
      newLocation, newIndex, updated := UpdateSlot(signals, i, j, blinding, newIndex, handled, placed, before);
      SlotMerged(previous[j], a, start, j, blinding, updated, placed, newLocation);
      placed := if updated then placed + 1 else placed;
      var oldOrZero := if updated then 0 else previous[j];
      row := row + [BitXor(newLocation, oldOrZero)];
    }
  }

  // ---------- all rows ----------

  datatype Strategy = A | B

  datatype Table = Table(m: nat, l: nat, rows: seq<seq<Location>>)

  ghost predicate WellSized(t: Table) {
    Shaped(t.rows, t.m, t.l)
  }

  datatype Outcome = Updated(rows: seq<seq<Location>>, indexes: seq<Word>)
                   | SizeMismatch | NoSignals | Panicked

  function Reveal(s: Encoded): Signal {
    Signal(XorWord(s.gb, s.ev), s.location)
  }

  function RevealAll(signals: seq<Encoded>): (r: seq<Signal>)
    ensures |r| == |signals|
  {
    seq(|signals|, k requires 0 <= k < |signals| => Reveal(signals[k]))
  }

  /** What a run puts out for a row's index: the blinded count under strategy A, the blinding
      alone under strategy B. */
  function IndexOut(strategy: Strategy, blinding: Word, count: Word): Word {
    if strategy == A then XorWord(blinding, count) else blinding
  }

  /** Row `i` of an outcome: the appended row and its count, under the blindings. */
  ghost predicate RowUpdated(t: Table, blindGb: Table, blindEv: Table, indexGb: seq<Word>, indexEv: seq<Word>,
                             columnGb: seq<Word>, columnEv: seq<Word>, strategy: Strategy, signals: seq<Signal>,
                             i: nat, row: seq<Location>, index: Word)
    requires WellSized(t) && WellSized(blindGb) && WellSized(blindEv)
    requires i < t.m == blindGb.m == blindEv.m && t.l == blindGb.l == blindEv.l
    requires |indexGb| == |indexEv| == |columnGb| == |columnEv| == t.m
  {
    var a, start := Addressed(signals, i), XorWord(indexGb[i], indexEv[i]);
    var count := start + Placed(start, |a|, t.l);
    && count < 65536
    && index == IndexOut(strategy, XorWord(columnGb[i], columnEv[i]), count)
    && |row| == t.l
    && forall j :: 0 <= j < t.l ==>
      row[j] == BitXor(BitXor(blindGb.rows[i][j], blindEv.rows[i][j]), SlotValue(t.rows[i][j], a, start, j))
  }

  /** The flags after the first `i` rows: a signal is handled exactly when its row is one of
      them and had room for it. */
  ghost predicate HandledRows(signals: seq<Signal>, starts: seq<Word>, l: nat, i: nat, handled: seq<bool>)
    requires |handled| == |signals| && i <= |starts|
  {
    forall q :: 0 <= q < |signals| ==>
      var r := signals[q].recipient;
      handled[q] == (r < i && Rank(signals, q) < Placed(starts[r], |Addressed(signals, r)|, l))
  }

  method BatchedUpdateTable(t: Table, blindGb: Table, blindEv: Table, indexGb: seq<Word>, indexEv: seq<Word>,
                            columnGb: seq<Word>, columnEv: seq<Word>, strategy: Strategy, encoded: seq<Encoded>)
    returns (outcome: Outcome, ghost handledOut: seq<bool>)
    requires WellSized(t) && WellSized(blindGb) && WellSized(blindEv)
    requires blindGb.m == blindEv.m && blindGb.l == blindEv.l
    requires |indexGb| == |indexEv| && |columnGb| == |columnEv| == t.m
    ensures var sizes := t.m == blindGb.m && t.l == blindGb.l && t.m == |indexGb|;
      && (outcome == SizeMismatch <==> !sizes)
      && (outcome == NoSignals <==> sizes && encoded == [])
      && (outcome == Panicked <==> sizes && encoded != [] && t.m > 0 && t.l > 0 && (t.m >= 65536 || t.l >= 65536))
    ensures outcome.Updated? ==>
      var signals := RevealAll(encoded);
      && |outcome.rows| == |outcome.indexes| == t.m
      && (forall i :: 0 <= i < t.m ==>
        RowUpdated(t, blindGb, blindEv, indexGb, indexEv, columnGb, columnEv, strategy, signals, i,
                   outcome.rows[i], outcome.indexes[i]))
      && |handledOut| == |signals|
      && HandledRows(signals, Starts(indexGb, indexEv), t.l, t.m, handledOut)
  {
    hide BitXor, Addressed, SlotValue, Rank, Placed, XorWord;
    handledOut := [];
    if t.m != blindGb.m || t.l != blindGb.l || t.m != |indexGb| {
      return SizeMismatch, handledOut;
    }
    var signals := RevealAll(encoded);
    if |signals| == 0 {
      return NoSignals, handledOut;
    }
    var handled := new bool[|signals|](_ => false);
    ghost var starts := Starts(indexGb, indexEv);
    var rows: seq<seq<Location>>, indexes: seq<Word> := [], [];
    for i := 0 to t.m
      invariant |rows| == |indexes| == i
      invariant i > 0 && t.l > 0 ==> i <= t.m % 65536 && t.l < 65536
      invariant HandledRows(signals, starts, t.l, i, handled[..])
      invariant forall k :: 0 <= k < i ==>
        RowUpdated(t, blindGb, blindEv, indexGb, indexEv, columnGb, columnEv, strategy, signals, k, rows[k], indexes[k])
    {
      var start := XorWord(indexGb[i], indexEv[i]);
      ghost var before := handled[..];
      var panicked, row, newIndex := UpdateRow(signals, i, t.m, t.l, t.rows[i], blindGb.rows[i], blindEv.rows[i],
                                               start, handled);
      if panicked {
        return Panicked, handledOut;
      }
      NextRow(signals, starts, t.l, i, before, handled[..]);
      var blinding := XorWord(columnGb[i], columnEv[i]);
      var index := if strategy == A then XorWord(blinding, newIndex) else blinding;
      rows, indexes := rows + [row], indexes + [index];
    }
    outcome, handledOut := Updated(rows, indexes), handled[..];
  }

  function Starts(gb: seq<Word>, ev: seq<Word>): (r: seq<Word>)
    requires |gb| == |ev|
    ensures |r| == |gb|
  {
    seq(|gb|, i requires 0 <= i < |gb| => XorWord(gb[i], ev[i]))
  }

  lemma NextRow(signals: seq<Signal>, starts: seq<Word>, l: nat, i: nat, before: seq<bool>, after: seq<bool>)
    requires |before| == |after| == |signals| && i < |starts|
    requires HandledRows(signals, starts, l, i, before)
    requires HandledIs(signals, i, Placed(starts[i], |Addressed(signals, i)|, l), before, after)
    ensures HandledRows(signals, starts, l, i + 1, after)
  {
    hide Rank, Addressed, Placed;
  }
}
