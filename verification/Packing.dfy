/** The packed wire format of a garbled circuit (toygarble/simplegarble.go, PackedMarshal and
    PackedUnmarshal): the two labels of every input wire, then the rows of every table. */
module Packing {
  import opened Bits
  import opened Circuit
  import opened Labels
  import opened Garble

  /** Labels written before the table of gate `g`. */
  function Start(numInputs: nat, tables: seq<seq<Label>>, g: nat): nat
    requires g <= |tables|
  {
    if g == 0 then 2 * numInputs else Start(numInputs, tables, g - 1) + |tables[g - 1]|
  }

  /** Labels expected before the table of gate `g` of a circuit. */
  function ExpectedStart(c: Circuit, g: nat): nat
    requires g <= |c.gates|
  {
    if g == 0 then 2 * c.numInputs else ExpectedStart(c, g - 1) + TableSize(c.gates[g - 1].kind)
  }

  /** The `k`-th label of a byte stream. */
  function LabelAt(b: seq<Byte>, k: nat): Label
    requires 16 * (k + 1) <= |b|
  {
    b[16 * k..16 * (k + 1)]
  }

  /** `b` is the packed form of the input labels and tables. */
  ghost predicate Packs(numInputs: nat, w: seq<WireLabel>, tables: seq<seq<Label>>, b: seq<Byte>)
    requires numInputs <= |w| && forall i :: 0 <= i < numInputs ==> w[i].Pair?
  {
    && |b| == 16 * Start(numInputs, tables, |tables|)
    && InputsAt(w, numInputs, b)
    && TablesAt(numInputs, tables, |tables|, b)
  }

  /** The first `m` wires' labels are at the front of the stream. */
  ghost predicate InputsAt(w: seq<WireLabel>, m: nat, b: seq<Byte>)
    requires m <= |w| && forall i :: 0 <= i < m ==> w[i].Pair?
  {
    && |b| >= 16 * 2 * m
    && forall i :: 0 <= i < m ==> w[i] == Pair(LabelAt(b, 2 * i), LabelAt(b, 2 * i + 1))
  }

  /** A table stands in the stream from label number `start` on. */
  ghost predicate TableAt(start: nat, table: seq<Label>, b: seq<Byte>) {
    && 16 * (start + |table|) <= |b|
    && forall j :: 0 <= j < |table| ==> table[j] == LabelAt(b, start + j)
  }

  /** The first `m` tables follow. */
  ghost predicate TablesAt(numInputs: nat, tables: seq<seq<Label>>, m: nat, b: seq<Byte>)
    requires m <= |tables|
  {
    forall g :: 0 <= g < m ==> TableAt(Start(numInputs, tables, g), tables[g], b)
  }

  /** Appending leaves the labels already written in place. */
  lemma LabelAtKept(b: seq<Byte>, more: seq<Byte>, k: nat)
    requires 16 * (k + 1) <= |b|
    ensures LabelAt(b + more, k) == LabelAt(b, k)
  {
  }

  lemma LabelAppended(b: seq<Byte>, l: Label, k: nat)
    requires |b| == 16 * k
    ensures LabelAt(b + l, k) == l
  {
  }

  method PackedMarshal(numInputs: nat, w: seq<WireLabel>, tables: seq<seq<Label>>) returns (b: seq<Byte>)
    requires numInputs <= |w| && forall i :: 0 <= i < numInputs ==> w[i].Pair?
    ensures Packs(numInputs, w, tables, b)
  {
    hide LabelAt;
    b := [];
    for i := 0 to numInputs
      invariant |b| == 16 * 2 * i && InputsAt(w, i, b)
    {
      LabelAppended(b, w[i].l0, 2 * i);
      LabelAppended(b + w[i].l0, w[i].l1, 2 * i + 1);
      LabelAtKept(b + w[i].l0, w[i].l1, 2 * i);
      ghost var b0 := b;
      b := b + w[i].l0;
      b := b + w[i].l1;
      InputsKept(w, i, b0, b);
    }
    for g := 0 to |tables|
      invariant |b| == 16 * Start(numInputs, tables, g)
      invariant InputsAt(w, numInputs, b) && TablesAt(numInputs, tables, g, b)
    {
      b := WriteTable(numInputs, w, tables, g, b);
    }
  }

  lemma InputsKept(w: seq<WireLabel>, m: nat, b: seq<Byte>, b': seq<Byte>)
    requires m <= |w| && (forall i :: 0 <= i < m ==> w[i].Pair?) && InputsAt(w, m, b) && b <= b'
    ensures InputsAt(w, m, b')
  {
    hide LabelAt;
    forall i | 0 <= i < m ensures w[i] == Pair(LabelAt(b', 2 * i), LabelAt(b', 2 * i + 1)) {
      assert b' == b + b'[|b|..];
      LabelAtKept(b, b'[|b|..], 2 * i);
      LabelAtKept(b, b'[|b|..], 2 * i + 1);
    }
  }

  lemma TableKept(start: nat, table: seq<Label>, b: seq<Byte>, b': seq<Byte>)
    requires TableAt(start, table, b) && b <= b'
    ensures TableAt(start, table, b')
  {
    hide LabelAt;
    forall j | 0 <= j < |table| ensures table[j] == LabelAt(b', start + j) {
      assert b' == b + b'[|b|..];
      LabelAtKept(b, b'[|b|..], start + j);
    }
  }

  lemma TablesKept(numInputs: nat, tables: seq<seq<Label>>, m: nat, b: seq<Byte>, b': seq<Byte>)
    requires m <= |tables| && TablesAt(numInputs, tables, m, b) && b <= b'
    ensures TablesAt(numInputs, tables, m, b')
  {
    hide TableAt, Start;
    forall g | 0 <= g < m ensures TableAt(Start(numInputs, tables, g), tables[g], b') {
      TableKept(Start(numInputs, tables, g), tables[g], b, b');
    }
  }

  method WriteTable(numInputs: nat, ghost w: seq<WireLabel>, tables: seq<seq<Label>>, g: nat, b0: seq<Byte>)
    returns (b: seq<Byte>)
    requires numInputs <= |w| && forall i :: 0 <= i < numInputs ==> w[i].Pair?
    requires g < |tables| && |b0| == 16 * Start(numInputs, tables, g)
    requires InputsAt(w, numInputs, b0) && TablesAt(numInputs, tables, g, b0)
    ensures |b| == 16 * Start(numInputs, tables, g + 1)
    ensures InputsAt(w, numInputs, b) && TablesAt(numInputs, tables, g + 1, b)
  {
    hide LabelAt, InputsAt, TablesAt;
    ghost var start := Start(numInputs, tables, g);
    b := b0;
    for j := 0 to |tables[g]|
      invariant b0 <= b && |b| == 16 * (start + j)
      invariant forall k :: 0 <= k < j ==> LabelAt(b, start + k) == tables[g][k]
    {
      forall k | 0 <= k < j ensures LabelAt(b + tables[g][j], start + k) == tables[g][k] {
        LabelAtKept(b, tables[g][j], start + k);
      }
      LabelAppended(b, tables[g][j], start + j);
      b := b + tables[g][j];
    }
    InputsKept(w, numInputs, b0, b);
    TablesKept(numInputs, tables, g, b0, b);
    NextTable(numInputs, tables, g, b);
  }

  lemma NextTable(numInputs: nat, tables: seq<seq<Label>>, g: nat, b: seq<Byte>)
    requires g < |tables| && TablesAt(numInputs, tables, g, b)
    requires TableAt(Start(numInputs, tables, g), tables[g], b)
    ensures TablesAt(numInputs, tables, g + 1, b)
  {
    hide TableAt, Start;
  }

  // ---------- reading back ----------

  /** Reading one label from the rest of the buffer: an empty buffer gives an error that the
      caller turns into a panic, a short one an ordinary failure. */
  method ReadLabel(b: seq<Byte>, pos: nat) returns (outcome: Outcome, l: Label)
    requires pos <= |b|
    ensures outcome == if |b| - pos >= 16 then Done
                       else if pos == |b| then Panicked else Failed
    ensures outcome == Done ==> l == b[pos..pos + 16]
  {
    l := ZeroLabel();
    if |b| - pos >= 16 {
      return Done, b[pos..pos + 16];
    }
    outcome := if pos == |b| then Panicked else Failed;
  }

  /** How unmarshalling a buffer of the given length ends. */
  function Ending(size: nat, expected: nat): Outcome {
    if size == 16 * expected then Done
    else if size < 16 * expected && size % 16 == 0 then Panicked
    else Failed
  }

  lemma {:induction false} StartGrows(c: Circuit, g: nat)
    requires g <= |c.gates|
    ensures 2 * c.numInputs <= ExpectedStart(c, g) <= ExpectedStart(c, |c.gates|)
    decreases |c.gates| - g
  {
    if g < |c.gates| {
      StartGrows(c, g + 1);
    }
    StartLower(c, g);
  }

  lemma {:induction false} StartLower(c: Circuit, g: nat)
    requires g <= |c.gates|
    ensures 2 * c.numInputs <= ExpectedStart(c, g)
  {
    if g > 0 {
      StartLower(c, g - 1);
    }
  }

  /** A read that fails at label `k` fails the way the whole buffer's length says. */
  lemma FailingRead(size: nat, k: nat, expected: nat)
    requires k < expected && 16 * k <= size < 16 * (k + 1)
    ensures Ending(size, expected) == if size == 16 * k then Panicked else Failed
  {
  }

  /** PackedUnmarshal: it succeeds exactly on buffers of the expected length, and then the
      buffer is the packed form of what it returns. A buffer that ends between two labels
      makes it panic; any other length is reported. */
  method PackedUnmarshal(b: seq<Byte>, c: Circuit)
    returns (outcome: Outcome, w: seq<WireLabel>, tables: seq<seq<Label>>)
    ensures outcome == Ending(|b|, ExpectedStart(c, |c.gates|))
    ensures outcome == Done ==>
      && |w| == c.numInputs && (forall i :: 0 <= i < |w| ==> w[i].Pair?)
      && |tables| == |c.gates|
      && (forall g :: 0 <= g < |tables| ==> |tables[g]| == TableSize(c.gates[g].kind))
      && Packs(c.numInputs, w, tables, b)
  {
    hide LabelAt, TablesAt, InputsAt, Ending, TableSize;
    ghost var expected := ExpectedStart(c, |c.gates|);
    StartGrows(c, 0);
    w, tables := [], [];
    outcome, w := ReadInputs(b, c.numInputs, expected);
    if outcome != Done {
      return;
    }
    NoTables(c, w, b);
    for g := 0 to |c.gates|
      invariant |tables| == g && ExpectedStart(c, g) == Start(c.numInputs, tables, g)
      invariant 16 * ExpectedStart(c, g) <= |b|
      invariant forall k :: 0 <= k < g ==> |tables[k]| == TableSize(c.gates[k].kind)
      invariant TablesAt(c.numInputs, tables, g, b)
    {
      StartGrows(c, g + 1);
      var table: seq<Label>;
      outcome, table := ReadTable(b, ExpectedStart(c, g), TableSize(c.gates[g].kind), expected);
      if outcome != Done {
        return;
      }
      AddTable(c.numInputs, tables, table, b);
      tables := tables + [table];
    }
    StartGrows(c, |c.gates|);
    outcome := if |b| == 16 * ExpectedStart(c, |c.gates|) then Done else Failed;
    FullLength(|b|, expected);
  }

  lemma FullLength(size: nat, expected: nat)
    requires size >= 16 * expected
    ensures Ending(size, expected) == if size == 16 * expected then Done else Failed
  {
  }

  lemma NoTables(c: Circuit, w: seq<WireLabel>, b: seq<Byte>)
    requires |w| == c.numInputs && (forall i :: 0 <= i < |w| ==> w[i].Pair?) && InputsAt(w, |w|, b)
    ensures TablesAt(c.numInputs, [], 0, b) && 16 * ExpectedStart(c, 0) <= |b|
    ensures Start(c.numInputs, [], 0) == ExpectedStart(c, 0) == 2 * c.numInputs
  {
  }

  lemma {:induction false} StartPrefix(numInputs: nat, tables: seq<seq<Label>>, table: seq<Label>, g: nat)
    requires g <= |tables|
    ensures Start(numInputs, tables + [table], g) == Start(numInputs, tables, g)
  {
    if g > 0 {
      StartPrefix(numInputs, tables, table, g - 1);
    }
  }

  lemma StartAppended(numInputs: nat, tables: seq<seq<Label>>, table: seq<Label>)
    ensures Start(numInputs, tables + [table], |tables| + 1) == Start(numInputs, tables, |tables|) + |table|
  {
    StartPrefix(numInputs, tables, table, |tables|);
  }

  lemma AddTable(numInputs: nat, tables: seq<seq<Label>>, table: seq<Label>, b: seq<Byte>)
    requires TablesAt(numInputs, tables, |tables|, b)
    requires TableAt(Start(numInputs, tables, |tables|), table, b)
    ensures Start(numInputs, tables + [table], |tables| + 1) == Start(numInputs, tables, |tables|) + |table|
    ensures TablesAt(numInputs, tables + [table], |tables| + 1, b)
  {
    hide TableAt, Start;
    StartAppended(numInputs, tables, table);
    forall g | 0 <= g < |tables| + 1
      ensures TableAt(Start(numInputs, tables + [table], g), (tables + [table])[g], b)
    {
      StartPrefix(numInputs, tables, table, g);
    }
  }

  method ReadInputs(b: seq<Byte>, numInputs: nat, ghost expected: nat)
    returns (outcome: Outcome, w: seq<WireLabel>)
    requires 2 * numInputs <= expected
    ensures outcome != Done ==> outcome == Ending(|b|, expected)
    ensures outcome == Done ==>
      && |w| == numInputs && (forall i :: 0 <= i < |w| ==> w[i].Pair?)
      && InputsAt(w, numInputs, b)
  {
    hide LabelAt, Ending;
    w := [];
    for i := 0 to numInputs
      invariant |w| == i && (forall k :: 0 <= k < i ==> w[k].Pair?) && InputsAt(w, i, b)
    {
      var labels: seq<Label>;
      outcome, labels := ReadTable(b, 2 * i, 2, expected);
      if outcome != Done {
        return;
      }
      w := w + [Pair(labels[0], labels[1])];
    }
    outcome := Done;
  }

  /** Reads `size` labels, the first of them being label number `start`. */
  method ReadTable(b: seq<Byte>, start: nat, size: nat, ghost expected: nat)
    returns (outcome: Outcome, table: seq<Label>)
    requires 16 * start <= |b| && start + size <= expected
    ensures outcome != Done ==> outcome == Ending(|b|, expected)
    ensures outcome == Done ==>
      && |table| == size && TableAt(start, table, b)
  {
    hide Ending;
    table := [];
    for j := 0 to size
      invariant |table| == j && 16 * (start + j) <= |b|
      invariant forall k :: 0 <= k < j ==> table[k] == LabelAt(b, start + k)
    {
      var l: Label;
      outcome, l := ReadLabel(b, 16 * (start + j));
      if outcome != Done {
        FailingRead(|b|, start + j, expected);
        return;
      }
      assert l == LabelAt(b, start + j);
      table := table + [l];
    }
    outcome := Done;
  }

  /** What is packed can be read back in one way only. */
  lemma {:induction false} PacksInjective(c: Circuit, w: seq<WireLabel>, tables: seq<seq<Label>>,
                                          w': seq<WireLabel>, tables': seq<seq<Label>>, b: seq<Byte>)
    requires |w| >= c.numInputs && |w'| == c.numInputs
    requires forall i :: 0 <= i < c.numInputs ==> w[i].Pair? && w'[i].Pair?
    requires |tables| == |tables'| == |c.gates|
    requires forall g :: 0 <= g < |tables| ==> |tables[g]| == |tables'[g]| == TableSize(c.gates[g].kind)
    requires Packs(c.numInputs, w, tables, b) && Packs(c.numInputs, w', tables', b)
    ensures w' == w[..c.numInputs] && tables' == tables
  {
    hide LabelAt, Start, TableSize;
    forall g | 0 <= g < |tables| ensures tables'[g] == tables[g] {
      SameStart(c.numInputs, tables, tables', g);
      assert TableAt(Start(c.numInputs, tables, g), tables[g], b);
    }
  }

  lemma {:induction false} SameStart(numInputs: nat, tables: seq<seq<Label>>, tables': seq<seq<Label>>, g: nat)
    requires g <= |tables| == |tables'|
    requires forall k :: 0 <= k < |tables| ==> |tables[k]| == |tables'[k]|
    ensures Start(numInputs, tables, g) == Start(numInputs, tables', g)
  {
    if g > 0 {
      SameStart(numInputs, tables, tables', g - 1);
    }
  }
}
