/** Garbling and garbled evaluation (toygarble/simplegarble.go): free-XOR labels,
    point-and-permute tables and a memoised evaluator. */
module Garble {
  import opened Bits
  import opened Circuit
  import opened Bristol
  import opened Labels

  /** How a call ends: normally, with an error, or with a run-time panic. */
  datatype Outcome = Done | Failed | Panicked

  /** The labels of one wire for 0 and for 1, once assigned. */
  datatype WireLabel = Unassigned | Pair(l0: Label, l1: Label)

  function LabelFor(w: WireLabel, bit: bool): Label
    requires w.Pair?
  {
    if bit then w.l1 else w.l0
  }

  /** Circuits the garbler handles: AND, OR, NOT and XOR gates between input and output wires. */
  predicate Garbleable(c: Circuit) {
    Evaluable(c) && forall g :: 0 <= g < |c.gates| ==> c.gates[g].kind != COPY
  }

  /** Input gates stand only where there is an input. */
  predicate InputsPlaced(c: Circuit) {
    forall g :: 0 <= g < |c.gates| && c.gates[g].kind == INPUT ==> g < c.numInputs
  }

  /** The gates that evaluation takes for outputs are output gates. */
  predicate OutputsPlaced(c: Circuit) {
    forall g :: c.numInputs <= g < c.numInputs + c.numOutputs && g < |c.gates| ==> c.gates[g].kind == OUTPUT
  }

  ghost predicate Acyclic(c: Circuit) {
    forall g :: 0 <= g < |c.gates| ==> !Cyclic(c, g)
  }

  /** A recursion from gate `g` through the operands, as label assignment makes it, ends within
      `depth` nested calls. */
  ghost predicate RecursionEnds(c: Circuit, g: nat, depth: nat)
    requires Wired(c) && g < |c.gates|
    decreases depth
  {
    depth > 0 && forall i :: 0 <= i < |c.gates[g].inFrom| ==> RecursionEnds(c, c.gates[g].inFrom[i], depth - 1)
  }

  lemma {:induction false} RecursionEndsUnless(c: Circuit, g: nat, depth: nat)
    requires Wired(c) && g < |c.gates| && RecursionEnds(c, g, depth)
    ensures !Cyclic(c, g)
    decreases depth
  {
    hide Cyclic, Reaches, Wired;
    CyclicHasPredecessor(c, g);
    forall i | 0 <= i < |c.gates[g].inFrom| ensures !Cyclic(c, c.gates[g].inFrom[i]) {
      WiredOperand(c, g, i);
      RecursionEndsUnless(c, c.gates[g].inFrom[i], depth - 1);
    }
  }

  lemma WiredOperand(c: Circuit, g: nat, i: nat)
    requires Wired(c) && g < |c.gates| && i < |c.gates[g].inFrom|
    ensures c.gates[g].inFrom[i] < |c.gates|
  {
  }

  lemma {:induction false} RecursionEndsBy(c: Circuit, g: nat, depth: nat)
    requires Wired(c) && g < |c.gates| && !Cyclic(c, g) && |Ancestors(c, g)| < depth
    ensures RecursionEnds(c, g, depth)
    decreases depth
  {
    hide Cyclic, Reaches, Wired, Ancestors;
    forall i | 0 <= i < |c.gates[g].inFrom|
      ensures c.gates[g].inFrom[i] < |c.gates| && RecursionEnds(c, c.gates[g].inFrom[i], depth - 1)
    {
      var v := c.gates[g].inFrom[i];
      WiredOperand(c, g, i);
      AcyclicPredecessor(c, g, v);
      SmallerSet(Ancestors(c, v), Ancestors(c, g));
      RecursionEndsBy(c, v, depth - 1);
    }
  }

  lemma SmallerSet(a: set<nat>, b: set<nat>)
    requires a < b
    ensures |a| < |b|
  {
    assert b == a + (b - a);
    assert b - a != {};
  }

  /** Label assignment ends at a gate if and only if the gate reaches no loop. */
  lemma RecursionEndsIff(c: Circuit, g: nat)
    requires Wired(c) && g < |c.gates|
    ensures (exists depth: nat :: RecursionEnds(c, g, depth)) <==> !Cyclic(c, g)
  {
    hide Cyclic, Wired, RecursionEnds, Ancestors;
    if !Cyclic(c, g) {
      RecursionEndsBy(c, g, |Ancestors(c, g)| + 1);
    } else {
      forall depth: nat ensures !RecursionEnds(c, g, depth) {
        if RecursionEnds(c, g, depth) {
          RecursionEndsUnless(c, g, depth);
        }
      }
    }
  }

  /** How the labels of gate `g` are chosen, after those of everything it reads. */
  ghost predicate WireRule(c: Circuit, delta: Label, w: seq<WireLabel>, g: nat)
    requires |w| == |c.gates| && g < |w|
  {
    var gate := c.gates[g];
    && w[g].Pair?
    && (forall i :: 0 <= i < |gate.inFrom| ==> gate.inFrom[i] < |w|)
    && if gate.kind == XOR then
         && |gate.inFrom| == 2
         && w[gate.inFrom[0]].Pair? && w[gate.inFrom[1]].Pair?
         && w[g].l0 == XorLabel(w[gate.inFrom[0]].l0, w[gate.inFrom[1]].l0)
         && w[g].l1 == XorLabel(w[gate.inFrom[0]].l0, w[gate.inFrom[1]].l1)
       else if gate.kind == OUTPUT then
         w[g].l0 == ZeroLabel() && w[g].l1 == OneLabel()
       else
         && w[g].l1 == XorLabel(w[g].l0, delta)
         && forall k :: 0 <= k < 5 ==> w[g].l0[k] == 0
  }

  ghost predicate AllWires(c: Circuit, delta: Label, w: seq<WireLabel>) {
    |w| == |c.gates| && forall g :: 0 <= g < |w| ==> WireRule(c, delta, w, g)
  }

  // ---------- what the label rules give ----------

  lemma XorOperands(c: Circuit, g: nat)
    requires Wired(c) && g < |c.gates| && c.gates[g].kind == XOR
    ensures |c.gates[g].inFrom| == 2
    ensures c.gates[g].inFrom[0] < |c.gates| && c.gates[g].inFrom[1] < |c.gates|
  {
  }

  /** The two labels of every wire have different selectors. */
  lemma {:induction false} SelectorsDiffer(c: Circuit, delta: Label, w: seq<WireLabel>, g: nat)
    requires Wired(c) && AllWires(c, delta, w) && g < |w| && !Cyclic(c, g)
    requires Selector(delta) == 1
    ensures w[g].Pair? && Selector(w[g].l0) != Selector(w[g].l1)
    decreases Ancestors(c, g)
  {
    hide Cyclic, Reaches, Selector, XorLabel, Ancestors, ZeroLabel, OneLabel, Wired;
    assert WireRule(c, delta, w, g);
    if c.gates[g].kind == XOR {
      XorOperands(c, g);
      var left, right := c.gates[g].inFrom[0], c.gates[g].inFrom[1];
      AcyclicPredecessor(c, g, right);
      SelectorsDiffer(c, delta, w, right);
      SelectorOfXor(w[left].l0, w[right].l0);
      SelectorOfXor(w[left].l0, w[right].l1);
    } else if c.gates[g].kind == OUTPUT {
      ConstantSelectors();
    } else {
      SelectorOfXor(w[g].l0, delta);
    }
  }

  /** Whether the labels of gate `g` differ by the offset of the output wires rather than by
      the global one: an exclusive or passes on the offset of its right operand. */
  ghost predicate OutputOffset(c: Circuit, g: nat)
    requires Wired(c) && g < |c.gates| && !Cyclic(c, g)
    decreases Ancestors(c, g)
  {
    if c.gates[g].kind == XOR then
      AcyclicPredecessor(c, g, c.gates[g].inFrom[1]);
      OutputOffset(c, c.gates[g].inFrom[1])
    else c.gates[g].kind == OUTPUT
  }

  /** The two operands of an exclusive or carry the same kind of offset. */
  ghost predicate Balanced(c: Circuit, delta: Label, g: nat)
    requires Wired(c) && g < |c.gates| && c.gates[g].kind == XOR && !Cyclic(c, g)
  {
    AcyclicPredecessor(c, g, c.gates[g].inFrom[0]);
    AcyclicPredecessor(c, g, c.gates[g].inFrom[1]);
    delta == OneLabel() || (OutputOffset(c, c.gates[g].inFrom[0]) <==> OutputOffset(c, c.gates[g].inFrom[1]))
  }

  ghost predicate AllBalanced(c: Circuit, delta: Label)
    requires Wired(c)
  {
    forall g :: 0 <= g < |c.gates| && c.gates[g].kind == XOR && !Cyclic(c, g) ==> Balanced(c, delta, g)
  }

  lemma {:induction false} OffsetOf(c: Circuit, delta: Label, w: seq<WireLabel>, g: nat)
    requires Wired(c) && AllWires(c, delta, w) && g < |w| && !Cyclic(c, g)
    ensures w[g].Pair? && XorLabel(w[g].l0, w[g].l1) == if OutputOffset(c, g) then OneLabel() else delta
    decreases Ancestors(c, g)
  {
    hide Cyclic, Reaches, XorLabel, Ancestors, ZeroLabel, OneLabel, Wired;
    assert WireRule(c, delta, w, g);
    if c.gates[g].kind == XOR {
      XorOperands(c, g);
      var left, right := c.gates[g].inFrom[0], c.gates[g].inFrom[1];
      AcyclicPredecessor(c, g, right);
      OffsetOf(c, delta, w, right);
      OffsetThroughXor(w[left].l0, w[right].l0, w[right].l1);
    } else if c.gates[g].kind == OUTPUT {
      XorLabelCancel(ZeroLabel(), OneLabel());
      ZeroXor(OneLabel());
    } else {
      XorLabelCancel(w[g].l0, delta);
    }
  }

  lemma ZeroXor(l: Label)
    ensures XorLabel(ZeroLabel(), l) == l
  {
    hide BitXor;
    forall i | 0 <= i < 16 ensures XorLabel(ZeroLabel(), l)[i] == l[i] {
      assert BitXor(0, l[i]) == l[i] by { BitXorSelf(l[i]); BitXorCancel(l[i], l[i]); BitXorComm(0, l[i]); }
    }
  }

  /** (x ^ y) ^ (x ^ z) is y ^ z. */
  lemma OffsetThroughXor(x: Label, y: Label, z: Label)
    ensures XorLabel(XorLabel(x, y), XorLabel(x, z)) == XorLabel(y, z)
  {
    hide XorLabel;
    XorLabelComm(x, y);
    XorLabelAssoc(y, x, XorLabel(x, z));
    XorLabelCancel(x, z);
  }

  /** On one pair of bits an exclusive-or gate evaluates rightly if and only if its operands
      carry the same kind of offset or the left bit is false. */
  lemma XorBitExact(c: Circuit, delta: Label, w: seq<WireLabel>, g: nat, a: bool, b: bool)
    requires Wired(c) && AllWires(c, delta, w) && g < |w| && !Cyclic(c, g)
    requires c.gates[g].kind == XOR
    ensures |c.gates[g].inFrom| == 2
    ensures var left, right := c.gates[g].inFrom[0], c.gates[g].inFrom[1];
      && w[left].Pair? && w[right].Pair? && w[g].Pair?
      && (XorLabel(LabelFor(w[left], a), LabelFor(w[right], b)) == LabelFor(w[g], a != b)
          <==> Balanced(c, delta, g) || !a)
  {
    hide Cyclic, Reaches, XorLabel, Ancestors, ZeroLabel, OneLabel, Wired, OutputOffset;
    assert WireRule(c, delta, w, g);
    XorOperands(c, g);
    var left, right := c.gates[g].inFrom[0], c.gates[g].inFrom[1];
    AcyclicPredecessor(c, g, left);
    AcyclicPredecessor(c, g, right);
    OffsetOf(c, delta, w, left);
    OffsetOf(c, delta, w, right);
    FreeXorBit(w[left], w[right], a, b);
  }

  /** It evaluates rightly on all four pairs of bits if and only if its operands carry the same
      kind of offset. */
  lemma XorGateExact(c: Circuit, delta: Label, w: seq<WireLabel>, g: nat)
    requires Wired(c) && AllWires(c, delta, w) && g < |w| && !Cyclic(c, g)
    requires c.gates[g].kind == XOR
    ensures |c.gates[g].inFrom| == 2
    ensures var left, right := c.gates[g].inFrom[0], c.gates[g].inFrom[1];
      && w[left].Pair? && w[right].Pair? && w[g].Pair?
      && ((forall a: bool, b: bool ::
             XorLabel(LabelFor(w[left], a), LabelFor(w[right], b)) == LabelFor(w[g], a != b))
          <==> Balanced(c, delta, g))
  {
    hide *;
    XorBitExact(c, delta, w, g, false, false);
    XorBitExact(c, delta, w, g, false, true);
    XorBitExact(c, delta, w, g, true, false);
    XorBitExact(c, delta, w, g, true, true);
  }

  /** Circuits whose outputs are read by no gate are balanced. */
  lemma SinksBalanced(c: Circuit, delta: Label)
    requires Wired(c) && OutputsAreSinks(c)
    ensures AllBalanced(c, delta)
  {
    hide Cyclic, Reaches, Ancestors, OneLabel, Wired, OutputOffset;
    forall g | 0 <= g < |c.gates| && c.gates[g].kind == XOR && !Cyclic(c, g)
      ensures Balanced(c, delta, g)
    {
      XorOperands(c, g);
      AcyclicPredecessor(c, g, c.gates[g].inFrom[0]);
      AcyclicPredecessor(c, g, c.gates[g].inFrom[1]);
      SinkOffset(c, c.gates[g].inFrom[0]);
      SinkOffset(c, c.gates[g].inFrom[1]);
    }
  }

  lemma {:induction false} SinkOffset(c: Circuit, g: nat)
    requires Wired(c) && OutputsAreSinks(c) && g < |c.gates| && !Cyclic(c, g) && c.gates[g].kind != OUTPUT
    ensures !OutputOffset(c, g)
    decreases Ancestors(c, g)
  {
    hide Cyclic, Reaches, Ancestors, Wired;
    if c.gates[g].kind == XOR {
      XorOperands(c, g);
      AcyclicPredecessor(c, g, c.gates[g].inFrom[1]);
      SinkOffset(c, c.gates[g].inFrom[1]);
    }
  }

  /** Free XOR on one pair of bits: xoring the two labels gives the label of the exclusive or
      if and only if both operands' labels differ by the same offset or the left bit is false. */
  lemma FreeXorBit(left: WireLabel, right: WireLabel, a: bool, b: bool)
    requires left.Pair? && right.Pair?
    ensures var out := Pair(XorLabel(left.l0, right.l0), XorLabel(left.l0, right.l1));
      XorLabel(LabelFor(left, a), LabelFor(right, b)) == LabelFor(out, a != b)
      <==> XorLabel(left.l0, left.l1) == XorLabel(right.l0, right.l1) || !a
  {
    hide XorLabel;
    var both, d, e := XorLabel(left.l0, right.l0), XorLabel(left.l0, left.l1), XorLabel(right.l0, right.l1);
    XorLabelCancel(left.l0, left.l1);
    XorLabelCancel(right.l0, right.l1);
    if a {
      assert XorLabel(left.l1, right.l0) == XorLabel(both, d) by { OffsetMoves(left.l0, right.l0, d); }
      assert XorLabel(left.l0, right.l1) == XorLabel(both, e) by { XorLabelAssoc(left.l0, right.l0, e); }
      assert XorLabel(left.l1, right.l1) == XorLabel(XorLabel(both, d), e) by {
        XorLabelAssoc(left.l1, right.l0, e);
      }
      XorLabelCancel(both, d);
      XorLabelCancel(both, e);
      XorLabelCancelRight(XorLabel(both, d), e);
      XorLabelCancelRight(both, e);
    }
  }

  /** Free XOR on all pairs of bits: it is right if and only if the offsets are the same. */
  lemma FreeXorExact(left: WireLabel, right: WireLabel)
    requires left.Pair? && right.Pair?
    ensures var out := Pair(XorLabel(left.l0, right.l0), XorLabel(left.l0, right.l1));
      (forall a: bool, b: bool :: XorLabel(LabelFor(left, a), LabelFor(right, b)) == LabelFor(out, a != b))
      <==> XorLabel(left.l0, left.l1) == XorLabel(right.l0, right.l1)
  {
    hide *;
    FreeXorBit(left, right, false, false);
    FreeXorBit(left, right, false, true);
    FreeXorBit(left, right, true, false);
    FreeXorBit(left, right, true, true);
  }

  /** (x ^ d) ^ y is (x ^ y) ^ d. */
  lemma OffsetMoves(x: Label, y: Label, d: Label)
    ensures XorLabel(XorLabel(x, d), y) == XorLabel(XorLabel(x, y), d)
  {
    hide XorLabel;
    XorLabelAssoc(x, d, y);
    XorLabelComm(d, y);
    XorLabelAssoc(x, y, d);
  }

  lemma XorLabelCancelRight(x: Label, d: Label)
    ensures XorLabel(XorLabel(x, d), d) == x
  {
    hide XorLabel;
    XorLabelComm(x, d);
    XorLabelComm(XorLabel(d, x), d);
    XorLabelCancel(d, x);
  }

  // ---------- garbled tables ----------

  /** The bits that truth-table row `i` stands for. */
  function FirstBit(i: nat): bool {
    i / 2 == 1
  }

  function SecondBit(i: nat): bool {
    i % 2 == 1
  }

  /** The table row that a pair of operand labels selects. */
  function SelectedRow(la: Label, lb: Label): (r: nat)
    ensures r < 4
    ensures r / 2 == Selector(la) && r % 2 == Selector(lb)
  {
    2 * Selector(la) + Selector(lb)
  }

  /** A four-row table: the row named by the two selectors encrypts, under the two operand
      labels, the output label of the combined bit. */
  ghost predicate Table4(hash: Hash, kind: GateType, left: WireLabel, right: WireLabel, out: WireLabel,
                         table: seq<Label>)
    requires left.Pair? && right.Pair? && out.Pair?
  {
    |table| == 4 && forall i :: 0 <= i < 4 ==> Row4(hash, kind, left, right, out, table, i)
  }

  ghost predicate Row4(hash: Hash, kind: GateType, left: WireLabel, right: WireLabel, out: WireLabel,
                       table: seq<Label>, i: nat)
    requires left.Pair? && right.Pair? && out.Pair? && |table| == 4
  {
    var la, lb := LabelFor(left, FirstBit(i)), LabelFor(right, SecondBit(i));
    var row := SelectedRow(la, lb);
    table[row] == EncryptTableEntry(hash, row, KeyPart(la), KeyPart(lb),
                                    LabelFor(out, Combine(kind, FirstBit(i), SecondBit(i))))
  }

  /** A two-row table, for gates with one operand. */
  ghost predicate Table2(hash: Hash, kind: GateType, left: WireLabel, out: WireLabel, table: seq<Label>)
    requires left.Pair? && out.Pair?
  {
    |table| == 2 && forall i :: 0 <= i < 2 ==> Row2(hash, kind, left, out, table, i)
  }

  ghost predicate Row2(hash: Hash, kind: GateType, left: WireLabel, out: WireLabel,
                       table: seq<Label>, i: nat)
    requires left.Pair? && out.Pair? && |table| == 2
  {
    var la := LabelFor(left, SecondBit(i));
    var row := Selector(la);
    table[row] == EncryptTableEntry(hash, row, KeyPart(la), [],
                                    LabelFor(out, Combine(kind, SecondBit(i), false)))
  }

  /** getGatePermutation: truth-table row i moves to the row its operand labels select. */
  method GetGatePermutation(tableSize: nat, masks: seq<nat>) returns (result: seq<nat>, ok: bool)
    requires tableSize == 4 ==> |masks| == 2
    requires tableSize == 2 ==> |masks| == 1
    requires forall i :: 0 <= i < |masks| ==> masks[i] < 2
    ensures |result| == 4
    ensures ok <==> tableSize == 0 || tableSize == 2 || tableSize == 4
    ensures tableSize == 2 ==> forall i :: 0 <= i < 2 ==> result[i] == Flip(i, masks[0])
    ensures tableSize == 4 ==>
      forall i :: 0 <= i < 4 ==> result[i] == 2 * Flip(i / 2, masks[0]) + Flip(i % 2, masks[1])
  {
    result := [0, 1, 2, 3];
    if tableSize == 0 {
      return result, true;
    }
    if tableSize != 4 && tableSize != 2 {
      return result, false;
    }
    if tableSize == 2 {
      result := result[masks[0] := 0];
      result := result[1 - masks[0] := 1];
      return result, true;
    }
    hide MaskedRow;
    for i := 0 to 4
      invariant |result| == 4
      invariant forall k :: 0 <= k < i ==> result[MaskedRow(k, masks[0], masks[1])] == k
    {
      var maskedBit := MaskedRow(i, masks[0], masks[1]);
      forall k | 0 <= k < i ensures MaskedRow(k, masks[0], masks[1]) != maskedBit {
        MaskedTwice(k, masks[0], masks[1]);
        MaskedTwice(i, masks[0], masks[1]);
      }
      result := result[maskedBit := i];
    }
    forall i | 0 <= i < 4 ensures result[i] == 2 * Flip(i / 2, masks[0]) + Flip(i % 2, masks[1]) {
      MaskedTwice(i, masks[0], masks[1]);
    }
    ok := true;
  }

  /** The row that truth-table row `i` moves to. */
  function MaskedRow(i: nat, mask0: nat, mask1: nat): (r: nat)
    requires i < 4 && mask0 < 2 && mask1 < 2
    ensures r < 4
  {
    2 * Flip(i / 2, mask0) + Flip(i % 2, mask1)
  }

  /** Masking twice leads back. */
  lemma MaskedTwice(i: nat, mask0: nat, mask1: nat)
    requires i < 4 && mask0 < 2 && mask1 < 2
    ensures MaskedRow(MaskedRow(i, mask0, mask1), mask0, mask1) == i
    ensures MaskedRow(i, mask0, mask1) == 2 * Flip(i / 2, mask0) + Flip(i % 2, mask1)
  {
  }

  /** Exclusive or of two bits. */
  function Flip(b: nat, mask: nat): (r: nat)
    requires b < 2 && mask < 2
    ensures r < 2
  {
    if b == mask then 0 else 1
  }

  /** Garbles a gate with two operands. */
  method GarbleTable4(hash: Hash, kind: GateType, left: WireLabel, right: WireLabel, out: WireLabel)
    returns (table: seq<Label>)
    requires left.Pair? && right.Pair? && out.Pair?
    requires Selector(left.l0) != Selector(left.l1) && Selector(right.l0) != Selector(right.l1)
    ensures Table4(hash, kind, left, right, out, table)
  {
    hide Selector, EncryptTableEntry, KeyPart, ZeroLabel, SelectedRow, Combine, Row4;
    var masks := [Selector(left.l0), Selector(right.l0)];
    var gateLocs, ok := GetGatePermutation(4, masks);
    table := [ZeroLabel(), ZeroLabel(), ZeroLabel(), ZeroLabel()];
    for i := 0 to 4
      invariant |table| == 4
      invariant forall k :: 0 <= k < i ==> Row4(hash, kind, left, right, out, table, k)
    {
      var la, lb := LabelFor(left, FirstBit(i)), LabelFor(right, SecondBit(i));
      PermutedRow(left, right, i, gateLocs[i]);
      var entry := EncryptTableEntry(hash, gateLocs[i], KeyPart(la), KeyPart(lb),
                                     LabelFor(out, Combine(kind, FirstBit(i), SecondBit(i))));
      ghost var before := table;
      table := table[gateLocs[i] := entry];
      assert Row4(hash, kind, left, right, out, table, i) by {
        StoredRow4(hash, kind, left, right, out, table, i);
      }
      forall k | 0 <= k < i ensures Row4(hash, kind, left, right, out, table, k) {
        assert Row4(hash, kind, left, right, out, before, k);
        KeptRow4(hash, kind, left, right, out, before, i, entry, k);
      }
    }
  }

  lemma PermutedRow(left: WireLabel, right: WireLabel, i: nat, loc: nat)
    requires left.Pair? && right.Pair? && i < 4
    requires Selector(left.l0) != Selector(left.l1) && Selector(right.l0) != Selector(right.l1)
    requires loc == 2 * Flip(i / 2, Selector(left.l0)) + Flip(i % 2, Selector(right.l0))
    ensures loc == SelectedRow(LabelFor(left, FirstBit(i)), LabelFor(right, SecondBit(i)))
  {
    hide Selector;
  }

  lemma StoredRow4(hash: Hash, kind: GateType, left: WireLabel, right: WireLabel, out: WireLabel,
                   table: seq<Label>, i: nat)
    requires left.Pair? && right.Pair? && out.Pair? && |table| == 4
    requires var la, lb := LabelFor(left, FirstBit(i)), LabelFor(right, SecondBit(i));
      table[SelectedRow(la, lb)]
      == EncryptTableEntry(hash, SelectedRow(la, lb), KeyPart(la), KeyPart(lb),
                           LabelFor(out, Combine(kind, FirstBit(i), SecondBit(i))))
    ensures Row4(hash, kind, left, right, out, table, i)
  {
  }

  /** Storing row i keeps the rows stored before. */
  lemma KeptRow4(hash: Hash, kind: GateType, left: WireLabel, right: WireLabel, out: WireLabel,
                 table: seq<Label>, i: nat, entry: Label, k: nat)
    requires left.Pair? && right.Pair? && out.Pair? && |table| == 4 && k < i < 4
    requires Selector(left.l0) != Selector(left.l1) && Selector(right.l0) != Selector(right.l1)
    requires Row4(hash, kind, left, right, out, table, k)
    ensures Row4(hash, kind, left, right, out,
                 table[SelectedRow(LabelFor(left, FirstBit(i)), LabelFor(right, SecondBit(i))) := entry], k)
  {
    hide Selector, EncryptTableEntry, KeyPart, SelectedRow, Combine;
    OtherRow(left, right, k, i);
  }

  /** Different truth-table rows go to different table rows. */
  lemma OtherRow(left: WireLabel, right: WireLabel, k: nat, i: nat)
    requires left.Pair? && right.Pair? && k < i < 4
    requires Selector(left.l0) != Selector(left.l1) && Selector(right.l0) != Selector(right.l1)
    ensures SelectedRow(LabelFor(left, FirstBit(k)), LabelFor(right, SecondBit(k)))
         != SelectedRow(LabelFor(left, FirstBit(i)), LabelFor(right, SecondBit(i)))
  {
    hide Selector;
  }

  /** Garbles a gate with one operand. */
  method GarbleTable2(hash: Hash, kind: GateType, left: WireLabel, out: WireLabel)
    returns (table: seq<Label>)
    requires left.Pair? && out.Pair? && Selector(left.l0) != Selector(left.l1)
    ensures Table2(hash, kind, left, out, table)
  {
    hide Selector, EncryptTableEntry, KeyPart, ZeroLabel, Combine;
    var gateLocs, ok := GetGatePermutation(2, [Selector(left.l0)]);
    table := [ZeroLabel(), ZeroLabel()];
    for i := 0 to 2
      invariant |table| == 2
      invariant forall k :: 0 <= k < i ==> Row2(hash, kind, left, out, table, k)
    {
      var la := LabelFor(left, SecondBit(i));
      var row := gateLocs[i];
      assert row == Selector(la);
      ghost var before := table;
      table := table[row := EncryptTableEntry(hash, row, KeyPart(la), [],
                                              LabelFor(out, Combine(kind, SecondBit(i), false)))];
      assert i == 1 ==> Row2(hash, kind, left, out, before, 0);
    }
  }

  /** The number of rows garbling allots to a gate, and unmarshalling expects. */
  function TableSize(kind: GateType): nat {
    match kind
    case INPUT => 0
    case NOT => 2
    case OUTPUT => 2
    case CONST => 1
    case XOR => 0
    case _ => 4
  }

  /** How garbling a gate of a valid circuit ends: constants have a table size that cannot be
      permuted, and copy gates and unconnected outputs lack an operand the garbler reads. */
  function GateEnding(gate: Gate): Outcome {
    match gate.kind
    case CONST => Failed
    case COPY => Panicked
    case OUTPUT => if gate.inFrom == [] then Panicked else Done
    case _ => Done
  }

  /** How garbling the gates from `g` on ends: as the first gate that does not end normally. */
  function GarblingEnding(c: Circuit, g: nat): Outcome
    requires g <= |c.gates|
    decreases |c.gates| - g
  {
    if g == |c.gates| then Done
    else if GateEnding(c.gates[g]) != Done then GateEnding(c.gates[g])
    else GarblingEnding(c, g + 1)
  }

  /** How garbling a circuit without loops ends: operands that do not exist are read while labels
      are assigned, before any gate is garbled. */
  function CircuitEnding(c: Circuit): Outcome {
    if !ValidCircuit(c) then Failed
    else if !Wired(c) then Panicked
    else GarblingEnding(c, 0)
  }

  lemma {:induction false} EndingIsDone(c: Circuit, g: nat)
    requires g <= |c.gates|
    ensures GarblingEnding(c, g) == Done <==> forall k :: g <= k < |c.gates| ==> GateEnding(c.gates[k]) == Done
    decreases |c.gates| - g
  {
    hide GateEnding;
    if g < |c.gates| {
      EndingIsDone(c, g + 1);
    }
  }

  /** Circuits on which garbling ends normally can be evaluated. */
  lemma DoneIsGarbleable(c: Circuit)
    requires Wired(c) && InputsPlaced(c) && GarblingEnding(c, 0) == Done
    ensures Garbleable(c)
  {
    hide GarblingEnding;
    EndingIsDone(c, 0);
  }

  /** Garbling ends in a panic when it does not end normally and no gate just fails. */
  lemma {:induction false} EndingIsPanic(c: Circuit, g: nat)
    requires g <= |c.gates| && forall k :: g <= k < |c.gates| ==> GateEnding(c.gates[k]) != Failed
    ensures GarblingEnding(c, g) != Failed
    decreases |c.gates| - g
  {
    hide GateEnding;
    if g < |c.gates| {
      EndingIsPanic(c, g + 1);
    }
  }

  /** Gate `g` is garbled under the labels `w`. */
  ghost predicate GateGarbled(c: Circuit, hash: Hash, w: seq<WireLabel>, g: nat, table: seq<Label>)
    requires Wired(c) && |w| == |c.gates| && g < |w|
  {
    var gate := c.gates[g];
    && (forall v :: 0 <= v < |w| ==> w[v].Pair?)
    && |table| == TableSize(gate.kind)
    && (gate.kind == AND || gate.kind == OR ==>
      Table4(hash, gate.kind, w[gate.inFrom[0]], w[gate.inFrom[1]], w[g], table))
    && (gate.kind == NOT || gate.kind == OUTPUT ==>
      |gate.inFrom| == 1 && Table2(hash, gate.kind, w[gate.inFrom[0]], w[g], table))
  }
}
