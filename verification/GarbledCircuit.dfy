/** The garbled-circuit object of toygarble/simplegarble.go. */
module GarbledCircuit {
  import opened Bits
  import opened Circuit
  import opened Labels
  import opened Garble
  import opened Packing

  /** A source of random labels: a tape and a reading position. */
  class Rand {
    const tape: nat -> Label
    var pos: nat

    constructor (tape: nat -> Label)
      ensures this.tape == tape && pos == 0
    {
      this.tape := tape;
      pos := 0;
    }

    method Read() returns (l: Label)
      modifies this`pos
      ensures l == tape(old(pos)) && pos == old(pos) + 1
    {
      l := tape(pos);
      pos := pos + 1;
    }
  }

  /** A random label with its first five bytes cleared. */
  function ClearPrefix(l: Label): Label {
    [0, 0, 0, 0, 0] + l[5..]
  }

  /** The offset label with its lowest bit set. */
  function SetLastBit(l: Label): Label {
    l[..15] + [if l[15] % 2 == 0 then l[15] + 1 else l[15]]
  }

  /** Gates whose zero label is drawn at random. */
  predicate Draws(kind: GateType) {
    kind != XOR && kind != OUTPUT
  }

  /** Every assigned label obeys its rule. */
  ghost predicate Consistent(c: Circuit, delta: Label, w: seq<WireLabel>) {
    |w| == |c.gates| && forall v :: 0 <= v < |w| && w[v].Pair? ==> WireRule(c, delta, w, v)
  }

  /** Every drawn zero label comes from its own position of the tape, none from the position
      the offset was read from. */
  ghost predicate FreshDraws(c: Circuit, w: seq<WireLabel>, drawn: map<nat, nat>, tape: nat -> Label,
                             first: nat, pos: nat)
    requires |w| == |c.gates|
  {
    && (forall v :: 0 <= v < |w| && w[v].Pair? && Draws(c.gates[v].kind) ==>
      v in drawn && first < drawn[v] < pos && w[v].l0 == ClearPrefix(tape(drawn[v])))
    && (forall v :: v in drawn ==> v < |w| && w[v].Pair? && drawn[v] < pos)
    && (forall u, v :: u in drawn && v in drawn && u != v ==> drawn[u] != drawn[v])
  }

  /** The offset is the drawn label with its last bit set. */
  ghost predicate OffsetFromTape(delta: Label, drawnLabel: Label) {
    && (forall i :: 0 <= i < 15 ==> delta[i] == drawnLabel[i])
    && delta[15] / 2 == drawnLabel[15] / 2 && delta[15] % 2 == 1
  }

  /** A drawn zero label holds its tape position's bytes from the sixth on, after five zeros. */
  ghost predicate LabelsFromTape(c: Circuit, w: seq<WireLabel>, drawn: map<nat, nat>, tape: nat -> Label)
    requires |w| == |c.gates|
  {
    forall g :: 0 <= g < |w| && Draws(c.gates[g].kind) ==>
      && w[g].Pair? && g in drawn
      && (forall i :: 0 <= i < 5 ==> w[g].l0[i] == 0)
      && (forall i :: 5 <= i < 16 ==> w[g].l0[i] == tape(drawn[g])[i])
  }

  lemma OffsetBytes(l: Label)
    ensures OffsetFromTape(SetLastBit(l), l)
  {
  }

  lemma DrawnBytes(c: Circuit, w: seq<WireLabel>, drawn: map<nat, nat>, tape: nat -> Label, first: nat, pos: nat)
    requires |w| == |c.gates| && forall v :: 0 <= v < |w| ==> w[v].Pair?
    requires FreshDraws(c, w, drawn, tape, first, pos)
    ensures LabelsFromTape(c, w, drawn, tape)
  {
  }

  /** Labels are only ever added. */
  ghost predicate Extends(w: seq<WireLabel>, w': seq<WireLabel>) {
    |w| == |w'| && forall v :: 0 <= v < |w| && w[v].Pair? ==> w'[v] == w[v]
  }

  lemma RuleKept(c: Circuit, delta: Label, w: seq<WireLabel>, w': seq<WireLabel>, v: nat)
    requires |w| == |c.gates| && Extends(w, w') && v < |w|
    requires WireRule(c, delta, w, v)
    ensures WireRule(c, delta, w', v)
  {
    hide XorLabel, ZeroLabel, OneLabel;
  }

  lemma AssignOne(c: Circuit, delta: Label, w: seq<WireLabel>, g: nat, pair: WireLabel)
    requires Consistent(c, delta, w) && g < |w| && w[g] == Unassigned && pair.Pair?
    requires WireRule(c, delta, w[g := pair], g)
    ensures Consistent(c, delta, w[g := pair]) && Extends(w, w[g := pair])
  {
    hide WireRule;
    var w' := w[g := pair];
    forall v | 0 <= v < |w'| && w'[v].Pair? ensures WireRule(c, delta, w', v) {
      if v != g {
        RuleKept(c, delta, w, w', v);
      }
    }
  }

  lemma NoDraw(c: Circuit, w: seq<WireLabel>, drawn: map<nat, nat>, tape: nat -> Label,
               first: nat, pos: nat, g: nat, pair: WireLabel)
    requires |w| == |c.gates| && g < |w| && w[g] == Unassigned && pair.Pair?
    requires FreshDraws(c, w, drawn, tape, first, pos) && !Draws(c.gates[g].kind)
    ensures FreshDraws(c, w[g := pair], drawn, tape, first, pos)
  {
    hide ClearPrefix;
  }

  lemma DrawOne(c: Circuit, w: seq<WireLabel>, drawn: map<nat, nat>, tape: nat -> Label,
                first: nat, pos: nat, g: nat, pair: WireLabel)
    requires |w| == |c.gates| && g < |w| && w[g] == Unassigned && pair.Pair? && first < pos
    requires FreshDraws(c, w, drawn, tape, first, pos) && pair.l0 == ClearPrefix(tape(pos))
    ensures FreshDraws(c, w[g := pair], drawn[g := pos], tape, first, pos + 1)
  {
    hide ClearPrefix;
  }

  class SimpleGarbledCircuit {
    var numInputWires: nat
    var numOutputWires: nat
    var garbledGates: seq<seq<Label>>
    var wireLabels: seq<WireLabel>
    var freeXorDelta: Label
    /** The tape position behind each drawn label. */
    ghost var drawn: map<nat, nat>
    ghost var first: nat

    constructor ()
    {
      numInputWires, numOutputWires := 0, 0;
      garbledGates, wireLabels := [], [];
      freeXorDelta := ZeroLabel();
      drawn, first := map[], 0;
    }

    /** Labels of gate `g` after those of everything it reads; an operand that does not exist
        stops it with a panic. */
    method AssignWireLabels(g: nat, c: Circuit, rand: Rand) returns (ok: bool)
      requires ValidCircuit(c) && Acyclic(c) && g < |c.gates|
      requires Consistent(c, freeXorDelta, wireLabels)
      requires FreshDraws(c, wireLabels, drawn, rand.tape, first, rand.pos) && first < rand.pos
      modifies this`wireLabels, this`drawn, rand`pos
      ensures |wireLabels| == |c.gates|
      ensures Consistent(c, freeXorDelta, wireLabels) && Extends(old(wireLabels), wireLabels)
      ensures FreshDraws(c, wireLabels, drawn, rand.tape, first, rand.pos) && first < rand.pos
      ensures ok ==> wireLabels[g].Pair?
      ensures !ok ==> !Wired(c)
      ensures forall v :: 0 <= v < |wireLabels| && wireLabels[v] != old(wireLabels)[v] ==>
        v == g || v in Ancestors(c, g)
      decreases Ancestors(c, g)
    {
      hide Cyclic, Reaches, WireRule, Ancestors, XorLabel, ZeroLabel, OneLabel, ClearPrefix, Consistent,
           FreshDraws;
      ConsistentLength(c, freeXorDelta, wireLabels);
      if wireLabels[g].Pair? {
        return true;
      }
      XorOperandCount(c, g);
      NotOwnAncestor(c, g);
      var gate := c.gates[g];
      for i := 0 to |gate.inFrom|
        invariant |wireLabels| == |c.gates|
        invariant Consistent(c, freeXorDelta, wireLabels) && Extends(old(wireLabels), wireLabels)
        invariant FreshDraws(c, wireLabels, drawn, rand.tape, first, rand.pos) && first < rand.pos
        invariant forall k :: 0 <= k < i ==> gate.inFrom[k] < |wireLabels| && wireLabels[gate.inFrom[k]].Pair?
        invariant forall v :: 0 <= v < |wireLabels| && wireLabels[v] != old(wireLabels)[v] ==>
          v in Ancestors(c, g)
      {
        if gate.inFrom[i] >= |c.gates| {
          return false;
        }
        AcyclicPredecessor(c, g, gate.inFrom[i]);
        ok := AssignWireLabels(gate.inFrom[i], c, rand);
        if !ok {
          return;
        }
      }
      ChooseLabels(g, c, rand);
      ok := true;
    }

    /** Chooses the labels of gate `g` from those of its operands or from the tape. */
    method ChooseLabels(g: nat, c: Circuit, rand: Rand)
      requires g < |c.gates| == |wireLabels| && Consistent(c, freeXorDelta, wireLabels)
      requires FreshDraws(c, wireLabels, drawn, rand.tape, first, rand.pos) && first < rand.pos
      requires wireLabels[g] == Unassigned && (c.gates[g].kind == XOR ==> |c.gates[g].inFrom| == 2)
      requires forall i :: 0 <= i < |c.gates[g].inFrom| ==>
        c.gates[g].inFrom[i] < |wireLabels| && wireLabels[c.gates[g].inFrom[i]].Pair?
      modifies this`wireLabels, this`drawn, rand`pos
      ensures |wireLabels| == |c.gates|
      ensures Consistent(c, freeXorDelta, wireLabels) && Extends(old(wireLabels), wireLabels)
      ensures FreshDraws(c, wireLabels, drawn, rand.tape, first, rand.pos) && first < rand.pos
      ensures wireLabels[g].Pair?
      ensures forall v :: 0 <= v < |wireLabels| && v != g ==> wireLabels[v] == old(wireLabels)[v]
    {
      hide WireRule, XorLabel, ZeroLabel, OneLabel, ClearPrefix, Consistent, FreshDraws, Extends;
      var gate := c.gates[g];
      ghost var w := wireLabels;
      var pair: WireLabel;
      if Draws(gate.kind) {
        ghost var before := drawn;
        drawn := drawn[g := rand.pos];
        var l0 := rand.Read();
        l0 := ClearPrefix(l0);
        pair := Pair(l0, XorLabel(l0, freeXorDelta));
        DrawOne(c, w, before, rand.tape, first, rand.pos - 1, g, pair);
      } else {
        if gate.kind == XOR {
          var left, right := wireLabels[gate.inFrom[0]], wireLabels[gate.inFrom[1]];
          pair := Pair(XorLabel(left.l0, right.l0), XorLabel(left.l0, right.l1));
        } else {
          pair := Pair(ZeroLabel(), OneLabel());
        }
        NoDraw(c, w, drawn, rand.tape, first, rand.pos, g, pair);
      }
      ChosenPairObeysRule(c, freeXorDelta, w, g, pair);
      AssignOne(c, freeXorDelta, w, g, pair);
      wireLabels := wireLabels[g := pair];
    }

    /** garbleGate: the table of one gate that is not an input, or how the call ends. */
    method GarbleGate(hash: Hash, g: nat, c: Circuit) returns (outcome: Outcome, table: seq<Label>)
      requires Wired(c) && Acyclic(c) && g < |c.gates| && c.gates[g].kind != INPUT
      requires AllWires(c, freeXorDelta, wireLabels) && Selector(freeXorDelta) == 1
      ensures outcome == GateEnding(c.gates[g])
      ensures outcome == Done ==> GateGarbled(c, hash, wireLabels, g, table)
    {
      hide Cyclic, Reaches, Selector, Table4, Table2, WireRule;
      var gate := c.gates[g];
      AllPairs(c, freeXorDelta, wireLabels);
      table := [];
      if TableSize(gate.kind) >= 2 && |gate.inFrom| < (if TableSize(gate.kind) == 4 then 2 else 1) {
        return Panicked, table;
      }
      if TableSize(gate.kind) == 4 {
        SelectorsDiffer(c, freeXorDelta, wireLabels, gate.inFrom[0]);
        SelectorsDiffer(c, freeXorDelta, wireLabels, gate.inFrom[1]);
        table := GarbleTable4(hash, gate.kind, wireLabels[gate.inFrom[0]], wireLabels[gate.inFrom[1]], wireLabels[g]);
        Table4Size(hash, gate.kind, wireLabels[gate.inFrom[0]], wireLabels[gate.inFrom[1]], wireLabels[g], table);
        return Done, table;
      }
      if TableSize(gate.kind) == 2 {
        SelectorsDiffer(c, freeXorDelta, wireLabels, gate.inFrom[0]);
        table := GarbleTable2(hash, gate.kind, wireLabels[gate.inFrom[0]], wireLabels[g]);
        Table2Size(hash, gate.kind, wireLabels[gate.inFrom[0]], wireLabels[g], table);
        return Done, table;
      }
      var gateLocs, permuted := GetGatePermutation(TableSize(gate.kind), []);
      outcome := if permuted then Done else Failed;
    }

    /** Garbles every gate that is not an input, up to the first one that does not end normally. */
    method GarbleGates(c: Circuit, hash: Hash) returns (outcome: Outcome)
      requires Wired(c) && Acyclic(c)
      requires AllWires(c, freeXorDelta, wireLabels) && Selector(freeXorDelta) == 1
      modifies this`garbledGates
      ensures outcome == GarblingEnding(c, 0)
      ensures outcome == Done ==> Garbled(c, hash, wireLabels, garbledGates)
    {
      hide Cyclic, Reaches, Selector, WireRule, Wired, GateGarbled, GateEnding;
      var tables := [];
      for i := 0 to |c.gates|
        invariant |tables| == i && GarblingEnding(c, 0) == GarblingEnding(c, i)
        invariant forall k :: 0 <= k < i ==> GateGarbled(c, hash, wireLabels, k, tables[k])
      {
        var table := [];
        if c.gates[i].kind != INPUT {
          outcome, table := GarbleGate(hash, i, c);
          if outcome != Done {
            return;
          }
        } else {
          InputTable(c, hash, freeXorDelta, wireLabels, i);
        }
        tables := tables + [table];
      }
      outcome, garbledGates := Done, tables;
    }

    /** GarbleCircuit on circuits without loops: it fails on circuits that are not valid, panics
        when an operand does not exist, and otherwise ends as the first gate that does not garble.
        Every wire of a valid circuit whose operands exist gets labels by the rules, the offset is
        odd and no random label is used twice; the offset and the drawn zero labels hold the bytes of
        the tape, but for the offset's last bit and the labels' first five bytes. After normal ending
        every gate is garbled under the labels. */
    method GarbleCircuit(c: Circuit, hash: Hash, rand: Rand) returns (outcome: Outcome)
      requires ValidCircuit(c) ==> Acyclic(c)
      modifies this, rand
      ensures outcome == CircuitEnding(c)
      ensures !ValidCircuit(c) ==>
        wireLabels == old(wireLabels) && garbledGates == old(garbledGates) && rand.pos == old(rand.pos)
      ensures ValidCircuit(c) ==> numInputWires == c.numInputs && numOutputWires == c.numOutputs
      ensures Wired(c) ==>
        && Selector(freeXorDelta) == 1
        && AllWires(c, freeXorDelta, wireLabels)
        && first == old(rand.pos) && freeXorDelta == SetLastBit(rand.tape(first))
        && FreshDraws(c, wireLabels, drawn, rand.tape, first, rand.pos)
        && OffsetFromTape(freeXorDelta, rand.tape(first))
        && LabelsFromTape(c, wireLabels, drawn, rand.tape)
      ensures outcome == Done ==> Garbled(c, hash, wireLabels, garbledGates)
    {
      hide Cyclic, Reaches, Selector, WireRule, FreshDraws, Consistent, Wired, Garbled, SetLastBit, AllWires,
           GarblingEnding, OffsetFromTape, LabelsFromTape;
      WiredIsValid(c);
      if !ValidCircuit(c) {
        return Failed;
      }
      var n := |c.gates|;
      wireLabels := seq(n, i => Unassigned);
      numInputWires, numOutputWires := c.numInputs, c.numOutputs;
      drawn, first := map[], rand.pos;
      freeXorDelta := rand.Read();
      freeXorDelta := SetLastBit(freeXorDelta);
      SetLastBitIsOdd(rand.tape(first));
      NothingAssigned(c, freeXorDelta, wireLabels, rand.tape, first, rand.pos);
      for i := 0 to n
        modifies this`wireLabels, this`drawn, rand`pos
        invariant |wireLabels| == n && Consistent(c, freeXorDelta, wireLabels)
        invariant FreshDraws(c, wireLabels, drawn, rand.tape, first, rand.pos) && first < rand.pos
        invariant forall k :: 0 <= k < i ==> wireLabels[k].Pair?
      {
        var ok := AssignWireLabels(i, c, rand);
        if !ok {
          return Panicked;
        }
      }
      AllAssigned(c, freeXorDelta, wireLabels);
      WiredByRules(c, freeXorDelta, wireLabels);
      DrawnBytes(c, wireLabels, drawn, rand.tape, first, rand.pos);
      OffsetBytes(rand.tape(first));
      outcome := GarbleGates(c, hash);
    }

    /** PackedUnmarshal into this object. */
    method Unmarshal(b: seq<Byte>, c: Circuit) returns (outcome: Outcome)
      modifies this`numInputWires, this`numOutputWires, this`wireLabels, this`garbledGates
      ensures outcome == Ending(|b|, ExpectedStart(c, |c.gates|))
      ensures numInputWires == c.numInputs && numOutputWires == c.numOutputs
      ensures outcome == Done ==>
        && |wireLabels| == c.numInputs && (forall i :: 0 <= i < |wireLabels| ==> wireLabels[i].Pair?)
        && |garbledGates| == |c.gates|
        && (forall g :: 0 <= g < |garbledGates| ==> |garbledGates[g]| == TableSize(c.gates[g].kind))
        && Packs(c.numInputs, wireLabels, garbledGates, b)
    {
      hide Packs, Ending, ExpectedStart, TableSize;
      numInputWires, numOutputWires := c.numInputs, c.numOutputs;
      var w, tables;
      outcome, w, tables := PackedUnmarshal(b, c);
      wireLabels, garbledGates := w, tables;
    }

    /** GetInputLabelsFromBools: nothing unless there is a bit for every input wire. */
    method GetInputLabelsFromBools(inputs: seq<bool>) returns (ok: bool, labels: seq<Label>)
      requires numInputWires <= |wireLabels| && forall i :: 0 <= i < numInputWires ==> wireLabels[i].Pair?
      ensures ok <==> |inputs| == numInputWires
      ensures ok ==>
        && |labels| == |inputs|
        && forall i :: 0 <= i < |inputs| ==> labels[i] == LabelFor(wireLabels[i], inputs[i])
    {
      labels := [];
      if |inputs| != numInputWires {
        return false, labels;
      }
      for i := 0 to numInputWires
        invariant |labels| == i
        invariant forall k :: 0 <= k < i ==> labels[k] == LabelFor(wireLabels[k], inputs[k])
      {
        labels := labels + [LabelFor(wireLabels[i], inputs[i])];
      }
      ok := true;
    }
  }

  /** Every gate of the circuit is garbled under the labels. */
  ghost predicate Garbled(c: Circuit, hash: Hash, w: seq<WireLabel>, tables: seq<seq<Label>>)
    requires Wired(c)
  {
    |tables| == |w| == |c.gates| && forall g :: 0 <= g < |w| ==> GateGarbled(c, hash, w, g, tables[g])
  }

  lemma AllPairs(c: Circuit, delta: Label, w: seq<WireLabel>)
    requires AllWires(c, delta, w)
    ensures |w| == |c.gates| && forall v :: 0 <= v < |w| ==> w[v].Pair?
  {
    hide XorLabel;
    forall v | 0 <= v < |w| ensures w[v].Pair? {
      assert WireRule(c, delta, w, v);
    }
  }

  lemma Table4Size(hash: Hash, kind: GateType, left: WireLabel, right: WireLabel, out: WireLabel, table: seq<Label>)
    requires left.Pair? && right.Pair? && out.Pair? && Table4(hash, kind, left, right, out, table)
    ensures |table| == 4
  {
  }

  lemma Table2Size(hash: Hash, kind: GateType, left: WireLabel, out: WireLabel, table: seq<Label>)
    requires left.Pair? && out.Pair? && Table2(hash, kind, left, out, table)
    ensures |table| == 2
  {
  }

  lemma SetLastBitIsOdd(l: Label)
    ensures Selector(SetLastBit(l)) == 1
  {
  }

  lemma NothingAssigned(c: Circuit, delta: Label, w: seq<WireLabel>, tape: nat -> Label, first: nat, pos: nat)
    requires |w| == |c.gates| && forall v :: 0 <= v < |w| ==> w[v] == Unassigned
    ensures Consistent(c, delta, w) && FreshDraws(c, w, map[], tape, first, pos)
  {
  }

  lemma AllAssigned(c: Circuit, delta: Label, w: seq<WireLabel>)
    requires Consistent(c, delta, w) && forall v :: 0 <= v < |w| ==> w[v].Pair?
    ensures AllWires(c, delta, w)
  {
    hide WireRule;
  }

  lemma InputTable(c: Circuit, hash: Hash, delta: Label, w: seq<WireLabel>, g: nat)
    requires Wired(c) && AllWires(c, delta, w) && g < |c.gates| && c.gates[g].kind == INPUT
    ensures GateGarbled(c, hash, w, g, []) && GateEnding(c.gates[g]) == Done
  {
    AllPairs(c, delta, w);
  }

  lemma ConsistentLength(c: Circuit, delta: Label, w: seq<WireLabel>)
    requires Consistent(c, delta, w)
    ensures |w| == |c.gates|
  {
  }

  lemma NotOwnAncestor(c: Circuit, g: nat)
    ensures !Cyclic(c, g) ==> g !in Ancestors(c, g)
  {
  }

  lemma XorOperandCount(c: Circuit, g: nat)
    requires ValidCircuit(c) && g < |c.gates|
    ensures c.gates[g].kind == XOR ==> |c.gates[g].inFrom| == 2
  {
  }

  /** A valid circuit whose gates all got labels reads only gates that exist. */
  lemma WiredByRules(c: Circuit, delta: Label, w: seq<WireLabel>)
    requires ValidCircuit(c) && AllWires(c, delta, w)
    ensures Wired(c)
  {
    hide ValidCircuit;
    forall g, i | 0 <= g < |c.gates| && 0 <= i < |c.gates[g].inFrom| ensures c.gates[g].inFrom[i] < |c.gates| {
      assert WireRule(c, delta, w, g);
    }
  }

  lemma ChosenPairObeysRule(c: Circuit, delta: Label, w: seq<WireLabel>, g: nat, pair: WireLabel)
    requires |w| == |c.gates| && g < |w| && pair.Pair? && w[g] == Unassigned
    requires forall i :: 0 <= i < |c.gates[g].inFrom| ==> c.gates[g].inFrom[i] < |w| && w[c.gates[g].inFrom[i]].Pair?
    requires c.gates[g].kind == XOR ==>
      && |c.gates[g].inFrom| == 2
      && pair == Pair(XorLabel(w[c.gates[g].inFrom[0]].l0, w[c.gates[g].inFrom[1]].l0),
                      XorLabel(w[c.gates[g].inFrom[0]].l0, w[c.gates[g].inFrom[1]].l1))
    requires c.gates[g].kind == OUTPUT ==> pair == Pair(ZeroLabel(), OneLabel())
    requires Draws(c.gates[g].kind) ==>
      pair.l1 == XorLabel(pair.l0, delta) && exists l: Label :: pair.l0 == ClearPrefix(l)
    ensures WireRule(c, delta, w[g := pair], g)
  {
    hide XorLabel, ZeroLabel, OneLabel;
    assert forall i :: 0 <= i < |c.gates[g].inFrom| ==> c.gates[g].inFrom[i] != g;
  }
}
