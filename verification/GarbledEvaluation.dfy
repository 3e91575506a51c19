/** Evaluating a garbled circuit (toygarble/simplegarble.go, EvaluateCircuit) and the meaning
    it preserves. */
module GarbledEvaluation {
  import opened Bits
  import opened Circuit
  import opened Bristol
  import opened Labels
  import opened Garble
  import opened Packing
  import opened GarbledCircuit

  /** What a garbler hands out: labels by the rules, garbled gates and an odd offset. */
  ghost predicate Handed(c: Circuit, hash: Hash, delta: Label, w: seq<WireLabel>, tables: seq<seq<Label>>) {
    && Garbleable(c) && Wired(c)
    && Selector(delta) == 1
    && AllWires(c, delta, w)
    && Garbled(c, hash, w, tables)
  }

  /** The label of gate `g` that stands for its plain value. */
  ghost function TrueLabel(c: Circuit, w: seq<WireLabel>, inputs: seq<bool>, g: nat): Label
    requires Evaluable(c) && |inputs| == c.numInputs && g < |c.gates| == |w| && w[g].Pair? && !Cyclic(c, g)
  {
    LabelFor(w[g], Value(c, inputs, g))
  }

  // ---------- one gate ----------

  /** The row that two operand labels select decrypts to the label of the combined bit. */
  lemma Row4Decrypts(hash: Hash, kind: GateType, left: WireLabel, right: WireLabel, out: WireLabel,
                     table: seq<Label>, a: bool, b: bool)
    requires left.Pair? && right.Pair? && out.Pair? && Table4(hash, kind, left, right, out, table)
    ensures var la, lb := LabelFor(left, a), LabelFor(right, b);
      && |table| == 4
      && DecryptTableEntry(hash, SelectedRow(la, lb), KeyPart(la), KeyPart(lb), table[SelectedRow(la, lb)])
         == LabelFor(out, Combine(kind, a, b))
  {
    hide Selector, XorLabel, KeyPart, SelectedRow, Combine, DecryptTableEntry, EncryptTableEntry;
    var i := (if a then 2 else 0) + (if b then 1 else 0);
    assert FirstBit(i) == a && SecondBit(i) == b;
    assert Row4(hash, kind, left, right, out, table, i);
    var la, lb := LabelFor(left, a), LabelFor(right, b);
    DecryptInverts(hash, SelectedRow(la, lb), KeyPart(la), KeyPart(lb), LabelFor(out, Combine(kind, a, b)));
  }

  lemma Row2Decrypts(hash: Hash, kind: GateType, left: WireLabel, out: WireLabel, table: seq<Label>, a: bool)
    requires left.Pair? && out.Pair? && Table2(hash, kind, left, out, table)
    ensures var la := LabelFor(left, a);
      && |table| == 2
      && DecryptTableEntry(hash, Selector(la), KeyPart(la), [], table[Selector(la)])
         == LabelFor(out, Combine(kind, a, false))
  {
    hide Selector, XorLabel, KeyPart, Combine, DecryptTableEntry, EncryptTableEntry;
    var i := if a then 1 else 0;
    assert SecondBit(i) == a;
    assert Row2(hash, kind, left, out, table, i);
    var la := LabelFor(left, a);
    DecryptInverts(hash, Selector(la), KeyPart(la), [], LabelFor(out, Combine(kind, a, false)));
  }

  /** The rows the evaluator expects: two to the number of operands. */
  function Rows(operands: nat): nat {
    if operands == 0 then 1 else 2 * Rows(operands - 1)
  }

  /** What a gate makes of its operands' labels: their exclusive or, or the decrypted row that
      their selectors name. */
  function RowLabel(hash: Hash, kind: GateType, operands: nat, table: seq<Label>, label1: Label, label2: Label): Label
    requires kind != XOR ==> 1 <= operands <= 2 && |table| == Rows(operands)
  {
    if kind == XOR then XorLabel(label1, label2)
    else if operands == 2 then
      DecryptTableEntry(hash, SelectedRow(label1, label2), KeyPart(label1), KeyPart(label2),
                        table[SelectedRow(label1, label2)])
    else DecryptTableEntry(hash, Selector(label1), KeyPart(label1), [], table[Selector(label1)])
  }

  /** A gate that is garbled under the labels turns the labels of two bits into the label of
      the result; an exclusive or does so if its operands are balanced or the left bit is false. */
  lemma GateLabel(c: Circuit, hash: Hash, tables: seq<seq<Label>>, g: nat, label1: Label, label2: Label,
                  delta: Label, w: seq<WireLabel>, a: bool, b: bool)
    requires Handed(c, hash, delta, w, tables) && g < |c.gates| && c.gates[g].kind != INPUT && !Cyclic(c, g)
    requires c.gates[g].kind == XOR ==> Balanced(c, delta, g) || !a
    requires |c.gates[g].inFrom| >= 1 && c.gates[g].inFrom[0] < |w| && w[c.gates[g].inFrom[0]].Pair?
    requires label1 == LabelFor(w[c.gates[g].inFrom[0]], a)
    requires |c.gates[g].inFrom| == 2 ==>
      c.gates[g].inFrom[1] < |w| && w[c.gates[g].inFrom[1]].Pair? && label2 == LabelFor(w[c.gates[g].inFrom[1]], b)
    requires |c.gates[g].inFrom| != 2 ==> !b
    ensures c.gates[g].kind != XOR ==> |c.gates[g].inFrom| <= 2 && |tables[g]| == Rows(|c.gates[g].inFrom|)
    ensures w[g].Pair?
      && RowLabel(hash, c.gates[g].kind, |c.gates[g].inFrom|, tables[g], label1, label2)
         == LabelFor(w[g], Combine(c.gates[g].kind, a, b))
  {
    hide Cyclic, XorLabel, Selector, WireRule, Balanced, Table4, Table2, SelectedRow, KeyPart, DecryptTableEntry,
         AllWires;
    var gate := c.gates[g];
    assert GateGarbled(c, hash, w, g, tables[g]);
    assert Rows(1) == 2 && Rows(2) == 4;
    if gate.kind == XOR {
      XorBitExact(c, delta, w, g, a, b);
    } else if |gate.inFrom| == 2 {
      Row4Decrypts(hash, gate.kind, w[gate.inFrom[0]], w[gate.inFrom[1]], w[g], tables[g], a, b);
    } else {
      Row2Decrypts(hash, gate.kind, w[gate.inFrom[0]], w[g], tables[g], a);
    }
  }

  // ---------- the memoised evaluator ----------

  /** Every gate that has a table has one of the expected size. */
  ghost predicate TablesFit(c: Circuit, tables: seq<seq<Label>>) {
    && |tables| == |c.gates|
    && forall g :: 0 <= g < |tables| && c.gates[g].kind != INPUT && c.gates[g].kind != XOR ==>
      |tables[g]| == Rows(|c.gates[g].inFrom|)
  }

  lemma HandedFits(c: Circuit, hash: Hash, delta: Label, w: seq<WireLabel>, tables: seq<seq<Label>>)
    requires Handed(c, hash, delta, w, tables)
    ensures TablesFit(c, tables)
  {
    hide Cyclic, AllWires, Selector, WireRule, Table4, Table2;
    assert Rows(1) == 2 && Rows(2) == 4;
    forall g | 0 <= g < |tables| && c.gates[g].kind != INPUT && c.gates[g].kind != XOR
      ensures |tables[g]| == Rows(|c.gates[g].inFrom|)
    {
      assert GateGarbled(c, hash, w, g, tables[g]);
    }
  }

  /** The recursive meaning of a garbled gate on any input labels: no memo, no marks. */
  ghost function GarbledLabel(c: Circuit, hash: Hash, tables: seq<seq<Label>>, inputLabels: seq<Label>, g: nat): Label
    requires Evaluable(c) && TablesFit(c, tables) && |inputLabels| == c.numInputs && g < |c.gates| && !Cyclic(c, g)
    decreases Ancestors(c, g)
  {
    var gate := c.gates[g];
    if gate.kind == INPUT then inputLabels[g]
    else
      AcyclicPredecessor(c, g, gate.inFrom[0]);
      var label1 := GarbledLabel(c, hash, tables, inputLabels, gate.inFrom[0]);
      if |gate.inFrom| == 2 then
        AcyclicPredecessor(c, g, gate.inFrom[1]);
        var label2 := GarbledLabel(c, hash, tables, inputLabels, gate.inFrom[1]);
        RowLabel(hash, gate.kind, 2, tables[g], label1, label2)
      else RowLabel(hash, gate.kind, 1, tables[g], label1, ZeroLabel())
  }

  /** Every calculated gate holds its label. */
  ghost predicate LabelMemo(c: Circuit, hash: Hash, tables: seq<seq<Label>>, inputLabels: seq<Label>,
                            calculated: array<bool>, labels: array<Label>)
    requires Evaluable(c) && TablesFit(c, tables) && |inputLabels| == c.numInputs
    requires calculated.Length == labels.Length == |c.gates|
    reads calculated, labels
  {
    forall v :: 0 <= v < |c.gates| && calculated[v] ==>
      !Cyclic(c, v) && labels[v] == GarbledLabel(c, hash, tables, inputLabels, v)
  }

  /** A gate is loop-free exactly when its predecessors are, and then has the combined label. */
  lemma LabelOutcome(c: Circuit, hash: Hash, tables: seq<seq<Label>>, inputLabels: seq<Label>, g: nat,
                     s1: bool, l1: Label, s2: bool, l2: Label)
    requires Evaluable(c) && TablesFit(c, tables) && |inputLabels| == c.numInputs && g < |c.gates|
    requires c.gates[g].kind != INPUT ==>
      && (s1 <==> !Cyclic(c, c.gates[g].inFrom[0]))
      && (s1 ==> l1 == GarbledLabel(c, hash, tables, inputLabels, c.gates[g].inFrom[0]))
    requires |c.gates[g].inFrom| == 2 ==>
      && (s2 <==> !Cyclic(c, c.gates[g].inFrom[1]))
      && (s2 ==> l2 == GarbledLabel(c, hash, tables, inputLabels, c.gates[g].inFrom[1]))
    requires |c.gates[g].inFrom| != 2 ==> s2 && l2 == ZeroLabel()
    ensures c.gates[g].kind == INPUT ==>
      !Cyclic(c, g) && GarbledLabel(c, hash, tables, inputLabels, g) == inputLabels[g]
    ensures c.gates[g].kind != INPUT ==> (!Cyclic(c, g) <==> s1 && s2)
    ensures c.gates[g].kind != INPUT && !Cyclic(c, g) ==>
      GarbledLabel(c, hash, tables, inputLabels, g)
      == RowLabel(hash, c.gates[g].kind, |c.gates[g].inFrom|, tables[g], l1, l2)
  {
    hide Cyclic, Ancestors, RowLabel, Rows, ZeroLabel;
    LoopFreeIff(c, g);
  }

  method EvaluateGarbledGate(c: Circuit, hash: Hash, tables: seq<seq<Label>>, g: nat,
                             visited: array<bool>, calculated: array<bool>, labels: array<Label>,
                             inputLabels: seq<Label>)
    returns (success: bool, result: Label)
    requires Evaluable(c) && TablesFit(c, tables) && |inputLabels| == c.numInputs && g < |c.gates|
    requires visited.Length == calculated.Length == labels.Length == |c.gates|
    requires visited != calculated
    requires LabelMemo(c, hash, tables, inputLabels, calculated, labels) && Pending(c, visited, calculated, g)
    modifies visited, calculated, labels
    ensures LabelMemo(c, hash, tables, inputLabels, calculated, labels)
    ensures success <==> !Cyclic(c, g)
    ensures success ==> result == GarbledLabel(c, hash, tables, inputLabels, g) && calculated[g]
    ensures forall v :: 0 <= v < |c.gates| && old(visited[v]) ==> visited[v]
    ensures forall v :: 0 <= v < |c.gates| && old(calculated[v]) ==> calculated[v]
    ensures forall v :: 0 <= v < |c.gates| && visited[v] && !calculated[v] ==>
      old(visited[v] && !calculated[v]) || Cyclic(c, v)
    decreases Unvisited(visited)
  {
    hide Reaches, Walk, Cyclic, GarbledLabel, Ancestors, ZeroLabel, Rows, RowLabel;
    result := ZeroLabel();
    if visited[g] && !calculated[g] {
      LoopIsCyclic(c, g);
      return false, result;
    }
    if calculated[g] {
      return true, labels[g];
    }
    ghost var before := Unvisited(visited);
    visited[g] := true;
    assert g in before && Unvisited(visited) == before - {g};
    var gate := c.gates[g];
    success := true;
    var success1, success2, label1, label2 := true, true, ZeroLabel(), ZeroLabel();
    if gate.kind == INPUT {
      result := inputLabels[g];
      LabelOutcome(c, hash, tables, inputLabels, g, false, label1, true, label2);
    } else if |tables[g]| != Rows(|gate.inFrom|) && gate.kind != XOR {
      success := false;
    } else {
      PendingPredecessor(c, visited, calculated, g, gate.inFrom[0]);
      success1, label1 := EvaluateGarbledGate(c, hash, tables, gate.inFrom[0], visited, calculated, labels,
                                              inputLabels);
      if |gate.inFrom| == 2 {
        assert Unvisited(visited) <= before - {g};
        PendingPredecessor(c, visited, calculated, g, gate.inFrom[1]);
        success2, label2 := EvaluateGarbledGate(c, hash, tables, gate.inFrom[1], visited, calculated, labels,
                                                inputLabels);
      }
      success := success1 && success2;
      LabelOutcome(c, hash, tables, inputLabels, g, success1, label1, success2, label2);
      if success {
        result := RowLabel(hash, gate.kind, |gate.inFrom|, tables[g], label1, label2);
      }
    }
    if success {
      calculated[g] := true;
      labels[g] := result;
    }
  }

  /** EvaluateCircuit on labels: it succeeds exactly when the number of labels is right, there
      is an output and no output runs into a loop; each result is then the recursive meaning of
      its output gate. */
  method EvaluateLabels(c: Circuit, hash: Hash, tables: seq<seq<Label>>, inputLabels: seq<Label>)
    returns (success: bool, results: seq<Label>)
    requires Evaluable(c) && TablesFit(c, tables)
    ensures success <==>
      && |inputLabels| == c.numInputs && c.numOutputs >= 1
      && forall i :: 0 <= i < c.numOutputs ==> !Cyclic(c, OutputGate(c, i))
    ensures success ==>
      && |results| == c.numOutputs
      && forall i :: 0 <= i < c.numOutputs ==>
        results[i] == GarbledLabel(c, hash, tables, inputLabels, OutputGate(c, i))
  {
    hide Reaches, Walk, Cyclic, GarbledLabel, ZeroLabel;
    if |inputLabels| != c.numInputs || c.numOutputs < 1 {
      return false, [];
    }
    var n := |c.gates|;
    var visited, calculated := new bool[n](_ => false), new bool[n](_ => false);
    var labels := new Label[n](_ => ZeroLabel());
    results := [];
    for i := 0 to c.numOutputs
      invariant |results| == i && LabelMemo(c, hash, tables, inputLabels, calculated, labels)
      invariant forall k :: 0 <= k < i ==>
        !Cyclic(c, OutputGate(c, k)) && results[k] == GarbledLabel(c, hash, tables, inputLabels, OutputGate(c, k))
    {
      for j := 0 to n
        invariant forall v :: 0 <= v < j ==> !visited[v]
        invariant LabelMemo(c, hash, tables, inputLabels, calculated, labels)
      {
        visited[j] := false;
      }
      var ok, l := EvaluateGarbledGate(c, hash, tables, OutputGate(c, i), visited, calculated, labels, inputLabels);
      if !ok {
        return false, [];
      }
      results := results + [l];
    }
    success := true;
  }

  // ---------- when the labels are the right ones ----------

  /** The input labels stand for the inputs. */
  ghost predicate InputLabels(c: Circuit, w: seq<WireLabel>, inputs: seq<bool>, inputLabels: seq<Label>) {
    && |inputs| == |inputLabels| == c.numInputs <= |w|
    && forall i :: 0 <= i < c.numInputs ==> w[i].Pair? && inputLabels[i] == LabelFor(w[i], inputs[i])
  }

  /** Evaluation comes to gate `g`. */
  ghost predicate Read(c: Circuit, g: nat) {
    exists i :: 0 <= i < c.numOutputs && (OutputGate(c, i) == g || Reaches(c, OutputGate(c, i), g))
  }

  lemma ReadOperand(c: Circuit, g: nat, v: nat)
    requires Read(c, g) && g < |c.gates| && v < |c.gates| && v in c.gates[g].inFrom
    ensures Read(c, v)
  {
    hide Reaches;
    var i :| 0 <= i < c.numOutputs && (OutputGate(c, i) == g || Reaches(c, OutputGate(c, i), g));
    ReachesEdge(c, g, v);
    if OutputGate(c, i) != g {
      ReachesTrans(c, OutputGate(c, i), g, v);
    }
  }

  /** The exclusive or `g` has balanced operands, or the plain value of the left one is false. */
  ghost predicate XorIsRight(c: Circuit, delta: Label, inputs: seq<bool>, g: nat)
    requires Evaluable(c) && Wired(c) && |inputs| == c.numInputs
    requires g < |c.gates| && c.gates[g].kind == XOR && !Cyclic(c, g)
  {
    AcyclicPredecessor(c, g, c.gates[g].inFrom[0]);
    Balanced(c, delta, g) || !Value(c, inputs, c.gates[g].inFrom[0])
  }

  /** So do all exclusive ors that evaluation comes to. */
  ghost predicate ReadXorsRight(c: Circuit, delta: Label, inputs: seq<bool>)
    requires Evaluable(c) && Wired(c) && |inputs| == c.numInputs
  {
    forall g :: 0 <= g < |c.gates| && c.gates[g].kind == XOR && !Cyclic(c, g) && Read(c, g) ==>
      XorIsRight(c, delta, inputs, g)
  }

  /** All exclusive ors that evaluation comes to have balanced operands. */
  ghost predicate ReadsBalanced(c: Circuit, delta: Label)
    requires Wired(c)
  {
    forall g :: 0 <= g < |c.gates| && c.gates[g].kind == XOR && !Cyclic(c, g) && Read(c, g) ==> Balanced(c, delta, g)
  }

  lemma BalancedIsRight(c: Circuit, delta: Label, inputs: seq<bool>)
    requires Evaluable(c) && Wired(c) && |inputs| == c.numInputs && ReadsBalanced(c, delta)
    ensures ReadXorsRight(c, delta, inputs)
  {
    hide Cyclic, Balanced, Value, Read;
  }

  ghost predicate LabelIsRight(c: Circuit, hash: Hash, delta: Label, w: seq<WireLabel>, tables: seq<seq<Label>>,
                               inputs: seq<bool>, inputLabels: seq<Label>, g: nat)
    requires Handed(c, hash, delta, w, tables) && TablesFit(c, tables) && InputLabels(c, w, inputs, inputLabels)
    requires g < |c.gates| && !Cyclic(c, g)
  {
    && w[g].Pair?
    && GarbledLabel(c, hash, tables, inputLabels, g) == TrueLabel(c, w, inputs, g)
  }

  /** Below the outputs evaluation yields the label of the plain value. */
  lemma {:induction false} RightLabel(c: Circuit, hash: Hash, delta: Label, w: seq<WireLabel>, tables: seq<seq<Label>>,
                                      inputs: seq<bool>, inputLabels: seq<Label>, g: nat)
    requires Handed(c, hash, delta, w, tables) && TablesFit(c, tables) && InputLabels(c, w, inputs, inputLabels)
    requires g < |c.gates| && !Cyclic(c, g) && Read(c, g) && ReadXorsRight(c, delta, inputs)
    ensures LabelIsRight(c, hash, delta, w, tables, inputs, inputLabels, g)
    decreases Ancestors(c, g)
  {
    hide Cyclic, Reaches, Ancestors, Read, Balanced, RowLabel, Combine, Rows, GateGarbled, WireRule, Selector;
    var gate := c.gates[g];
    AllPairs(c, delta, w);
    LoopFreeIff(c, g);
    if gate.kind == INPUT {
      GateOutcome(c, inputs, g, false, false, false, false);
    } else {
      AcyclicPredecessor(c, g, gate.inFrom[0]);
      ReadOperand(c, g, gate.inFrom[0]);
      RightLabel(c, hash, delta, w, tables, inputs, inputLabels, gate.inFrom[0]);
      if |gate.inFrom| == 2 {
        AcyclicPredecessor(c, g, gate.inFrom[1]);
        ReadOperand(c, g, gate.inFrom[1]);
        RightLabel(c, hash, delta, w, tables, inputs, inputLabels, gate.inFrom[1]);
      }
      RightFromOperands(c, hash, delta, w, tables, inputs, inputLabels, g);
    }
  }

  /** Right labels of the operands give the right label, exactly when the gate is no exclusive
      or or a right one. */
  lemma RightFromOperands(c: Circuit, hash: Hash, delta: Label, w: seq<WireLabel>, tables: seq<seq<Label>>,
                          inputs: seq<bool>, inputLabels: seq<Label>, g: nat)
    requires Handed(c, hash, delta, w, tables) && TablesFit(c, tables) && InputLabels(c, w, inputs, inputLabels)
    requires g < |c.gates| && !Cyclic(c, g) && c.gates[g].kind != INPUT
    requires forall i :: 0 <= i < |c.gates[g].inFrom| ==>
      && !Cyclic(c, c.gates[g].inFrom[i])
      && LabelIsRight(c, hash, delta, w, tables, inputs, inputLabels, c.gates[g].inFrom[i])
    ensures LabelIsRight(c, hash, delta, w, tables, inputs, inputLabels, g)
       <==> c.gates[g].kind == XOR ==> XorIsRight(c, delta, inputs, g)
  {
    hide Cyclic, Reaches, Ancestors, Balanced, RowLabel, Combine, Rows, GateGarbled, WireRule, Selector;
    var gate := c.gates[g];
    AllPairs(c, delta, w);
    var left := gate.inFrom[0];
    assert LabelIsRight(c, hash, delta, w, tables, inputs, inputLabels, left);
    var a, b := Value(c, inputs, left), false;
    var label1, label2 := TrueLabel(c, w, inputs, left), ZeroLabel();
    if |gate.inFrom| == 2 {
      var right := gate.inFrom[1];
      assert LabelIsRight(c, hash, delta, w, tables, inputs, inputLabels, right);
      b, label2 := Value(c, inputs, right), TrueLabel(c, w, inputs, right);
    }
    LabelOutcome(c, hash, tables, inputLabels, g, true, label1, true, label2);
    GateOutcome(c, inputs, g, true, a, |gate.inFrom| == 2, b);
    if gate.kind == XOR {
      XorRow(c, hash, delta, w, g, tables[g], a, b);
    } else {
      GateLabel(c, hash, tables, g, label1, label2, delta, w, a, b);
    }
  }

  lemma XorRow(c: Circuit, hash: Hash, delta: Label, w: seq<WireLabel>, g: nat, table: seq<Label>, a: bool, b: bool)
    requires Wired(c) && AllWires(c, delta, w) && g < |w| && !Cyclic(c, g) && c.gates[g].kind == XOR
    ensures |c.gates[g].inFrom| == 2
    ensures var left, right := c.gates[g].inFrom[0], c.gates[g].inFrom[1];
      && w[left].Pair? && w[right].Pair? && w[g].Pair?
      && (RowLabel(hash, XOR, 2, table, LabelFor(w[left], a), LabelFor(w[right], b))
          == LabelFor(w[g], Combine(XOR, a, b))
          <==> Balanced(c, delta, g) || !a)
  {
    hide Cyclic, Balanced, WireRule, XorLabel;
    XorBitExact(c, delta, w, g, a, b);
  }

  /** For one input, all gates that evaluation comes to carry the label of their plain value if
      and only if every exclusive or among them is balanced or has a false left operand. */
  lemma LabelsRightIff(c: Circuit, hash: Hash, delta: Label, w: seq<WireLabel>, tables: seq<seq<Label>>,
                       inputs: seq<bool>, inputLabels: seq<Label>)
    requires Handed(c, hash, delta, w, tables) && TablesFit(c, tables) && InputLabels(c, w, inputs, inputLabels)
    ensures (forall g :: 0 <= g < |c.gates| && !Cyclic(c, g) && Read(c, g) ==>
              LabelIsRight(c, hash, delta, w, tables, inputs, inputLabels, g))
       <==> ReadXorsRight(c, delta, inputs)
  {
    hide Cyclic, Read, XorIsRight, LabelIsRight, TablesFit, AllWires, Garbled, Selector, Ancestors;
    if ReadXorsRight(c, delta, inputs) {
      forall g | 0 <= g < |c.gates| && !Cyclic(c, g) && Read(c, g)
        ensures LabelIsRight(c, hash, delta, w, tables, inputs, inputLabels, g)
      {
        RightLabel(c, hash, delta, w, tables, inputs, inputLabels, g);
      }
    }
    if forall g :: 0 <= g < |c.gates| && !Cyclic(c, g) && Read(c, g) ==>
      LabelIsRight(c, hash, delta, w, tables, inputs, inputLabels, g)
    {
      forall g | 0 <= g < |c.gates| && c.gates[g].kind == XOR && !Cyclic(c, g) && Read(c, g)
        ensures XorIsRight(c, delta, inputs, g)
      {
        forall i | 0 <= i < |c.gates[g].inFrom|
          ensures !Cyclic(c, c.gates[g].inFrom[i])
          ensures LabelIsRight(c, hash, delta, w, tables, inputs, inputLabels, c.gates[g].inFrom[i])
        {
          AcyclicPredecessor(c, g, c.gates[g].inFrom[i]);
          ReadOperand(c, g, c.gates[g].inFrom[i]);
        }
        RightFromOperands(c, hash, delta, w, tables, inputs, inputLabels, g);
      }
    }
  }

  // ---------- decoding ----------

  /** The low bit of an output label is the plain value of the output. */
  lemma OutputBit(c: Circuit, delta: Label, w: seq<WireLabel>, inputs: seq<bool>, i: nat)
    requires Garbleable(c) && OutputsPlaced(c) && AllWires(c, delta, w) && |inputs| == c.numInputs
    requires i < c.numOutputs && !Cyclic(c, OutputGate(c, i))
    ensures var g := OutputGate(c, i);
      w[g].Pair? && Selector(TrueLabel(c, w, inputs, g)) == if Value(c, inputs, g) then 1 else 0
  {
    hide Reaches, Walk, Cyclic, Value, XorLabel;
    assert WireRule(c, delta, w, OutputGate(c, i));
    ConstantSelectors();
  }

  function Digit(bit: bool): char {
    if bit then '1' else '0'
  }

  /** DecodePlaintextOutputLabels: the low bits as digits, the first output last. */
  method DecodeOutputs(labels: seq<Label>) returns (out: string)
    ensures |out| == |labels|
    ensures forall i :: 0 <= i < |labels| ==> out[|labels| - 1 - i] == Digit(Selector(labels[i]) == 1)
  {
    hide Selector;
    out := "";
    for i := 0 to |labels|
      invariant |out| == i && forall k :: 0 <= k < i ==> out[i - 1 - k] == Digit(Selector(labels[k]) == 1)
    {
      out := [Digit(Selector(labels[i]) == 1)] + out;
    }
  }

  /** The packed form has the length the receiver expects. */
  lemma {:induction false} PackedLength(c: Circuit, hash: Hash, w: seq<WireLabel>, tables: seq<seq<Label>>,
                                        b: seq<Byte>)
    requires Wired(c) && Garbled(c, hash, w, tables) && forall v :: 0 <= v < |w| ==> w[v].Pair?
    requires c.numInputs <= |w| && Packs(c.numInputs, w, tables, b)
    ensures Ending(|b|, ExpectedStart(c, |c.gates|)) == Done
    ensures |tables| == |w| == |c.gates|
    ensures forall g :: 0 <= g < |tables| ==> |tables[g]| == TableSize(c.gates[g].kind)
  {
    hide InputsAt, TablesAt, TableSize, Table4, Table2, ValidCircuit, Wired;
    forall g | 0 <= g < |tables| ensures |tables[g]| == TableSize(c.gates[g].kind) {
      assert GateGarbled(c, hash, w, g, tables[g]);
    }
    ExpectedTables(c, tables, |c.gates|);
  }

  lemma {:induction false} ExpectedTables(c: Circuit, tables: seq<seq<Label>>, g: nat)
    requires g <= |tables| == |c.gates|
    requires forall k :: 0 <= k < |tables| ==> |tables[k]| == TableSize(c.gates[k].kind)
    ensures Start(c.numInputs, tables, g) == ExpectedStart(c, g)
  {
    hide TableSize;
    if g > 0 {
      ExpectedTables(c, tables, g - 1);
    }
  }

  /** What a garbled run goes through: the labels and tables of the garbler, the tape position each
      zero label was drawn from, the bytes sent and the labels of the inputs. */
  datatype Transcript = Transcript(w: seq<WireLabel>, tables: seq<seq<Label>>, drawn: map<nat, nat>,
                                   packed: seq<Byte>, inputLabels: seq<Label>)

  /** A run on tape positions `first` to `pos`: the labels are those of the tape, none drawn twice, the
      tables a correct garbling under them, the bytes their packed form, and the digits the low
      bits of the evaluated output labels. */
  ghost predicate RanGarbled(c: Circuit, hash: Hash, tape: nat -> Label, first: nat, pos: nat, inputs: seq<bool>,
                             x: Transcript, out: string)
  {
    && Handed(c, hash, SetLastBit(tape(first)), x.w, x.tables) && TablesFit(c, x.tables)
    && Acyclic(c) && |out| == c.numOutputs
    && FreshDraws(c, x.w, x.drawn, tape, first, pos) && LabelsFromTape(c, x.w, x.drawn, tape)
    && InputLabels(c, x.w, inputs, x.inputLabels) && Packs(c.numInputs, x.w, x.tables, x.packed)
    && forall i :: 0 <= i < c.numOutputs ==>
      out[c.numOutputs - 1 - i]
      == Digit(Selector(GarbledLabel(c, hash, x.tables, x.inputLabels, OutputGate(c, i))) == 1)
  }

  /** Garble, pack, unpack, choose input labels, evaluate, decode. When garbling ends normally,
      then for every tape of random labels and every input the digits are the low bits of the
      evaluated labels; they are the plain outputs of the circuit if its output gates are in place
      and every exclusive or that evaluation comes to is balanced or has a false left operand. */
  method GarbledRun(c: Circuit, hash: Hash, rand: Rand, inputs: seq<bool>)
    returns (garbling: Outcome, success: bool, out: string, ghost x: Transcript)
    requires ValidCircuit(c) ==> Acyclic(c)
    requires InputsPlaced(c)
    modifies rand
    ensures garbling == CircuitEnding(c)
    ensures success <==> garbling == Done && |inputs| == c.numInputs && c.numOutputs >= 1
    ensures success ==>
      && Acyclic(c) && |out| == c.numOutputs
      && RanGarbled(c, hash, rand.tape, old(rand.pos), rand.pos, inputs, x, out)
      && (OutputsPlaced(c) && ReadXorsRight(c, SetLastBit(rand.tape(old(rand.pos))), inputs) ==>
        forall i :: 0 <= i < c.numOutputs ==>
          out[c.numOutputs - 1 - i] == Digit(Value(c, inputs, OutputGate(c, i))))
  {
    hide Reaches, Walk, Cyclic, Value, Selector, AllWires, Garbled, FreshDraws, ReadXorsRight, GarbledLabel, Wired,
         SetLastBit, ExpectedStart, Packs, LabelsFromTape, Ending, Digit, GarblingEnding, TablesFit, Garbleable;
    out, success, x := "", false, Transcript([], [], map[], [], []);
    var garbler := new SimpleGarbledCircuit();
    garbling := garbler.GarbleCircuit(c, hash, rand);
    if garbling != Done {
      return;
    }
    DoneIsGarbleable(c);
    ghost var delta := garbler.freeXorDelta;
    ghost var w, tables := garbler.wireLabels, garbler.garbledGates;
    AllPairs(c, delta, w);
    var packed := PackedMarshal(garbler.numInputWires, garbler.wireLabels, garbler.garbledGates);
    var evaluator := new SimpleGarbledCircuit();
    GarbleableSize(c);
    PackedLength(c, hash, w, tables, packed);
    var outcome := evaluator.Unmarshal(packed, c);
    PacksInjective(c, w, tables, evaluator.wireLabels, evaluator.garbledGates, packed);
    var chosen, received := evaluator.GetInputLabelsFromBools(inputs);
    x := Transcript(w, tables, garbler.drawn, packed, received);
    if !chosen {
      return;
    }
    HandedFits(c, hash, delta, w, tables);
    var results: seq<Label>;
    success, results := EvaluateLabels(c, hash, evaluator.garbledGates, received);
    if success {
      out := DecodeOutputs(results);
      if OutputsPlaced(c) && ReadXorsRight(c, delta, inputs) {
        forall i | 0 <= i < c.numOutputs
          ensures out[c.numOutputs - 1 - i] == Digit(Value(c, inputs, OutputGate(c, i)))
        {
          RightDigit(c, hash, delta, w, tables, inputs, received, i);
        }
      }
    }
  }

  lemma GarbleableSize(c: Circuit)
    requires Garbleable(c)
    ensures Evaluable(c) && c.numInputs + c.numOutputs <= |c.gates|
  {
  }

  lemma RightDigit(c: Circuit, hash: Hash, delta: Label, w: seq<WireLabel>, tables: seq<seq<Label>>,
                   inputs: seq<bool>, inputLabels: seq<Label>, i: nat)
    requires Handed(c, hash, delta, w, tables) && TablesFit(c, tables) && InputLabels(c, w, inputs, inputLabels)
    requires Acyclic(c) && OutputsPlaced(c) && ReadXorsRight(c, delta, inputs) && i < c.numOutputs
    ensures OutputGate(c, i) < |c.gates|
    ensures (Selector(GarbledLabel(c, hash, tables, inputLabels, OutputGate(c, i))) == 1)
         == Value(c, inputs, OutputGate(c, i))
  {
    hide Cyclic, Reaches, Selector, GarbledLabel, Value, ReadXorsRight, AllWires, Garbled, TablesFit;
    RightLabel(c, hash, delta, w, tables, inputs, inputLabels, OutputGate(c, i));
    OutputBit(c, delta, w, inputs, i);
  }

  /** No line copies a wire. */
  predicate NoCopies(f: File) {
    forall k :: 0 <= k < |f.lines| ==> f.lines[k].op != OpEqw
  }

  lemma ParsedGarbleable(f: File, c: Circuit)
    requires WiresInRange(f) && Represents(f, c) && f.numInputs > 0 && NoConstants(f)
    ensures Evaluable(c) && Wired(c) && Acyclic(c) && OutputsAreSinks(c)
    ensures Garbleable(c) <==> NoCopies(f)
    ensures GarblingEnding(c, 0) == if NoCopies(f) then Done else Panicked
  {
    hide Cyclic, Writer, Driver, WiresInRange, OutputsAreSinks, GarblingEnding, Represents, LineOk, GateOf, KindOf;
    ParsedEvaluable(f, c);
    ParsedOutputsAreSinks(f, c);
    forall g | 0 <= g < |c.gates|
      ensures !Cyclic(c, g)
    {
      ParsedAcyclic(f, c, g);
    }
    RepresentsSize(f, c);
    forall g | 0 <= g < |c.gates|
      ensures c.gates[g].kind == COPY <==> g >= Base(f) && f.lines[g - Base(f)].op == OpEqw
      ensures GateEnding(c.gates[g]) == if c.gates[g].kind == COPY then Panicked else Done
    {
      ParsedEnding(f, c, g);
    }
    if !NoCopies(f) {
      var k :| 0 <= k < |f.lines| && f.lines[k].op == OpEqw;
      assert c.gates[Base(f) + k].kind == COPY;
    }
    EndingIsDone(c, 0);
    EndingIsPanic(c, 0);
  }

  lemma ParsedEnding(f: File, c: Circuit, g: nat)
    requires WiresInRange(f) && Represents(f, c) && f.numInputs > 0 && NoConstants(f) && g < |c.gates|
    ensures c.gates[g].kind == COPY <==> g >= Base(f) && f.lines[g - Base(f)].op == OpEqw
    ensures GateEnding(c.gates[g]) == if c.gates[g].kind == COPY then Panicked else Done
  {
    hide Writer, Driver, LineOk, LineGate;
    if g >= Base(f) {
      LineShape(f, c, g);
    } else if g >= f.numInputs {
      OutputReads(f, c, g);
    }
  }

  /** The parser puts input and output gates in their places. */
  lemma ParsedPlaces(f: File, c: Circuit)
    requires WiresInRange(f) && Represents(f, c)
    ensures InputsPlaced(c) && OutputsPlaced(c)
  {
    hide Writer, LineOk, LineGate, KindOf, Represents;
    RepresentsSize(f, c);
    forall g | 0 <= g < |c.gates|
      ensures c.gates[g].kind == INPUT ==> g < c.numInputs
      ensures c.numInputs <= g < c.numInputs + c.numOutputs ==> c.gates[g].kind == OUTPUT
    {
      if g >= Base(f) {
        LineShape(f, c, g);
      } else if g >= f.numInputs {
        OutputReads(f, c, g);
      }
    }
  }

  /** The whole path for a circuit file with inputs: garbling fails on files with constants,
      panics on other files with copies, and on all others the garbled circuit, sent and
      evaluated, gives what plain evaluation of the parsed circuit gives. */
  method RunFile(f: File, hash: Hash, rand: Rand, inputs: seq<bool>)
    returns (parsed: bool, garbling: Outcome, success: bool, garbled: string, plain: seq<bool>,
             ghost c: Circuit, ghost x: Transcript)
    requires WiresInRange(f) && f.numInputs > 0
    modifies rand
    ensures parsed <==> forall k :: 0 <= k < |f.lines| ==> LineOk(f, k)
    ensures parsed ==>
      garbling == if !NoConstants(f) then Failed else if !NoCopies(f) then Panicked else Done
    ensures parsed ==> (success <==> garbling == Done && |inputs| == f.numInputs && f.numOutputs >= 1)
    ensures parsed ==> Represents(f, c)
    ensures parsed && success ==> RanGarbled(c, hash, rand.tape, old(rand.pos), rand.pos, inputs, x, garbled)
    ensures parsed && success ==>
      && Evaluable(c) && Acyclic(c) && |garbled| == |plain| == f.numOutputs
      && (forall i :: 0 <= i < |plain| ==> plain[i] == Value(c, inputs, OutputGate(c, i)))
      && forall i :: 0 <= i < |plain| ==> garbled[|plain| - 1 - i] == Digit(plain[i])
  {
    hide Cyclic, Value, LineOk, GateOf, Evaluable, Garbleable, OutputsAreSinks, WiresInRange, Wired, ValidCircuit,
         Digit, AllBalanced, ReadXorsRight, GarblingEnding, NoCopies, NoConstants,
         InputsPlaced, OutputsPlaced, InputLabels, TablesFit, Selector, GarbledLabel, RanGarbled;
    garbled, plain, success, garbling, x := "", [], false, Failed, Transcript([], [], map[], [], []);
    var circuit: Circuit;
    parsed, circuit := Parse(f);
    c := circuit;
    if parsed {
      ParsedEvaluable(f, c);
      ParsedPlaces(f, c);
      WiredIsValid(c);
      if NoConstants(f) {
        ParsedGarbleable(f, c);
      }
      ghost var delta := SetLastBit(rand.tape(rand.pos));
      garbling, success, garbled, x := GarbledRun(circuit, hash, rand, inputs);
      if success {
        SinksAreRight(c, delta, inputs);
        var ok;
        ok, plain := EvaluateCircuit(circuit, inputs);
        RepresentsSize(f, c);
      }
    }
  }

  /** Nobody reads an output of a parsed circuit, so all its exclusive ors are balanced. */
  lemma SinksAreRight(c: Circuit, delta: Label, inputs: seq<bool>)
    requires Evaluable(c) && Wired(c) && OutputsAreSinks(c) && |inputs| == c.numInputs
    ensures ReadXorsRight(c, delta, inputs)
  {
    hide Cyclic, Read, Balanced, OutputsAreSinks, Value;
    SinksBalanced(c, delta);
    BalancedIsRight(c, delta, inputs);
  }
}
