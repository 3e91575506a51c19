/** Boolean circuits and their memoised evaluation (toygarble/circuit.go). A gate is named by
    its index; gates 0, ..., numInputs - 1 are the input wires and the next numOutputs gates
    the output wires. */
module Circuit {

  datatype GateType = INPUT | OUTPUT | AND | OR | NOT | XOR | CONST | COPY

  datatype Gate = Gate(kind: GateType, inFrom: seq<nat>)

  datatype Circuit = Circuit(numInputs: nat, numOutputs: nat, gates: seq<Gate>)

  function MinInputs(kind: GateType): nat {
    match kind
    case INPUT => 0
    case OUTPUT => 0
    case AND => 2
    case OR => 2
    case NOT => 1
    case XOR => 2
    case CONST => 0
    case COPY => 1
  }

  function MaxInputs(kind: GateType): nat {
    match kind
    case INPUT => 0
    case OUTPUT => 1
    case AND => 2
    case OR => 2
    case NOT => 1
    case XOR => 2
    case CONST => 0
    case COPY => 1
  }

  /** validCircuit of circuit.go. */
  predicate ValidCircuit(c: Circuit) {
    && |c.gates| >= c.numInputs + c.numOutputs
    && forall g :: 0 <= g < |c.gates| ==>
      MinInputs(c.gates[g].kind) <= |c.gates[g].inFrom| <= MaxInputs(c.gates[g].kind)
  }

  /** Valid circuits whose predecessors exist. */
  predicate Wired(c: Circuit) {
    && ValidCircuit(c)
    && forall g, i :: 0 <= g < |c.gates| && 0 <= i < |c.gates[g].inFrom| ==> c.gates[g].inFrom[i] < |c.gates|
  }

  lemma WiredIsValid(c: Circuit)
    ensures Wired(c) ==> ValidCircuit(c)
  {
  }

  /** What evaluation takes for granted: no constants, connected outputs, predecessors that
      exist, and input gates only where there is an input. */
  predicate Evaluable(c: Circuit) {
    && ValidCircuit(c)
    && forall g :: 0 <= g < |c.gates| ==>
      && c.gates[g].kind != CONST
      && (c.gates[g].kind == OUTPUT ==> |c.gates[g].inFrom| == 1)
      && (c.gates[g].kind == INPUT ==> g < c.numInputs)
      && forall i :: 0 <= i < |c.gates[g].inFrom| ==> c.gates[g].inFrom[i] < |c.gates|
  }

  function OutputGate(c: Circuit, i: nat): nat {
    c.numInputs + i
  }

  // ---------- reachability ----------

  /** A walk along predecessor edges. */
  ghost predicate Walk(c: Circuit, p: seq<nat>) {
    && |p| >= 1
    && (forall i :: 0 <= i < |p| ==> p[i] < |c.gates|)
    && (forall i :: 0 <= i < |p| - 1 ==> p[i + 1] in c.gates[p[i]].inFrom)
  }

  /** Gate `v` is reached from `u` in one or more steps. */
  ghost predicate Reaches(c: Circuit, u: nat, v: nat) {
    exists p :: Walk(c, p) && |p| >= 2 && p[0] == u && p[|p| - 1] == v
  }

  /** Evaluating gate `g` would run into a loop. */
  ghost predicate Cyclic(c: Circuit, g: nat) {
    Reaches(c, g, g) || exists w :: Reaches(c, g, w) && Reaches(c, w, w)
  }

  ghost function Ancestors(c: Circuit, g: nat): set<nat> {
    set w | 0 <= w < |c.gates| && Reaches(c, g, w)
  }

  lemma ReachesEdge(c: Circuit, u: nat, v: nat)
    requires u < |c.gates| && v < |c.gates| && v in c.gates[u].inFrom
    ensures Reaches(c, u, v)
  {
    assert Walk(c, [u, v]);
  }

  lemma ReachesTrans(c: Circuit, u: nat, v: nat, w: nat)
    requires Reaches(c, u, v) && Reaches(c, v, w)
    ensures Reaches(c, u, w)
  {
    var p :| Walk(c, p) && |p| >= 2 && p[0] == u && p[|p| - 1] == v;
    var q :| Walk(c, q) && |q| >= 2 && q[0] == v && q[|q| - 1] == w;
    var r := p + q[1..];
    forall i | 0 <= i < |r| - 1 ensures r[i + 1] in c.gates[r[i]].inFrom {
      if i >= |p| - 1 {
        assert r[i] == q[i - (|p| - 1)] && r[i + 1] == q[i - (|p| - 1) + 1];
      }
    }
    assert Walk(c, r);
  }

  /** A predecessor of a gate free of loops is free of loops and strictly closer to the inputs. */
  lemma AcyclicPredecessor(c: Circuit, g: nat, v: nat)
    requires g < |c.gates| && v < |c.gates| && v in c.gates[g].inFrom && !Cyclic(c, g)
    ensures !Cyclic(c, v)
    ensures Ancestors(c, v) < Ancestors(c, g) && v in Ancestors(c, g) && g !in Ancestors(c, g)
  {
    hide Walk, Reaches;
    ReachesEdge(c, g, v);
    forall w | Reaches(c, v, w) ensures Reaches(c, g, w) {
      ReachesTrans(c, g, v, w);
    }
    assert v in Ancestors(c, g) && v !in Ancestors(c, v);
  }

  /** A gate with a looping predecessor loops. */
  lemma CyclicFromPredecessor(c: Circuit, g: nat, v: nat)
    requires g < |c.gates| && v < |c.gates| && v in c.gates[g].inFrom && Cyclic(c, v)
    ensures Cyclic(c, g)
  {
    hide Walk, Reaches;
    ReachesEdge(c, g, v);
    if !Reaches(c, v, v) {
      var w :| Reaches(c, v, w) && Reaches(c, w, w);
      ReachesTrans(c, g, v, w);
    }
  }

  // ---------- meaning ----------

  function Combine(kind: GateType, x: bool, y: bool): bool {
    match kind
    case INPUT => false
    case OUTPUT => x
    case AND => x && y
    case OR => x || y
    case NOT => !x
    case XOR => x != y
    case CONST => false
    case COPY => x
  }

  /** The plain recursive value of a gate: no memo, no marks. */
  ghost function Value(c: Circuit, inputs: seq<bool>, g: nat): bool
    requires Evaluable(c) && |inputs| == c.numInputs && g < |c.gates| && !Cyclic(c, g)
    decreases Ancestors(c, g)
  {
    var gate := c.gates[g];
    if gate.kind == INPUT then inputs[g]
    else
      AcyclicPredecessor(c, g, gate.inFrom[0]);
      var x := Value(c, inputs, gate.inFrom[0]);
      if |gate.inFrom| == 2 then
        AcyclicPredecessor(c, g, gate.inFrom[1]);
        Combine(gate.kind, x, Value(c, inputs, gate.inFrom[1]))
      else
        Combine(gate.kind, x, false)
  }

  /** What each kind of gate computes from the values of its operands. */
  lemma GateLaws(c: Circuit, inputs: seq<bool>, g: nat)
    requires Evaluable(c) && |inputs| == c.numInputs && g < |c.gates| && !Cyclic(c, g)
    ensures c.gates[g].kind == INPUT ==> Value(c, inputs, g) == inputs[g]
    ensures c.gates[g].kind != INPUT ==> !Cyclic(c, c.gates[g].inFrom[0])
    ensures |c.gates[g].inFrom| == 2 ==> !Cyclic(c, c.gates[g].inFrom[1])
    ensures c.gates[g].kind == AND ==>
      && |c.gates[g].inFrom| == 2
      && (Value(c, inputs, g) <==> Value(c, inputs, c.gates[g].inFrom[0]) && Value(c, inputs, c.gates[g].inFrom[1]))
    ensures c.gates[g].kind == OR ==>
      && |c.gates[g].inFrom| == 2
      && (Value(c, inputs, g) <==> Value(c, inputs, c.gates[g].inFrom[0]) || Value(c, inputs, c.gates[g].inFrom[1]))
    ensures c.gates[g].kind == XOR ==>
      && |c.gates[g].inFrom| == 2
      && (Value(c, inputs, g) <==> Value(c, inputs, c.gates[g].inFrom[0]) != Value(c, inputs, c.gates[g].inFrom[1]))
    ensures c.gates[g].kind == NOT ==>
      (Value(c, inputs, g) <==> !Value(c, inputs, c.gates[g].inFrom[0]))
    ensures c.gates[g].kind == OUTPUT || c.gates[g].kind == COPY ==>
      (Value(c, inputs, g) <==> Value(c, inputs, c.gates[g].inFrom[0]))
  {
    hide Cyclic, Ancestors;
    LoopFreeIff(c, g);
  }

  // ---------- the memoised evaluator ----------

  /** Every calculated gate holds its value. */
  ghost predicate MemoOk(c: Circuit, inputs: seq<bool>, calculated: array<bool>, values: array<bool>)
    requires Evaluable(c) && |inputs| == c.numInputs
    requires calculated.Length == values.Length == |c.gates|
    reads calculated, values
  {
    forall v :: 0 <= v < |c.gates| && calculated[v] ==>
      !Cyclic(c, v) && values[v] == Value(c, inputs, v)
  }

  /** Every gate that is marked but not calculated is either an ancestor call of the one for
      `g` or has run into a loop. */
  ghost predicate Pending(c: Circuit, visited: array<bool>, calculated: array<bool>, g: nat)
    requires calculated.Length == visited.Length == |c.gates|
    reads visited, calculated
  {
    forall v :: 0 <= v < |c.gates| && visited[v] && !calculated[v] ==>
      Cyclic(c, v) || Reaches(c, v, g)
  }

  ghost function Unvisited(visited: array<bool>): set<nat>
    reads visited
  {
    set v | 0 <= v < visited.Length && !visited[v]
  }

  method EvaluateGate(c: Circuit, g: nat, visited: array<bool>, calculated: array<bool>,
                      values: array<bool>, inputs: seq<bool>) returns (success: bool, result: bool)
    requires Evaluable(c) && |inputs| == c.numInputs && g < |c.gates|
    requires visited.Length == calculated.Length == values.Length == |c.gates|
    requires visited != calculated && visited != values && calculated != values
    requires MemoOk(c, inputs, calculated, values) && Pending(c, visited, calculated, g)
    modifies visited, calculated, values
    ensures MemoOk(c, inputs, calculated, values)
    ensures success <==> !Cyclic(c, g)
    ensures success ==> result == Value(c, inputs, g) && calculated[g]
    ensures forall v :: 0 <= v < |c.gates| && old(visited[v]) ==> visited[v]
    ensures forall v :: 0 <= v < |c.gates| && old(calculated[v]) ==> calculated[v]
    ensures forall v :: 0 <= v < |c.gates| && visited[v] && !calculated[v] ==>
      old(visited[v] && !calculated[v]) || Cyclic(c, v)
    decreases Unvisited(visited)
  {
    hide Reaches, Walk, Cyclic, Value, Ancestors;
    if visited[g] && !calculated[g] {
      LoopIsCyclic(c, g);
      return false, false;
    }
    if calculated[g] {
      return true, values[g];
    }
    ghost var before := Unvisited(visited);
    visited[g] := true;
    assert g in before && Unvisited(visited) == before - {g};
    result, success := false, true;
    var gate := c.gates[g];
    var success1, success2, result1, result2 := false, false, false, false;
    if gate.kind != INPUT {
      PendingPredecessor(c, visited, calculated, g, gate.inFrom[0]);
      success1, result1 := EvaluateGate(c, gate.inFrom[0], visited, calculated, values, inputs);
      if |gate.inFrom| == 2 {
        assert Unvisited(visited) <= before - {g};
        PendingPredecessor(c, visited, calculated, g, gate.inFrom[1]);
        success2, result2 := EvaluateGate(c, gate.inFrom[1], visited, calculated, values, inputs);
      }
    }
    match gate.kind {
      case INPUT => result := inputs[g];
      case OUTPUT => success, result := success1, result1;
      case COPY => success, result := success1, result1;
      case AND =>
        if success1 && success2 { result := result1 && result2; } else { success := false; }
      case XOR =>
        if success1 && success2 { result := result1 != result2; } else { success := false; }
      case OR =>
        if success1 && success2 { result := result1 || result2; } else { success := false; }
      case NOT =>
        if success1 { result := !result1; } else { success := false; }
    }
    GateOutcome(c, inputs, g, success1, result1, success2, result2);
    if success {
      calculated[g] := true;
      values[g] := result;
    }
  }

  lemma LoopIsCyclic(c: Circuit, g: nat)
    ensures Reaches(c, g, g) ==> Cyclic(c, g)
  {
  }

  /** A gate is loop-free exactly when its predecessors are, and then has the combined value. */
  lemma GateOutcome(c: Circuit, inputs: seq<bool>, g: nat, s1: bool, r1: bool, s2: bool, r2: bool)
    requires Evaluable(c) && |inputs| == c.numInputs && g < |c.gates|
    requires c.gates[g].kind != INPUT ==>
      (s1 <==> !Cyclic(c, c.gates[g].inFrom[0])) && (s1 ==> r1 == Value(c, inputs, c.gates[g].inFrom[0]))
    requires |c.gates[g].inFrom| == 2 ==>
      (s2 <==> !Cyclic(c, c.gates[g].inFrom[1])) && (s2 ==> r2 == Value(c, inputs, c.gates[g].inFrom[1]))
    ensures c.gates[g].kind == INPUT ==> !Cyclic(c, g) && Value(c, inputs, g) == inputs[g]
    ensures c.gates[g].kind != INPUT ==>
      (!Cyclic(c, g) <==> s1 && (|c.gates[g].inFrom| == 2 ==> s2))
    ensures c.gates[g].kind != INPUT && !Cyclic(c, g) ==>
      Value(c, inputs, g) == Combine(c.gates[g].kind, r1, if |c.gates[g].inFrom| == 2 then r2 else false)
  {
    hide Reaches, Walk, Cyclic, Ancestors;
    LoopFreeIff(c, g);
  }

  /** A gate reaches no loop exactly when none of its predecessors does. */
  lemma LoopFreeIff(c: Circuit, g: nat)
    requires Evaluable(c) && g < |c.gates|
    ensures c.gates[g].kind == INPUT ==> !Cyclic(c, g)
    ensures c.gates[g].kind != INPUT ==>
      (!Cyclic(c, g) <==>
        !Cyclic(c, c.gates[g].inFrom[0]) && (|c.gates[g].inFrom| == 2 ==> !Cyclic(c, c.gates[g].inFrom[1])))
  {
    hide Reaches, Walk, Cyclic;
    var gate := c.gates[g];
    CyclicHasPredecessor(c, g);
    forall i | 0 <= i < |gate.inFrom| ensures Cyclic(c, gate.inFrom[i]) ==> Cyclic(c, g) {
      if Cyclic(c, gate.inFrom[i]) {
        CyclicFromPredecessor(c, g, gate.inFrom[i]);
      }
    }
  }

  /** A loop reached from a gate is reached through one of its predecessors. */
  lemma CyclicHasPredecessor(c: Circuit, g: nat)
    requires g < |c.gates|
    ensures Cyclic(c, g) ==> exists i :: 0 <= i < |c.gates[g].inFrom| && Cyclic(c, c.gates[g].inFrom[i])
  {
    if Cyclic(c, g) {
      hide Walk;
      var w :| (w == g || Reaches(c, g, w)) && Reaches(c, w, w) by {
        if Reaches(c, g, g) { assert g == g; }
      }
      var v := FirstStep(c, g, w);
      if v != w {
        assert Reaches(c, v, w);
      }
      var i :| 0 <= i < |c.gates[g].inFrom| && c.gates[g].inFrom[i] == v;
      assert Cyclic(c, c.gates[g].inFrom[i]);
    }
  }

  lemma FirstStep(c: Circuit, g: nat, w: nat) returns (v: nat)
    requires g < |c.gates| && Reaches(c, g, w)
    ensures v in c.gates[g].inFrom && (v == w || Reaches(c, v, w))
  {
    var p :| Walk(c, p) && |p| >= 2 && p[0] == g && p[|p| - 1] == w;
    v := p[1];
    if |p| > 2 {
      assert Walk(c, p[1..]);
    }
  }

  lemma PendingPredecessor(c: Circuit, visited: array<bool>, calculated: array<bool>, g: nat, v: nat)
    requires calculated.Length == visited.Length == |c.gates| && g < |c.gates| && v < |c.gates|
    requires v in c.gates[g].inFrom
    requires forall u :: 0 <= u < |c.gates| && visited[u] && !calculated[u] ==>
      u == g || Cyclic(c, u) || Reaches(c, u, g)
    ensures Pending(c, visited, calculated, v)
  {
    hide Reaches, Cyclic;
    ReachesEdge(c, g, v);
    forall u | 0 <= u < |c.gates| && visited[u] && !calculated[u] && Reaches(c, u, g)
      ensures Reaches(c, u, v)
    {
      ReachesTrans(c, u, g, v);
    }
  }

  /** EvaluateCircuit of circuit.go: it succeeds exactly when the number of inputs is right,
      there is an output, and no output runs into a loop; each result is then the plain value
      of its output gate. */
  method EvaluateCircuit(c: Circuit, inputs: seq<bool>) returns (success: bool, results: seq<bool>)
    requires Evaluable(c)
    ensures success <==>
      && |inputs| == c.numInputs && c.numOutputs >= 1
      && forall i :: 0 <= i < c.numOutputs ==> !Cyclic(c, OutputGate(c, i))
    ensures success ==>
      && |results| == c.numOutputs
      && forall i :: 0 <= i < c.numOutputs ==> results[i] == Value(c, inputs, OutputGate(c, i))
    ensures !success ==> results == []
  {
    hide Reaches, Walk, Cyclic, Value;
    if |inputs| != c.numInputs || c.numOutputs < 1 {
      return false, [];
    }
    var n := |c.gates|;
    var visited, calculated, values := new bool[n](_ => false), new bool[n](_ => false), new bool[n](_ => false);
    results := [];
    for i := 0 to c.numOutputs
      invariant |results| == i && MemoOk(c, inputs, calculated, values)
      invariant forall k :: 0 <= k < i ==>
        !Cyclic(c, OutputGate(c, k)) && results[k] == Value(c, inputs, OutputGate(c, k))
    {
      for j := 0 to n
        invariant forall v :: 0 <= v < j ==> !visited[v]
        invariant MemoOk(c, inputs, calculated, values)
      {
        visited[j] := false;
      }
      var ok, bit := EvaluateGate(c, OutputGate(c, i), visited, calculated, values, inputs);
      if !ok {
        return false, [];
      }
      results := results + [bit];
    }
    success := true;
  }
}
