/** Circuits read from BRISTOL files (toygarble/bristolparse.go). The text is taken as split
    into numbers and operation names. */
module Bristol {
  import opened Circuit

  datatype Op = OpAnd | OpXor | OpOr | OpInv | OpEq | OpEqw | OpUnknown

  /** One gate line. INV and EQW do not use `in2`; for EQ `in1` is the constant and not a wire. */
  datatype Line = Line(op: Op, in1: nat, in2: nat, out: nat)

  /** How many wires a line reads. */
  function Operands(op: Op): nat {
    match op
    case OpEq => 0
    case OpInv => 1
    case OpEqw => 1
    case OpUnknown => 0
    case _ => 2
  }

  /** The wire a line assigns. For EQ the code reads the field after the wire number, which is
      the operation name, and so assigns wire 0. */
  function Target(l: Line): nat {
    if l.op == OpEq then 0 else l.out
  }

  datatype File = File(numInputs: nat, numOutputs: nat, numWires: nat, lines: seq<Line>)

  /** The wire numbers the parser uses as indices are in range. */
  predicate WiresInRange(f: File) {
    && f.numOutputs <= f.numWires
    && forall k :: 0 <= k < |f.lines| && f.lines[k].op != OpUnknown ==>
      && Target(f.lines[k]) < f.numWires
      && (Operands(f.lines[k].op) >= 1 ==> f.lines[k].in1 < f.numWires)
      && (Operands(f.lines[k].op) == 2 ==> f.lines[k].in2 < f.numWires)
  }

  /** Index of the first gate that comes from a line. */
  function Base(f: File): nat {
    f.numInputs + f.numOutputs
  }

  /** The gate that last assigned wire `w` in the first `k` lines; 0 when there is none. */
  function Writer(f: File, k: nat, w: nat): nat
    requires k <= |f.lines|
  {
    if k == 0 then 0
    else if Target(f.lines[k - 1]) == w then Base(f) + k - 1
    else Writer(f, k - 1, w)
  }

  function WireToGate(wires: seq<nat>, wireNum: nat, numInputs: nat, numOutputs: nat, totalWires: nat): int
    requires wireNum < |wires|
  {
    if wireNum < numInputs then wireNum
    else if totalWires - numOutputs <= wireNum < totalWires then
      numInputs + (wireNum - (totalWires - numOutputs))
    else if wires[wireNum] != 0 then wires[wireNum]
    else -1
  }

  /** The gate that drives wire `w` as seen by line `k`; -1 when the wire has no driver yet. */
  function Driver(f: File, k: nat, w: nat): int
    requires k <= |f.lines|
  {
    if w < f.numInputs then w
    else if Writer(f, k, w) != 0 then Writer(f, k, w)
    else -1
  }

  function KindOf(op: Op): GateType
    requires op != OpUnknown
  {
    match op
    case OpAnd => AND
    case OpXor => XOR
    case OpOr => OR
    case OpInv => NOT
    case OpEq => CONST
    case OpEqw => COPY
  }

  predicate LineOk(f: File, k: nat)
    requires k < |f.lines|
  {
    var l := f.lines[k];
    && l.op != OpUnknown
    && (Operands(l.op) >= 1 ==> Driver(f, k, l.in1) != -1)
    && (Operands(l.op) == 2 ==> Driver(f, k, l.in2) != -1)
  }

  /** The gate that line `k` stands for. */
  function LineGate(f: File, k: nat): Gate
    requires k < |f.lines| && LineOk(f, k)
  {
    var l := f.lines[k];
    Gate(KindOf(l.op),
         if l.op == OpEq then [l.in1]
         else if Operands(l.op) == 1 then [Driver(f, k, l.in1)]
         else [Driver(f, k, l.in1), Driver(f, k, l.in2)])
  }

  /** Gate number `g` of the circuit. An output wire that no line assigns is wired to gate 0. */
  function GateOf(f: File, g: nat): Gate
    requires WiresInRange(f) && g < Base(f) + |f.lines|
    requires g >= Base(f) ==> LineOk(f, g - Base(f))
  {
    if g < f.numInputs then Gate(INPUT, [])
    else if g < Base(f) then
      Gate(OUTPUT, [Writer(f, |f.lines|, f.numWires - f.numOutputs + (g - f.numInputs))])
    else LineGate(f, g - Base(f))
  }

  /** The circuit that the file describes. */
  ghost predicate Represents(f: File, c: Circuit)
    requires WiresInRange(f)
  {
    && c.numInputs == f.numInputs && c.numOutputs == f.numOutputs
    && |c.gates| == Base(f) + |f.lines|
    && (forall k :: 0 <= k < |f.lines| ==> LineOk(f, k))
    && (forall g :: 0 <= g < |c.gates| ==> c.gates[g] == GateOf(f, g))
  }

  /** ParseBRISTOLCircuitFile: it succeeds exactly when every line has a known operation and
      only reads wires that are inputs or assigned by an earlier line. */
  method Parse(f: File) returns (ok: bool, c: Circuit)
    requires WiresInRange(f)
    ensures ok <==> forall k :: 0 <= k < |f.lines| ==> LineOk(f, k)
    ensures ok ==> Represents(f, c)
  {
    hide LineOk, GateOf, LineGate;
    var gates, wires: array<nat>;
    ok, gates, wires := ReadLines(f);
    c := Circuit(f.numInputs, f.numOutputs, gates);
    if ok {
      gates := ConnectOutputs(f, gates, wires);
      c := Circuit(f.numInputs, f.numOutputs, gates);
    }
  }

  /** The loop over the gate lines. */
  method ReadLines(f: File) returns (ok: bool, gates: seq<Gate>, wires: array<nat>)
    requires WiresInRange(f)
    ensures ok <==> forall k :: 0 <= k < |f.lines| ==> LineOk(f, k)
    ensures ok ==>
      && |gates| == Base(f) + |f.lines| && wires.Length == f.numWires
      && (forall w :: 0 <= w < f.numWires ==> wires[w] == Writer(f, |f.lines|, w))
      && (forall g :: 0 <= g < |gates| ==>
        gates[g] == if f.numInputs <= g < Base(f) then Gate(OUTPUT, []) else GateOf(f, g))
  {
    hide LineGate;
    gates := seq(f.numInputs, _ => Gate(INPUT, [])) + seq(f.numOutputs, _ => Gate(OUTPUT, []));
    var base := f.numInputs + f.numOutputs;
    wires := new nat[f.numWires](_ => 0);
    for k := 0 to |f.lines|
      invariant |gates| == base + k && forall j :: 0 <= j < k ==> LineOk(f, j)
      invariant forall w :: 0 <= w < f.numWires ==> wires[w] == Writer(f, k, w)
      invariant forall g :: 0 <= g < |gates| ==>
        gates[g] == if f.numInputs <= g < base then Gate(OUTPUT, []) else GateOf(f, g)
    {
      var good, gate := ReadLine(f, k, wires);
      if !good {
        return false, gates, wires;
      }
      gates := gates + [gate];
      wires[Target(f.lines[k])] := base + k;
    }
    ok := true;
  }

  /** One gate line. */
  method ReadLine(f: File, k: nat, wires: array<nat>) returns (good: bool, gate: Gate)
    requires WiresInRange(f) && k < |f.lines| && wires.Length == f.numWires
    requires forall w :: 0 <= w < f.numWires ==> wires[w] == Writer(f, k, w)
    ensures good == LineOk(f, k)
    ensures good ==> gate == LineGate(f, k)
  {
    hide Writer;
    var l := f.lines[k];
    gate := Gate(COPY, []);
    match l.op {
      case OpEq =>
        good, gate := true, Gate(CONST, [l.in1]);
      case OpEqw =>
        var from1 := WireToGate(wires[..], l.in1, f.numInputs, f.numOutputs, f.numInputs);
        assert from1 == Driver(f, k, l.in1);
        good := from1 != -1;
        if good {
          gate := Gate(COPY, [from1]);
        }
      case OpInv =>
        var from1 := WireToGate(wires[..], l.in1, f.numInputs, f.numOutputs, f.numInputs);
        assert from1 == Driver(f, k, l.in1);
        good := from1 != -1;
        if good {
          gate := Gate(NOT, [from1]);
        }
      case OpUnknown =>
        good := false;
      case _ =>
        var from1 := WireToGate(wires[..], l.in1, f.numInputs, f.numOutputs, f.numInputs);
        var from2 := WireToGate(wires[..], l.in2, f.numInputs, f.numOutputs, f.numInputs);
        assert from1 == Driver(f, k, l.in1) && from2 == Driver(f, k, l.in2);
        good := from1 != -1 && from2 != -1;
        if good {
          gate := Gate(KindOf(l.op), [from1, from2]);
        }
    }
  }

  /** connectOutputWire for every output. */
  method ConnectOutputs(f: File, gates0: seq<Gate>, wires: array<nat>) returns (gates: seq<Gate>)
    requires WiresInRange(f) && forall k :: 0 <= k < |f.lines| ==> LineOk(f, k)
    requires |gates0| == Base(f) + |f.lines| && wires.Length == f.numWires
    requires forall w :: 0 <= w < f.numWires ==> wires[w] == Writer(f, |f.lines|, w)
    requires forall g :: 0 <= g < |gates0| ==>
      gates0[g] == if f.numInputs <= g < Base(f) then Gate(OUTPUT, []) else GateOf(f, g)
    ensures |gates| == |gates0| && forall g :: 0 <= g < |gates| ==> gates[g] == GateOf(f, g)
  {
    hide Writer, LineGate, LineOk;
    gates := gates0;
    for i := 0 to f.numOutputs
      invariant |gates| == |gates0|
      invariant forall g :: 0 <= g < |gates| ==>
        gates[g] == if f.numInputs + i <= g < Base(f) then Gate(OUTPUT, []) else GateOf(f, g)
    {
      var out := f.numInputs + i;
      gates := gates[out := Gate(OUTPUT, gates[out].inFrom + [wires[i + (f.numWires - f.numOutputs)]])];
    }
  }

  // ---------- parsed circuits have no loops ----------

  lemma {:induction false} WriterRange(f: File, k: nat, w: nat)
    requires k <= |f.lines|
    ensures Writer(f, k, w) == 0 || Base(f) <= Writer(f, k, w) < Base(f) + k
  {
    if k > 0 {
      WriterRange(f, k - 1, w);
    }
  }

  /** No line is a constant. */
  predicate NoConstants(f: File) {
    forall k :: 0 <= k < |f.lines| ==> f.lines[k].op != OpEq
  }

  /** A gate that comes from a line reads only input wires and gates of earlier lines; only the
      number in a constant gate is no gate at all. */
  lemma EarlierGatesOnly(f: File, c: Circuit, g: nat, i: nat)
    requires WiresInRange(f) && Represents(f, c)
    requires Base(f) <= g < |c.gates| && i < |c.gates[g].inFrom| && c.gates[g].kind != CONST
    ensures c.gates[g].inFrom[i] < f.numInputs || Base(f) <= c.gates[g].inFrom[i] < g
  {
    hide Writer;
    var k := g - Base(f);
    WriterRange(f, k, f.lines[k].in1);
    WriterRange(f, k, f.lines[k].in2);
  }

  /** An output wire reads gate 0 or a gate that comes from a line. */
  lemma OutputReads(f: File, c: Circuit, g: nat)
    requires WiresInRange(f) && Represents(f, c) && f.numInputs <= g < Base(f)
    ensures c.gates[g].kind == OUTPUT && |c.gates[g].inFrom| == 1
    ensures c.gates[g].inFrom[0] == 0 || Base(f) <= c.gates[g].inFrom[0] < |c.gates|
  {
    hide Writer, LineGate, LineOk;
    WriterRange(f, |f.lines|, f.numWires - f.numOutputs + (g - f.numInputs));
  }

  lemma LineShape(f: File, c: Circuit, g: nat)
    requires WiresInRange(f) && Represents(f, c) && Base(f) <= g < |c.gates|
    ensures var gate, op := c.gates[g], f.lines[g - Base(f)].op;
      && op != OpUnknown && gate.kind == KindOf(op)
      && gate.kind != INPUT && gate.kind != OUTPUT
      && |gate.inFrom| == if gate.kind == NOT || gate.kind == COPY || gate.kind == CONST then 1 else 2
  {
    hide Writer, Driver;
    assert LineOk(f, g - Base(f));
  }

  /** What a line computes, by its operation, from the values of the gates that drive its wires
      when it is read. */
  lemma LineLaws(f: File, c: Circuit, inputs: seq<bool>, k: nat)
    requires WiresInRange(f) && Represents(f, c) && k < |f.lines|
    requires Evaluable(c) && |inputs| == c.numInputs && !Cyclic(c, Base(f) + k)
    ensures var op, g := f.lines[k].op, Base(f) + k;
      var in1, in2 := Driver(f, k, f.lines[k].in1), Driver(f, k, f.lines[k].in2);
      && op != OpUnknown && op != OpEq && 0 <= in1 < |c.gates| && !Cyclic(c, in1)
      && (op == OpEqw ==> (Value(c, inputs, g) <==> Value(c, inputs, in1)))
      && (op == OpInv ==> (Value(c, inputs, g) <==> !Value(c, inputs, in1)))
      && (op == OpAnd || op == OpOr || op == OpXor ==>
        && 0 <= in2 < |c.gates| && !Cyclic(c, in2)
        && (op == OpAnd ==> (Value(c, inputs, g) <==> Value(c, inputs, in1) && Value(c, inputs, in2)))
        && (op == OpOr ==> (Value(c, inputs, g) <==> Value(c, inputs, in1) || Value(c, inputs, in2)))
        && (op == OpXor ==> (Value(c, inputs, g) <==> Value(c, inputs, in1) != Value(c, inputs, in2))))
  {
    hide Writer, Driver, Value, Cyclic;
    assert LineOk(f, k) && c.gates[Base(f) + k] == LineGate(f, k);
    GateLaws(c, inputs, Base(f) + k);
  }

  /** Parsed circuits with at least one input wire are valid, and can be evaluated, if and only
      if no line is a constant: the parser gives constant gates an operand, which validation
      refuses. */
  lemma ParsedEvaluable(f: File, c: Circuit)
    requires WiresInRange(f) && Represents(f, c) && f.numInputs > 0
    ensures ValidCircuit(c) <==> NoConstants(f)
    ensures Evaluable(c) <==> NoConstants(f)
  {
    hide Writer, LineOk, LineGate, Represents, KindOf;
    if NoConstants(f) {
      forall g | 0 <= g < |c.gates|
        ensures MinInputs(c.gates[g].kind) <= |c.gates[g].inFrom| <= MaxInputs(c.gates[g].kind)
        ensures c.gates[g].kind != CONST && (c.gates[g].kind == OUTPUT ==> |c.gates[g].inFrom| == 1)
        ensures c.gates[g].kind == INPUT ==> g < c.numInputs
        ensures forall i :: 0 <= i < |c.gates[g].inFrom| ==> c.gates[g].inFrom[i] < |c.gates|
      {
        ParsedGate(f, c, g);
      }
      RepresentsSize(f, c);
    } else {
      var k :| 0 <= k < |f.lines| && f.lines[k].op == OpEq;
      RepresentsSize(f, c);
      ConstantLine(f, c, k);
      assert !(|c.gates[Base(f) + k].inFrom| <= MaxInputs(c.gates[Base(f) + k].kind));
    }
  }

  lemma RepresentsSize(f: File, c: Circuit)
    requires WiresInRange(f) && Represents(f, c)
    ensures |c.gates| == Base(f) + |f.lines| && c.numInputs == f.numInputs && c.numOutputs == f.numOutputs
  {
    hide LineOk, GateOf;
  }

  lemma ConstantLine(f: File, c: Circuit, k: nat)
    requires WiresInRange(f) && Represents(f, c) && k < |f.lines| && f.lines[k].op == OpEq
    ensures Base(f) + k < |c.gates| && c.gates[Base(f) + k] == Gate(CONST, [f.lines[k].in1])
  {
    hide Writer, Driver;
    assert LineOk(f, k);
  }

  /** One gate of a parsed circuit without constants. */
  lemma ParsedGate(f: File, c: Circuit, g: nat)
    requires WiresInRange(f) && Represents(f, c) && f.numInputs > 0 && NoConstants(f) && g < |c.gates|
    ensures MinInputs(c.gates[g].kind) <= |c.gates[g].inFrom| <= MaxInputs(c.gates[g].kind)
    ensures c.gates[g].kind != CONST && (c.gates[g].kind == OUTPUT ==> |c.gates[g].inFrom| == 1)
    ensures c.gates[g].kind == INPUT ==> g < c.numInputs
    ensures forall i :: 0 <= i < |c.gates[g].inFrom| ==> c.gates[g].inFrom[i] < |c.gates|
  {
    hide Writer, LineOk, LineGate;
    if g >= Base(f) {
      LineShape(f, c, g);
      forall i | 0 <= i < |c.gates[g].inFrom| ensures c.gates[g].inFrom[i] < |c.gates| {
        EarlierGatesOnly(f, c, g, i);
      }
    } else if g >= f.numInputs {
      OutputReads(f, c, g);
    }
  }

  /** Evaluation order: inputs first, then the gates in line order, output wires last. */
  function Rank(f: File, g: nat): nat {
    if g < f.numInputs then 0
    else if g < Base(f) then Base(f) + |f.lines|
    else g
  }

  lemma EdgeLowersRank(f: File, c: Circuit, u: nat, v: nat)
    requires WiresInRange(f) && Represents(f, c) && f.numInputs > 0 && NoConstants(f)
    requires u < |c.gates| && v in c.gates[u].inFrom
    ensures Rank(f, v) < Rank(f, u)
  {
    hide Writer, LineOk, LineGate;
    var i :| 0 <= i < |c.gates[u].inFrom| && c.gates[u].inFrom[i] == v;
    if u >= Base(f) {
      LineShape(f, c, u);
      EarlierGatesOnly(f, c, u, i);
    } else if u >= f.numInputs {
      OutputReads(f, c, u);
    }
  }

  lemma {:induction false} RanksFall(f: File, c: Circuit, p: seq<nat>)
    requires WiresInRange(f) && Represents(f, c) && f.numInputs > 0 && NoConstants(f)
    requires Walk(c, p) && |p| >= 2
    ensures Rank(f, p[|p| - 1]) < Rank(f, p[0])
  {
    hide Represents, Rank;
    EdgeLowersRank(f, c, p[0], p[1]);
    if |p| > 2 {
      assert Walk(c, p[1..]);
      RanksFall(f, c, p[1..]);
    }
  }

  /** No gate of a parsed circuit with an input wire runs into a loop. */
  lemma ParsedAcyclic(f: File, c: Circuit, g: nat)
    requires WiresInRange(f) && Represents(f, c) && f.numInputs > 0 && NoConstants(f)
    ensures !Cyclic(c, g)
  {
    hide Represents, Walk, Rank;
    forall w ensures !Reaches(c, w, w) {
      if Reaches(c, w, w) {
        var p :| Walk(c, p) && |p| >= 2 && p[0] == w && p[|p| - 1] == w;
        RanksFall(f, c, p);
      }
    }
  }

  lemma FirstLineNeedsInput(f: File)
    ensures f.numInputs == 0 && |f.lines| > 0 && f.lines[0].op != OpEq ==> !LineOk(f, 0)
  {
  }

  /** Without any input wire and without constants nothing can be computed: the parser accepts
      only files without gate lines, and every output then loops. */
  lemma NoInputsLoop(f: File, c: Circuit, i: nat)
    requires WiresInRange(f) && Represents(f, c) && f.numInputs == 0 && NoConstants(f) && i < f.numOutputs
    ensures |f.lines| == 0 && Cyclic(c, OutputGate(c, i))
  {
    FirstLineNeedsInput(f);
    if |f.lines| == 0 {
      assert c.gates[0].inFrom == [0] && c.gates[i].inFrom == [0];
      ReachesEdge(c, 0, 0);
      ReachesEdge(c, i, 0);
    }
  }

  /** No gate reads an output wire. */
  ghost predicate OutputsAreSinks(c: Circuit) {
    forall g, i :: 0 <= g < |c.gates| && 0 <= i < |c.gates[g].inFrom| ==>
      c.gates[g].inFrom[i] < |c.gates| && c.gates[c.gates[g].inFrom[i]].kind != OUTPUT
  }

  lemma ParsedOutputsAreSinks(f: File, c: Circuit)
    requires WiresInRange(f) && Represents(f, c) && f.numInputs > 0 && NoConstants(f)
    ensures OutputsAreSinks(c)
  {
    hide Writer, Driver, LineOk, LineGate;
    forall g, i | 0 <= g < |c.gates| && 0 <= i < |c.gates[g].inFrom|
      ensures c.gates[g].inFrom[i] < |c.gates| && c.gates[c.gates[g].inFrom[i]].kind != OUTPUT
    {
      var v := c.gates[g].inFrom[i];
      if g >= Base(f) {
        LineShape(f, c, g);
        EarlierGatesOnly(f, c, g, i);
      } else if g >= f.numInputs {
        OutputReads(f, c, g);
      }
      if v >= Base(f) {
        LineShape(f, c, v);
      }
    }
  }

  /** An output wire is connected to the driver of its wire number exactly when some line
      assigns that wire and it is no input wire, or it is input wire 0 and no line assigns it;
      any other output silently reads gate 0 or an overwritten input. */
  lemma OutputDriverExact(f: File, c: Circuit, i: nat)
    requires WiresInRange(f) && Represents(f, c) && i < f.numOutputs
    ensures |c.gates[OutputGate(c, i)].inFrom| == 1
    ensures var w := f.numWires - f.numOutputs + i;
      c.gates[OutputGate(c, i)].inFrom[0] == Driver(f, |f.lines|, w)
      <==> if w < f.numInputs then w == 0 && Writer(f, |f.lines|, w) == 0
           else Writer(f, |f.lines|, w) != 0
  {
    hide Writer;
    WriterRange(f, |f.lines|, f.numWires - f.numOutputs + i);
    assert c.gates[OutputGate(c, i)] == GateOf(f, OutputGate(c, i));
  }

  /** A file whose output wire no line assigns: it parses, the wire has no driver, and the
      output shows input 0. */
  lemma UnassignedOutputReadsInput(x: bool, y: bool)
    ensures var f := File(2, 1, 3, []);
      var c := Circuit(2, 1, [Gate(INPUT, []), Gate(INPUT, []), Gate(OUTPUT, [0])]);
      && WiresInRange(f) && Represents(f, c) && Driver(f, 0, 2) == -1
      && Evaluable(c) && !Cyclic(c, 2) && Value(c, [x, y], 2) == x
  {
    hide Cyclic, Evaluable, Represents, LineOk;
    var f := File(2, 1, 3, []);
    var c := Circuit(2, 1, [Gate(INPUT, []), Gate(INPUT, []), Gate(OUTPUT, [0])]);
    UnassignedOutput(f, c);
    ParsedEvaluable(f, c);
    ParsedAcyclic(f, c, 2);
    AcyclicPredecessor(c, 2, 0);
    assert c.gates[2].inFrom[0] == 0;
    assert Value(c, [x, y], 0) == x;
  }

  lemma UnassignedOutput(f: File, c: Circuit)
    requires f == File(2, 1, 3, [])
    requires c == Circuit(2, 1, [Gate(INPUT, []), Gate(INPUT, []), Gate(OUTPUT, [0])])
    ensures WiresInRange(f) && Represents(f, c) && Driver(f, 0, 2) == -1
  {
  }

  /** A constant line does not assign the wire it names: the line after it, which reads that
      wire, is refused. */
  lemma ConstantWireIsLost()
    ensures var f := File(1, 1, 3, [Line(OpEq, 1, 0, 1), Line(OpInv, 1, 0, 2)]);
      WiresInRange(f) && LineOk(f, 0) && !LineOk(f, 1) && Writer(f, 1, 0) != 0
  {
    var f := File(1, 1, 3, [Line(OpEq, 1, 0, 1), Line(OpInv, 1, 0, 2)]);
    assert Writer(f, 1, 1) == Writer(f, 0, 1) == 0;
  }
}
