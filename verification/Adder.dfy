/** A circuit file as it is meant to be read: the sum of three bits, plain and garbled. */
module Adder {
  import opened Bits
  import opened Circuit
  import opened Bristol
  import opened Labels
  import opened Garble
  import opened GarbledCircuit
  import opened GarbledEvaluation

  /** A full adder: wires 0, 1 and 2 are the summands, wire 8 is the sum, wire 9 the carry, and
      wire 10 its negation. */
  function AdderFile(): File {
    File(3, 3, 11, [
      Line(OpXor, 0, 1, 3),
      Line(OpXor, 3, 2, 8),
      Line(OpAnd, 0, 1, 4),
      Line(OpAnd, 3, 2, 5),
      Line(OpOr, 4, 5, 9),
      Line(OpInv, 9, 0, 10)])
  }

  ghost predicate AdderGates(c: Circuit) {
    && c.numInputs == 3 && c.numOutputs == 3 && |c.gates| == 12
    && c.gates[0] == c.gates[1] == c.gates[2] == Gate(INPUT, [])
    && c.gates[3] == Gate(OUTPUT, [7]) && c.gates[4] == Gate(OUTPUT, [10]) && c.gates[5] == Gate(OUTPUT, [11])
    && c.gates[6] == Gate(XOR, [0, 1]) && c.gates[7] == Gate(XOR, [6, 2])
    && c.gates[8] == Gate(AND, [0, 1]) && c.gates[9] == Gate(AND, [6, 2])
    && c.gates[10] == Gate(OR, [8, 9]) && c.gates[11] == Gate(NOT, [10])
  }

  function Bit(b: bool): nat {
    if b then 1 else 0
  }

  lemma AdderWires()
    ensures var f := AdderFile();
      && Writer(f, 1, 3) == 6 && Writer(f, 3, 3) == 6 && Writer(f, 4, 4) == 8 && Writer(f, 4, 5) == 9
      && Writer(f, 5, 9) == 10 && Writer(f, 6, 8) == 7 && Writer(f, 6, 9) == 10 && Writer(f, 6, 10) == 11
  {
    var f := AdderFile();
    assert Writer(f, 1, 3) == 6;
    assert Writer(f, 2, 3) == 6;
    assert Writer(f, 3, 3) == 6;
    assert Writer(f, 3, 4) == 8;
    assert Writer(f, 4, 5) == 9;
    assert Writer(f, 5, 9) == 10;
    assert Writer(f, 2, 8) == 7;
    assert Writer(f, 3, 8) == 7;
    assert Writer(f, 4, 8) == 7;
    assert Writer(f, 5, 8) == 7;
  }

  lemma AdderParses()
    ensures WiresInRange(AdderFile()) && NoConstants(AdderFile()) && NoCopies(AdderFile())
    ensures forall k :: 0 <= k < |AdderFile().lines| ==> LineOk(AdderFile(), k)
  {
    hide Writer;
    AdderWires();
    var f := AdderFile();
    forall k | 0 <= k < 6 ensures LineOk(f, k) {
      if k == 0 {
      } else if k == 1 {
      } else if k == 2 {
      } else if k == 3 {
      } else if k == 4 {
        assert Driver(f, 4, 4) == 8;
      } else {
      }
    }
  }

  lemma AdderCircuit(c: Circuit)
    requires WiresInRange(AdderFile()) && Represents(AdderFile(), c)
    ensures AdderGates(c)
  {
    hide Writer;
    AdderWires();
    var f := AdderFile();
    assert c.gates[3] == GateOf(f, 3) && c.gates[4] == GateOf(f, 4) && c.gates[5] == GateOf(f, 5);
    assert c.gates[6] == GateOf(f, 6) && c.gates[7] == GateOf(f, 7) && c.gates[8] == GateOf(f, 8);
    assert c.gates[9] == GateOf(f, 9) && c.gates[10] == GateOf(f, 10) && c.gates[11] == GateOf(f, 11);
  }

  /** The outputs are the sum, the carry and its negation. */
  lemma AdderAdds(c: Circuit, x: bool, y: bool, z: bool)
    requires AdderGates(c) && Evaluable(c) && Acyclic(c)
    ensures var sum, carry, noCarry := Value(c, [x, y, z], 3), Value(c, [x, y, z], 4), Value(c, [x, y, z], 5);
      Bit(x) + Bit(y) + Bit(z) == 2 * Bit(carry) + Bit(sum) && noCarry == !carry
  {
    hide Cyclic, Evaluable, Value;
    var inputs := [x, y, z];
    GateLaws(c, inputs, 0);
    GateLaws(c, inputs, 1);
    GateLaws(c, inputs, 2);
    GateLaws(c, inputs, 6);
    GateLaws(c, inputs, 7);
    GateLaws(c, inputs, 8);
    GateLaws(c, inputs, 9);
    GateLaws(c, inputs, 10);
    GateLaws(c, inputs, 11);
    GateLaws(c, inputs, 3);
    GateLaws(c, inputs, 4);
    GateLaws(c, inputs, 5);
  }

  /** Parsing the file and evaluating it adds three bits. */
  method Add(x: bool, y: bool, z: bool) returns (sum: bool, carry: bool, noCarry: bool)
    ensures Bit(x) + Bit(y) + Bit(z) == 2 * Bit(carry) + Bit(sum) && noCarry == !carry
  {
    hide AdderFile, WiresInRange, Represents, LineOk, Evaluable, Cyclic, Value;
    AdderParses();
    var parsed, c := Parse(AdderFile());
    assert parsed;
    AdderCircuit(c);
    ParsedEvaluable(AdderFile(), c) by { AdderInputs(); }
    forall g: nat ensures !Cyclic(c, g) {
      ParsedAcyclic(AdderFile(), c, g) by { AdderInputs(); }
    }
    var ok, out := EvaluateCircuit(c, [x, y, z]);
    assert ok;
    AdderAdds(c, x, y, z);
    sum, carry, noCarry := out[0], out[1], out[2];
  }

  lemma AdderInputs()
    ensures AdderFile().numInputs == 3 && AdderFile().numOutputs == 3
  {
  }

  /** So does garbling it: for every hash and every tape of labels the digits are the negated
      carry, the carry and the sum. */
  method AddGarbled(hash: Hash, rand: Rand, x: bool, y: bool, z: bool) returns (digits: string)
    modifies rand
    ensures var ones := Bit(x) + Bit(y) + Bit(z);
      digits == if ones == 0 then "100" else if ones == 1 then "101" else if ones == 2 then "010" else "011"
  {
    hide AdderFile, WiresInRange, Represents, LineOk, NoConstants, NoCopies, Evaluable, Cyclic, Value, RanGarbled;
    AdderParses();
    AdderInputs();
    var parsed, garbling, success, plain;
    ghost var c, run;
    parsed, garbling, success, digits, plain, c, run := RunFile(AdderFile(), hash, rand, [x, y, z]);
    assert parsed && success;
    AdderCircuit(c);
    AdderAdds(c, x, y, z);
    assert OutputGate(c, 0) == 3 && OutputGate(c, 1) == 4 && OutputGate(c, 2) == 5;
  }
}
