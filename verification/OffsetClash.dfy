/** A run of the garbled circuit that decodes a wrong output (toygarble/simplegarble.go): an
    exclusive or of an output gate and the input behind it mixes the two label offsets, and
    another output reads it. */
module OffsetClash {
  import opened Bits
  import opened Circuit
  import opened Labels
  import opened Garble
  import opened GarbledCircuit
  import opened GarbledEvaluation

  /** Output 0 shows the input, output 1 the exclusive or of output 0 and the input. */
  function ClashCircuit(): Circuit {
    Circuit(1, 2, [Gate(INPUT, []), Gate(OUTPUT, [0]), Gate(OUTPUT, [3]), Gate(XOR, [1, 0])])
  }

  ghost predicate ClashGates(c: Circuit) {
    && c.numInputs == 1 && c.numOutputs == 2 && |c.gates| == 4
    && c.gates[0].kind == INPUT && c.gates[0].inFrom == []
    && c.gates[1].kind == OUTPUT && c.gates[1].inFrom == [0]
    && c.gates[2].kind == OUTPUT && c.gates[2].inFrom == [3]
    && c.gates[3].kind == XOR && c.gates[3].inFrom == [1, 0]
  }

  lemma ClashIsWired(c: Circuit)
    requires ClashGates(c)
    ensures Garbleable(c) && Wired(c) && GarblingEnding(c, 0) == Done
    ensures InputsPlaced(c) && OutputsPlaced(c)
  {
    forall g | 0 <= g < 4
      ensures MinInputs(c.gates[g].kind) <= |c.gates[g].inFrom| <= MaxInputs(c.gates[g].kind)
      ensures forall i :: 0 <= i < |c.gates[g].inFrom| ==> c.gates[g].inFrom[i] < 4
      ensures GateEnding(c.gates[g]) == Done
    {
      assert g == 0 || g == 1 || g == 2 || g == 3;
    }
    EndingIsDone(c, 0);
  }

  lemma ClashIsAcyclic(c: Circuit)
    requires ClashGates(c) && Wired(c)
    ensures Acyclic(c)
  {
    hide Cyclic, Wired;
    assert RecursionEnds(c, 0, 1) && RecursionEnds(c, 0, 2);
    assert RecursionEnds(c, 1, 2);
    assert RecursionEnds(c, 3, 3);
    assert RecursionEnds(c, 2, 4);
    RecursionEndsUnless(c, 0, 1);
    RecursionEndsUnless(c, 1, 2);
    RecursionEndsUnless(c, 2, 4);
    RecursionEndsUnless(c, 3, 3);
  }

  lemma ClashValues(c: Circuit)
    requires ClashGates(c) && Evaluable(c) && Acyclic(c)
    ensures Value(c, [true], 0) && Value(c, [true], 1) && !Value(c, [true], 3) && !Value(c, [true], 2)
  {
    hide Cyclic, Evaluable, Ancestors;
    assert Value(c, [true], 0);
    GateOutcome(c, [true], 1, true, true, false, false);
    GateOutcome(c, [true], 3, true, true, true, true);
    GateOutcome(c, [true], 2, true, false, false, false);
  }

  /** What decrypting output 1 hashes when it should and when it does. */
  function ClashKey(row: nat, key: Label): seq<Byte>
    requires row < 2
  {
    [row] + KeyPart(key)
  }

  /** The label that evaluation gives the exclusive or, from the zero label of the input. */
  function ClashLabel(delta: Label, zero: Label): Label {
    XorLabel(OneLabel(), XorLabel(zero, delta))
  }

  lemma ClashSelector(delta: Label, zero: Label)
    requires Selector(delta) == 1
    ensures Selector(ClashLabel(delta, zero)) == Selector(zero)
  {
    hide Selector, XorLabel;
    ConstantSelectors();
    SelectorOfXor(zero, delta);
    SelectorOfXor(OneLabel(), XorLabel(zero, delta));
  }

  /** On input true the labels of gates 0, 1 and 3. */
  lemma ClashOperands(c: Circuit, hash: Hash, delta: Label, w: seq<WireLabel>, tables: seq<seq<Label>>,
                      inputLabels: seq<Label>)
    requires ClashGates(c) && Handed(c, hash, delta, w, tables) && TablesFit(c, tables)
    requires InputLabels(c, w, [true], inputLabels) && Acyclic(c)
    ensures w[0].Pair? && w[0].l1 == XorLabel(w[0].l0, delta) && w[1] == Pair(ZeroLabel(), OneLabel())
    ensures w[2] == Pair(ZeroLabel(), OneLabel()) && w[3].Pair? && w[3].l0 == w[0].l0
    ensures GarbledLabel(c, hash, tables, inputLabels, 1) == OneLabel()
    ensures GarbledLabel(c, hash, tables, inputLabels, 3) == ClashLabel(delta, w[0].l0)
  {
    hide Cyclic, RowLabel, Rows, GateGarbled, Selector, XorLabel, Evaluable, Wired, TablesFit, ZeroLabel, OneLabel;
    assert WireRule(c, delta, w, 0) && WireRule(c, delta, w, 1) && WireRule(c, delta, w, 2) && WireRule(c, delta, w, 3);
    ZeroXor(w[0].l0);
    LabelOutcome(c, hash, tables, inputLabels, 0, false, w[0].l1, true, ZeroLabel());
    LabelOutcome(c, hash, tables, inputLabels, 1, true, w[0].l1, true, ZeroLabel());
    GateLabel(c, hash, tables, 1, w[0].l1, ZeroLabel(), delta, w, true, false);
    LabelOutcome(c, hash, tables, inputLabels, 3, true, OneLabel(), true, w[0].l1);
    XorRowIs(hash, tables[3], OneLabel(), w[0].l1);
  }

  lemma XorRowIs(hash: Hash, table: seq<Label>, label1: Label, label2: Label)
    ensures RowLabel(hash, XOR, 2, table, label1, label2) == XorLabel(label1, label2)
  {
  }

  /** Output 1 is false, and decodes as false if and only if the hash gives the two keys the
      same low bit. */
  lemma ClashDigit(c: Circuit, hash: Hash, delta: Label, w: seq<WireLabel>, tables: seq<seq<Label>>,
                   inputLabels: seq<Label>)
    requires ClashGates(c) && Handed(c, hash, delta, w, tables) && TablesFit(c, tables)
    requires InputLabels(c, w, [true], inputLabels) && Acyclic(c)
    ensures w[0].Pair?
    ensures var row, zero := Selector(w[0].l0), w[0].l0;
      Selector(GarbledLabel(c, hash, tables, inputLabels, 2)) == 0
      <==> Selector(hash(ClashKey(row, zero))) == Selector(hash(ClashKey(row, ClashLabel(delta, zero))))
  {
    hide Cyclic, RowLabel, Rows, Selector, XorLabel, Evaluable, Wired, TablesFit, ZeroLabel, OneLabel, KeyPart,
         GarbledLabel, ClashLabel, AllWires;
    ClashOperands(c, hash, delta, w, tables, inputLabels);
    var zero := w[0].l0;
    var row, crossed := Selector(zero), ClashLabel(delta, zero);
    LabelOutcome(c, hash, tables, inputLabels, 2, true, crossed, true, ZeroLabel());
    ClashSelector(delta, zero);
    assert GateGarbled(c, hash, w, 2, tables[2]);
    ClashRow(hash, w[3], w[2], tables[2], crossed);
    SelectorOfXor(hash(ClashKey(row, zero)), ZeroLabel());
    SelectorOfXor(hash(ClashKey(row, crossed)), XorLabel(hash(ClashKey(row, zero)), ZeroLabel()));
    ConstantSelectors();
  }

  /** Decrypting the row of the false label with another label of the same selector. */
  lemma ClashRow(hash: Hash, left: WireLabel, out: WireLabel, table: seq<Label>, key: Label)
    requires left.Pair? && out.Pair? && out.l0 == ZeroLabel() && Table2(hash, OUTPUT, left, out, table)
    requires Selector(key) == Selector(left.l0)
    ensures var row := Selector(key);
      |table| == Rows(1)
      && RowLabel(hash, OUTPUT, 1, table, key, ZeroLabel())
         == XorLabel(hash(ClashKey(row, key)), XorLabel(hash(ClashKey(row, left.l0)), ZeroLabel()))
  {
    hide Selector, XorLabel, KeyPart, ZeroLabel;
    assert Rows(1) == 2;
    assert Row2(hash, OUTPUT, left, out, table, 0);
    var row := Selector(key);
    assert [row] + KeyPart(key) + [] == ClashKey(row, key);
    assert [row] + KeyPart(left.l0) + [] == ClashKey(row, left.l0);
  }

  /** The whole run on input true. The outputs are true and false; the garbled path decodes the
      first one rightly, and the second one if and only if the hash gives the key that opens its
      table and the key that evaluation arrives with the same low bit. */
  method ClashRun(hash: Hash, rand: Rand) returns (out: string, ghost zero: Label)
    modifies rand
    ensures var c := ClashCircuit(); Garbleable(c) && Acyclic(c) && Value(c, [true], 1) && !Value(c, [true], 2)
    ensures |out| == 2 && out[1] == '1' && (out[0] == '0' || out[0] == '1')
    ensures var delta, row := SetLastBit(rand.tape(old(rand.pos))), Selector(zero);
      out[0] == '0'
      <==> Selector(hash(ClashKey(row, zero))) == Selector(hash(ClashKey(row, ClashLabel(delta, zero))))
  {
    hide Cyclic, Garbleable, Evaluable, Wired, SetLastBit, Selector, Value, AllWires, Garbled, XorLabel, TablesFit,
         KeyPart, ReadXorsRight, GarblingEnding, GarbledLabel, ClashLabel, InputLabels, ValidCircuit;
    var c := ClashCircuit();
    ClashIsWired(c);
    WiredIsValid(c);
    ClashIsAcyclic(c);
    GarbleableSize(c);
    ClashValues(c);
    var garbling, success;
    ghost var x;
    garbling, success, out, x := GarbledRun(c, hash, rand, [true]);
    ghost var w, tables, inputLabels := x.w, x.tables, x.inputLabels;
    ghost var delta := SetLastBit(rand.tape(old(rand.pos)));
    ClashOperands(c, hash, delta, w, tables, inputLabels);
    ClashDigit(c, hash, delta, w, tables, inputLabels);
    AllPairs(c, delta, w);
    zero := w[0].l0;
    ConstantSelectors();
    assert OutputGate(c, 0) == 1 && OutputGate(c, 1) == 2;
  }

  // ---------- a hash that shows it ----------

  /** Bit `j` of byte `i` of the key, as a label. */
  function BitHash(i: nat, j: nat): Hash {
    (m: seq<Byte>) =>
      var bit: Byte := if i + 1 < |m| then Shr(m[i + 1], j) % 2 else 0;
      [0, 0, 0, 0, 0, 0, 0, 0, 0, 0, 0, 0, 0, 0, 0, bit]
  }

  lemma {:induction false} BitOfXor(x: nat, y: nat, j: nat)
    ensures Shr(BitXor(x, y), j) % 2 == if Shr(x, j) % 2 == Shr(y, j) % 2 then 0 else 1
  {
    BitXorUnfold(x, y);
    if j > 0 {
      BitOfXor(x / 2, y / 2, j - 1);
    }
  }

  lemma {:induction false} SomeBit(x: nat, y: nat) returns (j: nat)
    requires x != y
    ensures Shr(x, j) % 2 != Shr(y, j) % 2
  {
    j := 0;
    if x % 2 == y % 2 {
      j := SomeBit(x / 2, y / 2);
      j := j + 1;
    }
  }

  /** Wherever the first fifteen bytes of the offset differ from the output offset, some bit does. */
  lemma DifferentBit(delta: Label) returns (i: nat, j: nat)
    requires KeyPart(delta) != KeyPart(OneLabel())
    ensures i < 15 && Shr(delta[i], j) % 2 != Shr(1, j) % 2
  {
    hide Shr;
    i :| 0 <= i < 15 && KeyPart(delta)[i] != KeyPart(OneLabel())[i];
    j := SomeBit(delta[i], 1);
  }

  lemma HashedBit(i: nat, j: nat, row: nat, key: Label)
    requires i < 15 && row < 2
    ensures Selector(BitHash(i, j)(ClashKey(row, key))) == Shr(key[i], j) % 2
  {
    hide Shr;
    assert ClashKey(row, key)[i + 1] == key[i];
  }

  lemma ClashBit(delta: Label, zero: Label, i: nat, j: nat)
    requires i < 15 && Shr(delta[i], j) % 2 != Shr(1, j) % 2
    ensures Shr(ClashLabel(delta, zero)[i], j) % 2 != Shr(zero[i], j) % 2
  {
    hide Shr, BitXor;
    assert ClashLabel(delta, zero)[i] == BitXor(1, BitXor(zero[i], delta[i]));
    BitOfXor(zero[i], delta[i], j);
    BitOfXor(1, BitXor(zero[i], delta[i]), j);
  }

  /** A wrong output: for every tape whose offset differs from the output offset in some bit of
      the first fifteen bytes there is a hash, the same for all labels, under which the outputs
      true and false are decoded as two times true. */
  method WrongOutput(rand: Rand, i: nat, j: nat) returns (out: string)
    requires i < 15 && Shr(SetLastBit(rand.tape(rand.pos))[i], j) % 2 != Shr(1, j) % 2
    modifies rand
    ensures var c := ClashCircuit(); Garbleable(c) && Acyclic(c) && Value(c, [true], 1) && !Value(c, [true], 2)
    ensures out == "11"
  {
    hide Cyclic, Garbleable, SetLastBit, Selector, Value, KeyPart, ClashLabel, BitHash, Shr, ClashKey;
    ghost var delta := SetLastBit(rand.tape(rand.pos));
    ghost var zero;
    out, zero := ClashRun(BitHash(i, j), rand);
    ClashBit(delta, zero, i, j);
    HashedBit(i, j, Selector(zero), zero);
    HashedBit(i, j, Selector(zero), ClashLabel(delta, zero));
  }
}
