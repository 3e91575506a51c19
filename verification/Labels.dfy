/** 16-byte wire labels and the one-row encryption of garbled tables (toygarble). */
module Labels {
  import opened Bits

  const LABEL_LEN_BYTES := 16

  type Label = l: seq<Byte> | |l| == LABEL_LEN_BYTES witness seq(16, _ => 0)

  function ZeroLabel(): Label {
    [0, 0, 0, 0, 0, 0, 0, 0, 0, 0, 0, 0, 0, 0, 0, 0]
  }

  /** The one-label of output wires: sixteen bytes 0x01. */
  function OneLabel(): Label {
    [1, 1, 1, 1, 1, 1, 1, 1, 1, 1, 1, 1, 1, 1, 1, 1]
  }

  function XorByte(x: Byte, y: Byte): Byte {
    ByteBound(x, y);
    BitXor(x, y)
  }

  lemma ByteBound(x: Byte, y: Byte)
    ensures BitXor(x, y) < 256
  {
    assert Pow2(8) == 256;
    BitXorBound(x, y, 8);
  }

  function XorLabel(x: Label, y: Label): Label {
    seq(LABEL_LEN_BYTES, i requires 0 <= i < LABEL_LEN_BYTES => XorByte(x[i], y[i]))
  }

  /** Low bit of the last byte: the point-and-permute selector and the plain output bit. */
  function Selector(l: Label): (b: nat)
    ensures b < 2
  {
    l[LABEL_LEN_BYTES - 1] % 2
  }

  /** The part of a label that is hashed. */
  function KeyPart(l: Label): seq<Byte> {
    l[..LABEL_LEN_BYTES - 1]
  }

  /** BLAKE2b with a 16-byte output, as some function of the bytes written to it. */
  type Hash = seq<Byte> -> Label

  function EncryptTableEntry(hash: Hash, row: Byte, in1: seq<Byte>, in2: seq<Byte>, out: Label): Label {
    XorLabel(hash([row] + in1 + in2), out)
  }

  function DecryptTableEntry(hash: Hash, row: Byte, in1: seq<Byte>, in2: seq<Byte>, ciphertext: Label): Label {
    XorLabel(hash([row] + in1 + in2), ciphertext)
  }

  lemma DecryptInverts(hash: Hash, row: Byte, in1: seq<Byte>, in2: seq<Byte>, out: Label)
    ensures DecryptTableEntry(hash, row, in1, in2, EncryptTableEntry(hash, row, in1, in2, out)) == out
  {
    XorLabelCancel(hash([row] + in1 + in2), out);
  }

  /** Other rows or keys decrypt to the label exactly when the hash does not tell them apart. */
  lemma DecryptExact(hash: Hash, row: Byte, in1: seq<Byte>, in2: seq<Byte>, row': Byte, in1': seq<Byte>,
                     in2': seq<Byte>, out: Label)
    ensures DecryptTableEntry(hash, row', in1', in2', EncryptTableEntry(hash, row, in1, in2, out)) == out
       <==> hash([row'] + in1' + in2') == hash([row] + in1 + in2)
  {
    hide XorLabel;
    var h, h' := hash([row] + in1 + in2), hash([row'] + in1' + in2');
    XorLabelCancel(h, out);
    XorLabelCancel(h', XorLabel(h, out));
    XorLabelComm(h, out);
    XorLabelComm(h', out);
    XorLabelCancel(out, h);
    XorLabelCancel(out, h');
  }

  /** What is hashed tells the row and the first fifteen bytes of both labels apart, and nothing
      more. */
  lemma HashedBytes(row: Byte, x: Label, y: Label, row': Byte, x': Label, y': Label)
    ensures [row] + KeyPart(x) + KeyPart(y) == [row'] + KeyPart(x') + KeyPart(y')
       <==> row == row' && forall i :: 0 <= i < LABEL_LEN_BYTES - 1 ==> x[i] == x'[i] && y[i] == y'[i]
  {
    var s, s' := [row] + KeyPart(x) + KeyPart(y), [row'] + KeyPart(x') + KeyPart(y');
    if s == s' {
      assert s[0] == row && s'[0] == row';
      forall i | 0 <= i < LABEL_LEN_BYTES - 1 ensures x[i] == x'[i] && y[i] == y'[i] {
        assert s[1 + i] == x[i] && s'[1 + i] == x'[i] && s[16 + i] == y[i] && s'[16 + i] == y'[i];
      }
    }
  }

  lemma XorLabelCancel(x: Label, y: Label)
    ensures XorLabel(x, XorLabel(x, y)) == y
  {
    hide BitXor;
    forall i | 0 <= i < LABEL_LEN_BYTES ensures XorLabel(x, XorLabel(x, y))[i] == y[i] {
      BitXorCancel(x[i], y[i]);
    }
  }

  lemma XorLabelAssoc(x: Label, y: Label, z: Label)
    ensures XorLabel(XorLabel(x, y), z) == XorLabel(x, XorLabel(y, z))
  {
    hide BitXor;
    forall i | 0 <= i < LABEL_LEN_BYTES
      ensures XorLabel(XorLabel(x, y), z)[i] == XorLabel(x, XorLabel(y, z))[i]
    {
      BitXorAssoc(x[i], y[i], z[i]);
    }
  }

  lemma XorLabelComm(x: Label, y: Label)
    ensures XorLabel(x, y) == XorLabel(y, x)
  {
    hide BitXor;
    forall i | 0 <= i < LABEL_LEN_BYTES ensures XorLabel(x, y)[i] == XorLabel(y, x)[i] {
      BitXorComm(x[i], y[i]);
    }
  }

  lemma SelectorOfXor(x: Label, y: Label)
    ensures Selector(XorLabel(x, y)) == if Selector(x) == Selector(y) then 0 else 1
  {
    hide BitXor;
    BitXorUnfold(x[LABEL_LEN_BYTES - 1], y[LABEL_LEN_BYTES - 1]);
  }

  lemma ConstantSelectors()
    ensures Selector(ZeroLabel()) == 0 && Selector(OneLabel()) == 1
  {
  }
}
