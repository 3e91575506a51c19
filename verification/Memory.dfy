/** memcpy and memset. */
module Memory {
  import opened Bits

  method CopyInto(buffer: array<Byte>, pos: nat, data: seq<Byte>)
    requires pos + |data| <= buffer.Length
    modifies buffer
    ensures buffer[..] == old(buffer[..pos]) + data + old(buffer[pos + |data|..])
  {
    for q := 0 to |data|
      invariant forall k :: 0 <= k < buffer.Length ==>
        buffer[k] == if pos <= k < pos + q then data[k - pos] else old(buffer[k])
    {
      buffer[pos + q] := data[q];
    }
  }

  function Zeros(n: nat): (z: seq<Byte>)
    ensures |z| == n
  {
    seq(n, i => 0)
  }

  method ZeroFill(buffer: array<Byte>, pos: nat, count: nat)
    requires pos + count <= buffer.Length
    modifies buffer
    ensures buffer[..] == old(buffer[..pos]) + Zeros(count) + old(buffer[pos + count..])
  {
    for q := 0 to count
      invariant forall k :: 0 <= k < buffer.Length ==>
        buffer[k] == if pos <= k < pos + q then 0 else old(buffer[k])
    {
      buffer[pos + q] := 0;
    }
  }
}
