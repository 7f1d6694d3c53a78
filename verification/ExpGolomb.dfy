/** The unsigned Exp-Golomb reader that picks the ids out of parameter sets. */
module ExpGolomb {
  import opened Bytes

  // The number of zero bits from bit `off` on, up to the next one bit or the end.
  function Zeros(data: bytes, off: nat): (z: nat)
    ensures off + z <= 8 * |data| || z == 0
    ensures (off + z) / 8 < |data| ==> Bit(data, off + z) == 1
    decreases 8 * |data| - off
  {
    if off / 8 >= |data| || Bit(data, off) == 1 then 0 else 1 + Zeros(data, off + 1)
  }

  // The value of the `n` bits from bit `off` on, most significant first.
  function BitsValue(data: bytes, off: nat, n: nat): (v: nat)
    requires n > 0 ==> (off + n - 1) / 8 < |data|
    ensures v < Pow2(n)
  {
    if n == 0 then 0 else 2 * BitsValue(data, off, n - 1) + Bit(data, off + n - 1)
  }

  // 1 << n in an eight-bit result.
  function Low8(n: int): byte
  {
    if n == 0 then 1 else if n == 1 then 2 else if n == 2 then 4 else if n == 3 then 8
    else if n == 4 then 16 else if n == 5 then 32 else if n == 6 then 64 else if n == 7 then 128 else 0
  }

  datatype Ue = Ue(value: byte, next: nat)

  // One code read from bit `off` on; a code cut off by the end of the data yields what its bits so far give.
  function ReadUe(data: bytes, off: nat): Ue {
    var z := Zeros(data, off);
    var found := (off + z) / 8 < |data|;
    var lead := if found then z as int else z as int - 1;
    var start := if found then off + z + 1 else off + z;
    var n := if lead <= 0 || start >= 8 * |data| then 0
             else if start + lead <= 8 * |data| then lead else 8 * |data| - start;
    Ue((Low8(lead) as int - 1 + BitsValue(data, start, n)) % 256, start + n)
  }

  // Count zero bits and step over the one bit behind them.
  method SkipZeros(data: bytes, off: nat) returns (lead: int, next: nat)
    ensures var z := Zeros(data, off);
      (lead, next) == if (off + z) / 8 < |data| then (z as int, off + z + 1) else (z as int - 1, off + z)
  {
    hide Bit;
    var bit := 0;
    lead, next := -1, off;
    while bit == 0 && next / 8 < |data|
      invariant off <= next && (bit == 0 || bit == 1) && lead == next - off - 1
      invariant bit == 0 ==> Zeros(data, off) == (next - off) + Zeros(data, next)
      invariant bit == 1 ==> lead == Zeros(data, off) && (next - 1) / 8 < |data|
      decreases 8 * |data| - next
    {
      bit := Bit(data, next);
      lead, next := lead + 1, next + 1;
    }
  }

  // Read up to `n` bits, fewer where the data ends.
  method ReadUpTo(data: bytes, start: nat, n: int) returns (acc: nat, next: nat)
    ensures var m := if n <= 0 || start >= 8 * |data| then 0
                     else if start + n <= 8 * |data| then n else 8 * |data| - start;
            next == start + m && acc == BitsValue(data, start, m)
  {
    hide Bit;
    acc, next := 0, start;
    var i := 0;
    while i < n && next / 8 < |data|
      invariant 0 <= i && (n > 0 ==> i <= n) && (n <= 0 ==> i == 0) && next == start + i
      invariant i > 0 ==> next <= 8 * |data|
      invariant acc == BitsValue(data, start, i)
    {
      acc := 2 * acc + Bit(data, next);
      i, next := i + 1, next + 1;
    }
  }

  method ReadUeBits(data: bytes, off: nat) returns (value: byte, next: nat)
    ensures Ue(value, next) == ReadUe(data, off)
  {
    hide Bit, Low8, Zeros, BitsValue;
    var lead, start := SkipZeros(data, off);
    var acc, n := ReadUpTo(data, start, lead);
    value, next := (Low8(lead) as int - 1 + acc) % 256, n;
  }
}
