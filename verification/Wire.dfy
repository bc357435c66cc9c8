/** Integers in network byte order, and the bits of the flags byte of a frame. */
module Wire {
  import opened Arith
  import opened Bytes

  const MAX64: nat := 0x1_0000_0000_0000_0000

  /** `(value >> 8 * k) & 0xff`. */
  function Octet(value: nat, unit: nat): Byte
    requires unit > 0
  {
    (value / unit) % 256
  }

  function PutUint64(value: nat): (b: Key)
    ensures |b| == 8
  {
    [Octet(value, 0x100_0000_0000_0000), Octet(value, 0x1_0000_0000_0000), Octet(value, 0x100_0000_0000),
     Octet(value, 0x1_0000_0000), Octet(value, 0x100_0000), Octet(value, 0x1_0000), Octet(value, 0x100),
     Octet(value, 1)]
  }

  function Power256(n: nat): (r: nat)
    ensures r > 0
  {
    if n == 0 then 1 else 256 * Power256(n - 1)
  }

  /** The most significant byte comes first. */
  lemma BigEndian(value: nat)
    ensures forall i | 0 <= i < 8 :: PutUint64(value)[i] == value / Power256(7 - i) % 256
  {
    assert Power256(1) == 0x100;
    assert Power256(2) == 0x1_0000;
    assert Power256(3) == 0x100_0000;
    assert Power256(4) == 0x1_0000_0000;
    assert Power256(5) == 0x100_0000_0000;
    assert Power256(6) == 0x1_0000_0000_0000;
    assert Power256(7) == 0x100_0000_0000_0000;
    var b := PutUint64(value);
    assert b[0] == value / Power256(7) % 256 && b[1] == value / Power256(6) % 256;
    assert b[2] == value / Power256(5) % 256 && b[3] == value / Power256(4) % 256;
    assert b[4] == value / Power256(3) % 256 && b[5] == value / Power256(2) % 256;
    assert b[6] == value / Power256(1) % 256 && b[7] == value / Power256(0) % 256;
  }

  /** The shifted bytes have no bits in common, so that or-ing them adds them. */
  function GetUint64(b: Key): (value: nat)
    requires |b| == 8
  {
    (b[0] as int) * 0x100_0000_0000_0000 + (b[1] as int) * 0x1_0000_0000_0000 + (b[2] as int) * 0x100_0000_0000
    + (b[3] as int) * 0x1_0000_0000 + (b[4] as int) * 0x100_0000 + (b[5] as int) * 0x1_0000
    + (b[6] as int) * 0x100 + b[7]
  }

  function Shifted(value: nat, unit: nat): nat
    requires unit > 0
  {
    value / unit
  }

  /** One byte more of a number, most significant first. */
  lemma OneMore(value: nat, unit: nat)
    requires unit > 0
    ensures Shifted(value, unit) == Shifted(value, unit * 256) * 256 + Octet(value, unit)
  {
    DivDiv(value, unit, 256);
  }

  lemma Uint64RoundTrip(value: nat)
    requires value < MAX64
    ensures GetUint64(PutUint64(value)) == value
  {
    assert Shifted(value, MAX64) == 0 && Shifted(value, 1) == value;
    hide Octet, Shifted;
    OneMore(value, 0x100_0000_0000_0000);
    OneMore(value, 0x1_0000_0000_0000);
    OneMore(value, 0x100_0000_0000);
    OneMore(value, 0x1_0000_0000);
    OneMore(value, 0x100_0000);
    OneMore(value, 0x1_0000);
    OneMore(value, 0x100);
    OneMore(value, 1);
  }

  // The flags of a frame.
  const MORE: Byte := 1
  const LARGE: Byte := 2
  const COMMAND: Byte := 4

  function FlagsByte(more: bool, large: bool, command: bool): Byte {
    (if more then MORE else 0) + (if large then LARGE else 0) + if command then COMMAND else 0
  }

  /** Whether a flag, a power of two, is set in a byte. */
  predicate IsSet(b: Byte, flag: Byte)
    requires flag > 0
  {
    (b / flag) % 2 == 1
  }
}
