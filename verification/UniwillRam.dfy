/** The Uniwill embedded controller's memory as the rest of the driver sees it: a flat array of bytes,
    and the registers that several parts of the driver share. */
module UniwillRam {
  import opened Common

  type Byte = bv8
  type Ram = r: seq<Byte> | |r| == RAM_SIZE witness seq(RAM_SIZE, i => 0 as bv8)

  /** Power profile in bits 7, 5 and 4, full-fan mode in bit 6; the rest belongs to the firmware. */
  const MODE: Address := 0x0751
  const FULL_FAN: Byte := 0x40
  const PROFILE_BITS: Byte := 0xb0

  /** The three profiles of uw_set_performance_profile_v1. */
  function ProfileBits(profile: nat): Byte
    requires 1 <= profile <= 3
  {
    if profile == 1 then 0xa0 else if profile == 2 then 0x00 else 0x10
  }

  /** The eight bits of a byte, highest first. */
  function FromBits(b7: bool, b6: bool, b5: bool, b4: bool, b3: bool, b2: bool, b1: bool, b0: bool): Byte {
    (if b7 then 0x80 else 0) | (if b6 then 0x40 else 0) | (if b5 then 0x20 else 0) | (if b4 then 0x10 else 0) |
    (if b3 then 0x08 else 0) | (if b2 then 0x04 else 0) | (if b1 then 0x02 else 0) | (if b0 then 0x01 else 0)
  }

  function Odd(n: int): bool {
    n % 2 == 1
  }

  /** An integer stored into a byte: its lowest eight bits. */
  function Truncated(value: int): Byte {
    FromBits(Odd(Shifted(value, 7)), Odd(Shifted(value, 6)), Odd(Shifted(value, 5)), Odd(Shifted(value, 4)),
             Odd(Shifted(value, 3)), Odd(Shifted(value, 2)), Odd(Shifted(value, 1)), Odd(value))
  }

  function Shifted(value: int, n: nat): int {
    if n == 0 then value else Shifted(value, n - 1) / 2
  }

  /** The integer that eight bits stand for. */
  function Sum(b7: bool, b6: bool, b5: bool, b4: bool, b3: bool, b2: bool, b1: bool, b0: bool): (v: int)
    ensures 0 <= v < 0x100
  {
    (if b7 then 128 else 0) + (if b6 then 64 else 0) + (if b5 then 32 else 0) + (if b4 then 16 else 0) +
    (if b3 then 8 else 0) + (if b2 then 4 else 0) + (if b1 then 2 else 0) + (if b0 then 1 else 0)
  }

  /** The integer that a byte is read as. */
  function Value(b: Byte): int {
    Sum(b & 0x80 != 0, b & 0x40 != 0, b & 0x20 != 0, b & 0x10 != 0,
        b & 0x08 != 0, b & 0x04 != 0, b & 0x02 != 0, b & 0x01 != 0)
  }

  lemma BitsAreKept(b7: bool, b6: bool, b5: bool, b4: bool, b3: bool, b2: bool, b1: bool, b0: bool)
    ensures var b := FromBits(b7, b6, b5, b4, b3, b2, b1, b0);
            && (b & 0x80 != 0 <==> b7) && (b & 0x40 != 0 <==> b6) && (b & 0x20 != 0 <==> b5) && (b & 0x10 != 0 <==> b4)
            && (b & 0x08 != 0 <==> b3) && (b & 0x04 != 0 <==> b2) && (b & 0x02 != 0 <==> b1) && (b & 0x01 != 0 <==> b0)
  {
  }

  /** One bit of what is left after `n` shifts. */
  lemma NextBit(value: int, n: nat)
    ensures Shifted(value, n) == 2 * Shifted(value, n + 1) + if Odd(Shifted(value, n)) then 1 else 0
    ensures n == 0 ==> Shifted(value, n) == value
  {
  }

  lemma Remainder(v: int, low: int, high: int)
    requires v == low + 0x100 * high && 0 <= low < 0x100
    ensures v % 0x100 == low
  {
  }

  lemma LowBits(v: int)
    ensures v % 0x100 ==
            Sum(Odd(Shifted(v, 7)), Odd(Shifted(v, 6)), Odd(Shifted(v, 5)), Odd(Shifted(v, 4)),
                Odd(Shifted(v, 3)), Odd(Shifted(v, 2)), Odd(Shifted(v, 1)), Odd(v))
  {
    NextBit(v, 0);
    NextBit(v, 1);
    NextBit(v, 2);
    NextBit(v, 3);
    NextBit(v, 4);
    NextBit(v, 5);
    NextBit(v, 6);
    NextBit(v, 7);
    Remainder(v, Sum(Odd(Shifted(v, 7)), Odd(Shifted(v, 6)), Odd(Shifted(v, 5)), Odd(Shifted(v, 4)),
                     Odd(Shifted(v, 3)), Odd(Shifted(v, 2)), Odd(Shifted(v, 1)), Odd(v)), Shifted(v, 8));
  }

  /** Everything above the lowest eight bits is lost, and nothing else. */
  lemma TruncatedValue(value: int)
    ensures Value(Truncated(value)) == value % 0x100
  {
    BitsAreKept(Odd(Shifted(value, 7)), Odd(Shifted(value, 6)), Odd(Shifted(value, 5)), Odd(Shifted(value, 4)),
                Odd(Shifted(value, 3)), Odd(Shifted(value, 2)), Odd(Shifted(value, 1)), Odd(value));
    LowBits(value);
  }

  lemma SmallRemainder(v: int)
    requires 0 <= v < 0x100
    ensures v % 0x100 == v
  {
  }

  lemma ByteValue(v: int, b: Byte)
    requires 0 <= v < 0x100 && b == Truncated(v)
    ensures Value(b) == v
  {
    var w := v % 0x100;
    assert w == v by {
      SmallRemainder(v);
    }
    assert Value(b) == w by {
      TruncatedValue(v);
    }
  }
}
