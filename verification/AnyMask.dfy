/** Scans under a mask that need not be contiguous: when the probed addresses stay in the subnet. */
module AnyMask {
  import opened Arithmetic
  import opened Subnet

  function Network(ip: uint32, msk: uint32): uint32 {
    AndBound(ip, msk);
    And(ip, msk)
  }

  /** The i-th probed address shares the masked bits. */
  ghost predicate InSubnet(ip: uint32, msk: uint32, i: nat) {
    And(Host(Network(ip, msk), i), msk) == And(ip, msk)
  }

  /** So do all probed addresses. */
  ghost predicate StaysInside(ip: uint32, msk: uint32, p: nat)
    requires p <= 32
  {
    forall i: nat :: 1 <= i <= Count(p) ==> InSubnet(ip, msk, i)
  }

  // ---------------------------------------------------------------- bits

  lemma TwoBits(x: nat, bit: nat)
    requires bit < 2
    ensures (2 * x + bit) / 2 == x && (2 * x + bit) % 2 == bit
  {
  }

  lemma {:induction false} AndTwice(a: nat, b: nat)
    ensures And(And(a, b), b) == And(a, b)
  {
    if a == 0 || b == 0 {
    } else {
      AndTwice(a / 2, b / 2);
      TwoBits(And(a / 2, b / 2), if a % 2 == 1 && b % 2 == 1 then 1 else 0);
    }
  }

  lemma FourTimes(x: nat, k: nat)
    requires k >= 2
    ensures Shl(x, k) == 4 * Shl(x, k - 2)
  {
    assert Shl(x, k - 1) == 2 * Shl(x, k - 2);
  }

  lemma ShlEight(x: nat)
    ensures Shl(x, 8) == 256 * x
  {
    FourTimes(x, 8);
    FourTimes(x, 6);
    FourTimes(x, 4);
    FourTimes(x, 2);
  }

  lemma ShrEight(x: nat)
    ensures Shr(x, 8) == x / 256
  {
    ShrBlock(x, x / 256, 8);
    ShlEight(x / 256);
    ShlEight(x / 256 + 1);
  }

  /** A zero low byte in one operand is a zero low byte in the result. */
  lemma LowByte(a: nat, b: nat)
    requires b % 256 == 0
    ensures And(a, b) == 256 * And(a / 256, b / 256)
  {
    ShrEight(a);
    ShlEight(b / 256);
    AndShifted(a, b / 256, 8);
    ShlEight(And(a / 256, b / 256));
  }

  // ---------------------------------------------------------------- masks whose low byte is zero

  lemma LowByteInside(ip: uint32, msk: uint32, i: nat)
    requires msk % 256 == 0 && i < 256
    ensures InSubnet(ip, msk, i)
  {
    var q := And(ip / 256, msk / 256);
    LowByte(ip, msk);
    var h: nat := 256 * q + i;
    assert Host(Network(ip, msk), i) == h && h / 256 == q;
    LowByte(h, msk);
    AndTwice(ip / 256, msk / 256);
  }

  // ---------------------------------------------------------------- the probe that leaves the subnet

  lemma {:induction false} ShlSum(x: nat, i: nat, j: nat)
    ensures Shl(Shl(x, i), j) == Shl(x, i + j)
  {
    if j == 0 {
    } else {
      ShlSum(x, i, j - 1);
    }
  }

  /** A mask is an odd number, shifted to its lowest set bit. */
  lemma {:induction false} LowestBit(m: nat) returns (odd: nat, j: nat)
    requires m > 0
    ensures odd % 2 == 1 && m == Shl(odd, j)
  {
    if m % 2 == 1 {
      odd, j := m, 0;
    } else {
      odd, j := LowestBit(m / 2);
      j := j + 1;
    }
  }

  lemma ShrOfShl(x: nat, j: nat)
    ensures Shr(Shl(x, j), j) == x
  {
    ShrBlock(Shl(x, j), x, j);
    ShlOrder(x, x + 1, j);
  }

  /** Adding one to what an odd mask keeps changes it under the mask. */
  lemma NextDiffers(x: nat, odd: nat)
    requires odd % 2 == 1
    ensures And(And(x, odd) + 1, odd) != And(x, odd)
  {
    var a, half := And(x, odd), odd / 2;
    assert odd == 2 * half + 1;
    AndTwice(x, odd);
    AndOdd(a, half);
    AndOdd(a + 1, half);
  }

  /** Adding the lowest bit of the mask to a network address changes it under the mask. */
  lemma NextBlockDiffers(ip: nat, odd: nat, j: nat)
    requires odd % 2 == 1
    ensures var net := And(ip, Shl(odd, j)); And(net + Pow2(j), Shl(odd, j)) != net
  {
    var a := And(Shr(ip, j), odd);
    AndShifted(ip, odd, j);
    ShlOne(0, j);
    ShlAdds(a, 1, j);
    AndShifted(Shl(a + 1, j), odd, j);
    ShrOfShl(a + 1, j);
    NextDiffers(Shr(ip, j), odd);
    ShlOrder(And(a + 1, odd), a, j);
    ShlOrder(a, And(a + 1, odd), j);
  }

  lemma {:induction false} Positive(x: nat, j: nat)
    requires x > 0
    ensures Shl(x, j) > 0
  {
    if j == 0 {
    } else {
      Positive(x, j - 1);
    }
  }

  /** The network address leaves room for the lowest bit of the mask, up to the end of 32 bits. */
  lemma RoomForBit(ip: uint32, odd: nat, j: nat)
    requires Shl(odd, j) < WORD && j <= 32
    ensures And(ip, Shl(odd, j)) + Pow2(j) <= WORD
  {
    var a := And(Shr(ip, j), odd);
    AndShifted(ip, odd, j);
    AndBound(ip, Shl(odd, j));
    WordIsPow2();
    ShlOne(32 - j, j);
    ShlOne(0, j);
    ShlAdds(a, 1, j);
    ShlOrder(a, Pow2(32 - j), j);
    ShlOrder(Pow2(32 - j), a + 1, j);
  }

  /** The probe at the lowest bit of the mask leaves the subnet, of any address, also when it wraps to zero. */
  lemma LowestBitLeaves(ip: uint32, msk: uint32, odd: nat, j: nat)
    requires odd % 2 == 1 && msk == Shl(odd, j) && j <= 31
    ensures !InSubnet(ip, msk, Pow2(j))
  {
    var net := Network(ip, msk);
    NextBlockDiffers(ip, odd, j);
    RoomForBit(ip, odd, j);
    Pow2Monotone(j, 31);
    WordIsPow2();
    BitWraps(net, Pow2(j));
  }

  lemma BitWraps(net: uint32, bit: nat)
    requires net + bit <= WORD
    ensures Host(net, bit) == if net + bit == WORD then 0 else net + bit
  {
  }

  // ---------------------------------------------------------------- the exact condition

  lemma ShortMask(p: nat)
    requires 16 <= p <= 24
    ensures Mask(p) % 256 == 0 && Count(p) == 254
  {
    MaskIsWordMinus(p);
    ShlOne(24 - p, 8);
    ShlEight(Pow2(24 - p));
    Pow2Monotone(8, 32 - p);
    assert Pow2(8) == 256;
  }

  lemma WholeByte(x: nat)
    ensures 256 * x % 256 == 0
  {
  }

  /** A mask with bits in its low byte has its lowest bit there. */
  lemma LowBitInByte(msk: nat, odd: nat, j: nat)
    requires msk == Shl(odd, j) && msk % 256 != 0
    ensures j <= 7
  {
    if j >= 8 {
      ShlSum(odd, j - 8, 8);
      ShlEight(Shl(odd, j - 8));
      WholeByte(Shl(odd, j - 8));
    }
  }

  lemma ShortPrefix(ip: uint32, msk: uint32, p: nat)
    requires 16 <= p <= 24
    ensures StaysInside(ip, msk, p) <==> msk % 256 == 0
  {
    ShortMask(p);
    if msk % 256 == 0 {
      forall i: nat | 1 <= i <= Count(p)
        ensures InSubnet(ip, msk, i)
      {
        LowByteInside(ip, msk, i);
      }
    } else {
      var odd, j := LowestBit(msk);
      LowBitInByte(msk, odd, j);
      LowestBitLeaves(ip, msk, odd, j);
      Pow2Monotone(j, 7);
      assert Pow2(7) == 128;
    }
  }

  lemma HostIs(net: uint32, i: nat)
    requires net + i < WORD
    ensures Host(net, i) == net + i
  {
  }

  lemma SameByte(x: uint32, y: uint32)
    requires WORD - 256 <= x && WORD - 256 <= y
    ensures x % 256 == y % 256 <==> x == y
  {
  }

  /** Behind 24 ones, a mask is contiguous exactly when its low byte is that of the contiguous one. */
  lemma LongMask(msk: uint32, p: nat)
    requires 24 < p <= 30 && LeadingOnes(msk, p)
    ensures Mask(p) <= msk < Mask(p) + Pow2(31 - p) && Mask(p) + Pow2(32 - p) == WORD
    ensures msk % 256 == Mask(p) % 256 <==> msk == Mask(p)
    ensures Count(p) == Pow2(32 - p) - 2 && Pow2(31 - p) <= Count(p)
  {
    NextMask(p);
    MaskIsWordMinus(p);
    Pow2Monotone(2, 32 - p);
    Pow2Monotone(32 - p, 7);
    assert Pow2(7) == 128;
    SameByte(msk, Mask(p));
  }

  lemma ContiguousInside(ip: uint32, p: nat, msk: uint32, i: nat)
    requires 24 < p <= 30 && msk == Mask(p) && LeadingOnes(msk, p) && 1 <= i <= Count(p)
    ensures InSubnet(ip, msk, i)
  {
    LongMask(msk, p);
    NetworkInterval(ip, p, ip);
    var net := Network(ip, msk);
    HostIs(net, i);
    NetworkInterval(ip, p, net + i);
  }

  /** A mask with bits behind its leading ones has its lowest bit among its host bits. */
  lemma LowBitBehindOnes(msk: nat, p: nat, odd: nat, j: nat)
    requires p <= 31 && Mask(p) < msk < Mask(p) + Pow2(31 - p) && msk == Shl(odd, j)
    ensures j <= 31 - p
  {
    var k := 32 - p;
    if j >= k {
      var x, y := Pow2(p) - 1, Shl(odd, j - k);
      ShlSum(odd, j - k, k);
      ShlOne(0, k);
      ShlAdds(x, 1, k);
      ShlOrder(x, y, k);
      ShlOrder(y, x + 1, k);
    }
  }

  lemma LongPrefix(ip: uint32, msk: uint32, p: nat)
    requires 24 < p <= 30 && LeadingOnes(msk, p)
    ensures StaysInside(ip, msk, p) <==> msk == Mask(p)
  {
    LongMask(msk, p);
    if msk == Mask(p) {
      forall i: nat | 1 <= i <= Count(p)
        ensures InSubnet(ip, msk, i)
      {
        ContiguousInside(ip, p, msk, i);
      }
    } else {
      var odd, j := LowestBit(msk);
      LowBitBehindOnes(msk, p, odd, j);
      LowestBitLeaves(ip, msk, odd, j);
      Pow2Monotone(j, 31 - p);
    }
  }

  /**
   With any mask of prefix 16 to 30 and for every interface address, the probed addresses stay in its
   subnet exactly when the low byte of the mask agrees with the contiguous mask of that prefix.
   */
  lemma StaysInsideIff(ip: uint32, msk: uint32, p: nat)
    requires 16 <= p <= 30 && LeadingOnes(msk, p)
    ensures StaysInside(ip, msk, p) <==> msk % 256 == Mask(p) % 256
  {
    if p <= 24 {
      ShortMask(p);
      ShortPrefix(ip, msk, p);
    } else {
      LongMask(msk, p);
      LongPrefix(ip, msk, p);
    }
  }
}
