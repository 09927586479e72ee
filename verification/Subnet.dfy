/** The subnet of a network scan: the mask-to-prefix loop, and the hosts of a prefix, in 32-bit arithmetic. */
module Subnet {
  import opened Arithmetic

  const WORD := 0x1_0000_0000
  const TOP_BIT := 0x8000_0000
  const MAX_HOSTS := 254

  type uint32 = x: int | 0 <= x < 0x1_0000_0000

  /** Bitwise and. */
  function And(a: nat, b: nat): nat {
    if a == 0 || b == 0 then 0
    else 2 * And(a / 2, b / 2) + (if a % 2 == 1 && b % 2 == 1 then 1 else 0)
  }

  /** Shifts without a width. */
  function Shl(x: nat, k: nat): nat {
    if k == 0 then x else 2 * Shl(x, k - 1)
  }

  function Shr(x: nat, k: nat): nat {
    if k == 0 then x else Shr(x / 2, k - 1)
  }

  /** The 32-bit left shift, bit by bit. */
  function ShlWord(x: uint32, k: nat): uint32
    decreases k
  {
    if k == 0 then x else ShlWord(x * 2 % WORD, k - 1)
  }

  /** `prefix` ones, then zeros. */
  function Mask(prefix: nat): nat
    requires prefix <= 32
  {
    Shl(Pow2(prefix) - 1, 32 - prefix)
  }

  /** The first `prefix` bits of the mask are ones, and the next one is not. */
  predicate LeadingOnes(msk: nat, prefix: nat) {
    prefix <= 32 && Mask(prefix) <= msk && (prefix < 32 ==> msk < Mask(prefix + 1))
  }

  // ---------------------------------------------------------------- shifts

  lemma {:induction false} ShlAdds(x: nat, y: nat, k: nat)
    ensures Shl(x + y, k) == Shl(x, k) + Shl(y, k)
  {
    if k == 0 {
    } else {
      ShlAdds(x, y, k - 1);
    }
  }

  lemma {:induction false} ShlZero(k: nat)
    ensures Shl(0, k) == 0
  {
    if k == 0 {
    } else {
      ShlZero(k - 1);
    }
  }

  lemma {:induction false} ShlOne(i: nat, k: nat)
    ensures Shl(Pow2(i), k) == Pow2(i + k)
  {
    if k == 0 {
    } else {
      ShlOne(i, k - 1);
    }
  }

  lemma {:induction false} ShlOrder(x: nat, y: nat, k: nat)
    ensures Shl(x, k) >= Shl(y, k) <==> x >= y
  {
    if k == 0 {
    } else {
      ShlOrder(x, y, k - 1);
    }
  }

  /** Shifting right names the block of `Pow2(k)` numbers that holds `h`. */
  lemma {:induction false} ShrBlock(h: nat, q: nat, k: nat)
    ensures Shr(h, k) == q <==> Shl(q, k) <= h < Shl(q + 1, k)
  {
    if k == 0 {
    } else {
      ShrBlock(h / 2, q, k - 1);
    }
  }

  lemma WordIsPow2()
    ensures Pow2(32) == WORD && Pow2(31) == TOP_BIT
  {
    assert Pow2(8) == 256;
    assert Pow2(16) == 0x1_0000;
    assert Pow2(24) == 0x100_0000;
  }

  // ---------------------------------------------------------------- masks

  lemma MaskIsWordMinus(prefix: nat)
    requires prefix <= 32
    ensures Mask(prefix) == WORD - Pow2(32 - prefix)
  {
    WordIsPow2();
    ShlOne(prefix, 32 - prefix);
    ShlOne(0, 32 - prefix);
    ShlAdds(Pow2(prefix) - 1, 1, 32 - prefix);
  }

  lemma NextMask(prefix: nat)
    requires prefix < 32
    ensures Mask(prefix + 1) == Mask(prefix) + Pow2(31 - prefix)
  {
    MaskIsWordMinus(prefix);
    MaskIsWordMinus(prefix + 1);
  }

  /** The mask as the adapter's on-link prefix gives it: ~0U << (32 - prefix), or 0. */
  function ShiftedMask(prefix: nat): uint32
    requires prefix <= 32
  {
    if prefix > 0 then ShlWord(WORD - 1, 32 - prefix) else 0
  }

  lemma DoubledComplement(x: nat)
    requires 0 < x && 2 * x <= WORD
    ensures (WORD - x) * 2 % WORD == WORD - 2 * x
  {
  }

  lemma {:induction false} ShiftOnes(j: nat, k: nat)
    requires j + k <= 32 && 0 < Pow2(j) <= WORD
    ensures Pow2(j + k) <= WORD && ShlWord(WORD - Pow2(j), k) == WORD - Pow2(j + k)
    decreases k
  {
    WordIsPow2();
    Pow2Monotone(j + k, 32);
    if k == 0 {
    } else {
      Pow2Monotone(j + 1, 32);
      ShiftOnes(j + 1, k - 1);
      DoubledComplement(Pow2(j));
    }
  }

  lemma ShiftedMaskIsMask(prefix: nat)
    requires prefix <= 32
    ensures ShiftedMask(prefix) == Mask(prefix)
  {
    MaskIsWordMinus(prefix);
    WordIsPow2();
    ShiftOnes(0, 32 - prefix);
  }

  // ---------------------------------------------------------------- mask to prefix

  /** What is left of the mask after `prefix` shifts. */
  ghost predicate Shifted(msk: nat, prefix: nat, m: nat) {
    && prefix <= 32
    && 0 <= msk - Mask(prefix) < Pow2(32 - prefix)
    && m == Shl(msk - Mask(prefix), prefix)
  }

  lemma TopBit(msk: nat, prefix: nat, m: nat)
    requires Shifted(msk, prefix, m)
    ensures m >= TOP_BIT <==> prefix < 32 && msk >= Mask(prefix + 1)
  {
    WordIsPow2();
    if prefix < 32 {
      NextMask(prefix);
      ShlOne(31 - prefix, prefix);
      ShlOrder(msk - Mask(prefix), Pow2(31 - prefix), prefix);
    } else {
      ShlZero(prefix);
    }
  }

  /** Doubling a mask whose top bit is set drops that bit. */
  lemma DropTopBit(r: nat, prefix: nat, m: nat)
    requires prefix < 32 && Pow2(31 - prefix) <= r < 2 * Pow2(31 - prefix) && m == Shl(r, prefix)
    ensures m * 2 % WORD == Shl(r - Pow2(31 - prefix), prefix + 1)
  {
    var half := Pow2(31 - prefix);
    WordIsPow2();
    ShlOne(31 - prefix, prefix + 1);
    ShlAdds(r - half, half, prefix + 1);
    ShlOrder(r - half, half, prefix + 1);
  }

  lemma ShiftOnce(msk: nat, prefix: nat, m: nat)
    requires Shifted(msk, prefix, m) && m >= TOP_BIT
    ensures prefix < 32 && Shifted(msk, prefix + 1, m * 2 % WORD)
  {
    TopBit(msk, prefix, m);
    NextMask(prefix);
    DropTopBit(msk - Mask(prefix), prefix, m);
  }

  method CountPrefix(msk: uint32) returns (prefix: nat)
    ensures LeadingOnes(msk, prefix)
  {
    prefix := 0;
    var m: nat := msk;
    WordIsPow2();
    MaskIsWordMinus(0);
    while m >= TOP_BIT
      invariant Shifted(msk, prefix, m)
      decreases 32 - prefix
    {
      ShiftOnce(msk, prefix, m);
      prefix := prefix + 1;
      m := m * 2 % WORD;
    }
    TopBit(msk, prefix, m);
  }

  lemma MasksGrow(p: nat, q: nat)
    requires p < q <= 32
    ensures Mask(p) < Mask(p + 1) <= Mask(q)
  {
    NextMask(p);
    MaskIsWordMinus(p + 1);
    MaskIsWordMinus(q);
    Pow2Monotone(32 - q, 31 - p);
  }

  /** A contiguous mask has its own length as prefix, and no other. */
  lemma PrefixOfMask(p: nat, prefix: nat)
    requires p <= 32 && prefix <= 32
    ensures LeadingOnes(Mask(p), prefix) <==> prefix == p
  {
    if p < prefix {
      MasksGrow(p, prefix);
    } else if prefix < p {
      MasksGrow(prefix, p);
    } else if p < 32 {
      MasksGrow(p, p + 1);
    }
  }

  // ---------------------------------------------------------------- the network of an address

  lemma {:induction false} AndShifted(a: nat, b: nat, k: nat)
    ensures And(a, Shl(b, k)) == Shl(And(Shr(a, k), b), k)
  {
    if k == 0 {
    } else {
      AndShifted(a / 2, b, k - 1);
      AndEven(a, Shl(b, k - 1));
    }
  }

  lemma AndEven(a: nat, b: nat)
    ensures And(a, 2 * b) == 2 * And(a / 2, b)
  {
    if a > 0 && b > 0 {
      assert 2 * b / 2 == b && 2 * b % 2 == 0;
    }
  }

  lemma AndOdd(a: nat, b: nat)
    ensures And(a, 2 * b + 1) == 2 * And(a / 2, b) + a % 2
  {
    if a > 0 {
      assert (2 * b + 1) / 2 == b && (2 * b + 1) % 2 == 1;
    }
  }

  lemma {:induction false} AndOnes(a: nat, n: nat)
    requires a < Pow2(n)
    ensures And(a, Pow2(n) - 1) == a
  {
    if n == 0 {
    } else {
      AndOnes(a / 2, n - 1);
      AndOdd(a, Pow2(n - 1) - 1);
    }
  }

  /** Masking clears the host bits. */
  lemma AndMask(ip: uint32, prefix: nat)
    requires prefix <= 32
    ensures And(ip, Mask(prefix)) == Shl(Shr(ip, 32 - prefix), 32 - prefix)
    ensures Shr(ip, 32 - prefix) < Pow2(prefix)
  {
    var k := 32 - prefix;
    WordIsPow2();
    ShlOne(prefix, k);
    ShrBlock(ip, Shr(ip, k), k);
    ShlOrder(Shr(ip, k), Pow2(prefix), k);
    AndShifted(ip, Pow2(prefix) - 1, k);
    AndOnes(Shr(ip, k), prefix);
  }

  lemma BlockInside(q: nat, prefix: nat)
    requires prefix <= 32 && q < Pow2(prefix)
    ensures Shl(q, 32 - prefix) + Pow2(32 - prefix) <= WORD
  {
    WordIsPow2();
    ShlOne(prefix, 32 - prefix);
    ShlOne(0, 32 - prefix);
    ShlAdds(q, 1, 32 - prefix);
    ShlOrder(Pow2(prefix), q + 1, 32 - prefix);
  }

  lemma SameBlock(h: nat, q: nat, k: nat)
    ensures Shl(Shr(h, k), k) == Shl(q, k) <==> Shl(q, k) <= h < Shl(q, k) + Pow2(k)
  {
    ShrBlock(h, q, k);
    ShlOne(0, k);
    ShlAdds(q, 1, k);
    ShlOrder(Shr(h, k), q, k);
    ShlOrder(q, Shr(h, k), k);
  }

  /** The addresses with the network bits of `ip` are the interval of its host bits, inside 32 bits. */
  lemma NetworkInterval(ip: uint32, prefix: nat, h: uint32)
    requires prefix <= 32
    ensures var net, k := And(ip, Mask(prefix)), Pow2(32 - prefix);
      net + k <= WORD && (And(h, Mask(prefix)) == net <==> net <= h < net + k)
  {
    AndMask(ip, prefix);
    AndMask(h, prefix);
    BlockInside(Shr(ip, 32 - prefix), prefix);
    SameBlock(h, Shr(ip, 32 - prefix), 32 - prefix);
  }

  // ---------------------------------------------------------------- the hosts of a scan

  function Count(prefix: nat): int
    requires prefix <= 32
  {
    Min(Pow2(32 - prefix) - 2, MAX_HOSTS)
  }

  function Host(net: uint32, i: nat): uint32 {
    (net + i) % WORD
  }

  method ExpandCidr(net: uint32, prefix: int) returns (hosts: seq<uint32>)
    ensures !(16 <= prefix <= 30) ==> hosts == []
    ensures 16 <= prefix <= 30 ==>
      |hosts| == Count(prefix) && forall i :: 0 <= i < |hosts| ==> hosts[i] == Host(net, i + 1)
  {
    if prefix < 16 || prefix > 30 {
      return [];
    }
    Pow2Monotone(2, 32 - prefix);
    var count := Pow2(32 - prefix) - 2;
    if count > MAX_HOSTS {
      count := MAX_HOSTS;
    }
    hosts := [];
    var i := 1;
    while i <= count
      invariant 1 <= i <= count + 1 && |hosts| == i - 1
      invariant forall j :: 0 <= j < |hosts| ==> hosts[j] == Host(net, j + 1)
    {
      hosts := hosts + [Host(net, i)];
      i := i + 1;
    }
  }

  lemma {:induction false} AndBound(a: nat, b: nat)
    ensures And(a, b) <= a
  {
    if a == 0 || b == 0 {
    } else {
      AndBound(a / 2, b / 2);
    }
  }

  method DetectSubnet(ip: uint32, msk: uint32) returns (net: uint32, prefix: nat)
    ensures net == And(ip, msk) && LeadingOnes(msk, prefix)
  {
    AndBound(ip, msk);
    net := And(ip, msk);
    prefix := CountPrefix(msk);
  }

  /** In the subnet of `ip`, and neither its network nor its broadcast address. */
  ghost predicate Usable(h: uint32, ip: uint32, msk: nat) {
    And(h, msk) == And(ip, msk) && h != And(ip, msk) && h != And(ip, msk) + (WORD - 1 - msk)
  }

  ghost predicate Ascending(hosts: seq<uint32>) {
    forall i, j :: 0 <= i < j < |hosts| ==> hosts[i] < hosts[j]
  }

  /** Every usable address of the subnet of `ip`, in order, up to the 254th. */
  ghost predicate CoversSubnet(hosts: seq<uint32>, ip: uint32, p: nat)
    requires 16 <= p <= 30
  {
    && Ascending(hosts)
    && |hosts| == Count(p) && (forall i :: 0 <= i < |hosts| ==> hosts[i] == And(ip, Mask(p)) + i + 1)
    && (forall h: uint32 :: h in hosts <==> Usable(h, ip, Mask(p)) && h <= And(ip, Mask(p)) + 254)
    && (p >= 24 ==> forall h: uint32 :: h in hosts <==> Usable(h, ip, Mask(p)))
  }

  /** Any mask: nothing for a prefix outside 16 to 30, else the addresses that follow the masked one. */
  ghost predicate Follows(hosts: seq<uint32>, net: uint32, p: nat)
    requires p <= 32
  {
    if 16 <= p <= 30 then |hosts| == Count(p) && forall i :: 0 <= i < |hosts| ==> hosts[i] == Host(net, i + 1)
    else hosts == []
  }

  method ScanTargets(ip: uint32, msk: uint32) returns (hosts: seq<uint32>, ghost prefix: nat)
    ensures LeadingOnes(msk, prefix) && And(ip, msk) <= ip && Follows(hosts, And(ip, msk), prefix)
    ensures 16 <= prefix <= 30 && msk == Mask(prefix) ==> CoversSubnet(hosts, ip, prefix)
    ensures forall p :: 0 <= p <= 32 && msk == Mask(p) ==> p == prefix
  {
    var net, p := DetectSubnet(ip, msk);
    hosts := ExpandCidr(net, p);
    prefix := p;
    AndBound(ip, msk);
    forall q: nat | q <= 32 && msk == Mask(q)
      ensures q == prefix
    {
      PrefixOfMask(q, prefix);
    }
    if 16 <= prefix <= 30 && msk == Mask(prefix) {
      HostsAreUsable(ip, prefix, net, hosts);
    }
  }

  /** The usable addresses are the interval without its two ends. */
  lemma UsableInterval(ip: uint32, p: nat, h: uint32)
    requires p <= 30
    ensures Usable(h, ip, Mask(p)) <==> And(ip, Mask(p)) < h < And(ip, Mask(p)) + Pow2(32 - p) - 1
  {
    NetworkInterval(ip, p, h);
    MaskIsWordMinus(p);
  }

  lemma CountBounds(p: nat)
    requires 16 <= p <= 30
    ensures 2 <= Count(p) <= 254 && Count(p) <= Pow2(32 - p) - 2
    ensures p >= 24 ==> Count(p) == Pow2(32 - p) - 2
    ensures Count(p) == 254 || Count(p) == Pow2(32 - p) - 2
  {
    Pow2Monotone(2, 32 - p);
    assert Pow2(8) == 256;
    if p >= 24 {
      Pow2Monotone(32 - p, 8);
    }
  }

  lemma Consecutive(hosts: seq<uint32>, net: nat, h: uint32)
    requires forall i :: 0 <= i < |hosts| ==> hosts[i] == net + i + 1
    ensures h in hosts <==> net < h <= net + |hosts|
  {
    if net < h <= net + |hosts| {
      assert hosts[h - net - 1] == h;
    }
  }

  lemma NoWrap(hosts: seq<uint32>, net: uint32)
    requires net + |hosts| < WORD && forall i :: 0 <= i < |hosts| ==> hosts[i] == Host(net, i + 1)
    ensures forall i :: 0 <= i < |hosts| ==> hosts[i] == net + i + 1
  {
  }

  lemma HostsAreUsable(ip: uint32, p: nat, net: uint32, hosts: seq<uint32>)
    requires 16 <= p <= 30 && net == And(ip, Mask(p))
    requires |hosts| == Count(p) && forall i :: 0 <= i < |hosts| ==> hosts[i] == Host(net, i + 1)
    ensures CoversSubnet(hosts, ip, p)
  {
    NetworkInterval(ip, p, ip);
    CountBounds(p);
    NoWrap(hosts, net);
    forall h: uint32
      ensures h in hosts <==> Usable(h, ip, Mask(p)) && h <= net + 254
      ensures p >= 24 ==> (h in hosts <==> Usable(h, ip, Mask(p)))
    {
      UsableInterval(ip, p, h);
      Consecutive(hosts, net, h);
    }
  }
}
