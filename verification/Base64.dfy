/**
 The hand-written Base64 codec (section 4 of RFC 4648) and the framing of the stored token.

 Shifts and masks are written as quotients and remainders. The decoder's accumulator is a
 32-bit int that is never masked, so its wrap-around is written out.
 */
module Base64 {
  import opened Arithmetic
  import opened Options

  type byte = b: int | 0 <= b < 256
  type sextet = d: int | 0 <= d < 64

  /** The 64-character table, by its ranges (RFC 4648, table 1). */
  function Symbol(d: sextet): char {
    var n: int := d;
    if n < 26 then (n + 'A' as int) as char
    else if n < 52 then (n - 26 + 'a' as int) as char
    else if n < 62 then (n - 52 + '0' as int) as char
    else if n == 62 then '+' else '/'
  }

  /** The 256-entry lookup table, by its ranges; -1 outside the alphabet. */
  function Lookup(c: char): int {
    if 'A' <= c <= 'Z' then c as int - 'A' as int
    else if 'a' <= c <= 'z' then c as int - 'a' as int + 26
    else if '0' <= c <= '9' then c as int - '0' as int + 52
    else if c == '+' then 62
    else if c == '/' then 63
    else -1
  }

  predicate InAlphabet(c: char) {
    Lookup(c) != -1
  }

  const UPPER := "ABCDEFGHIJKLMNOPQRSTUVWXYZ"
  const LOWER := "abcdefghijklmnopqrstuvwxyz"
  const ALPHABET := UPPER + LOWER + "0123456789" + "+/"

  lemma UpperAt(d: nat)
    requires d < 26
    ensures UPPER[d] as int == 'A' as int + d
  {
  }

  lemma LowerAt(d: nat)
    requires d < 26
    ensures LOWER[d] as int == 'a' as int + d
  {
  }

  /** The table is the alphabet, and the lookup table gives each of its characters its place, and no other one. */
  lemma SymbolIs(d: sextet)
    ensures |ALPHABET| == 64 && Symbol(d) == ALPHABET[d]
  {
    if d < 26 {
      UpperAt(d);
    } else if d < 52 {
      LowerAt(d - 26);
    }
  }

  lemma LookupSymbol(c: char, d: sextet)
    ensures Lookup(c) == d <==> c == Symbol(d)
  {
  }

  lemma LookupIs(c: char, d: sextet)
    ensures |ALPHABET| == 64 && (Lookup(c) == d <==> c == ALPHABET[d])
    ensures Lookup(c) == -1 || 0 <= Lookup(c) < 64
  {
    SymbolIs(d);
    LookupSymbol(c, d);
  }

  /** The two tables are inverse to each other. */
  lemma TablesInverse(d: sextet)
    ensures Lookup(Symbol(d)) == d
  {
  }

  // ---------------------------------------------------------------- encoding

  // The four sextets of a group, as the code computes them from its bytes.

  function Sextet0(b0: byte): sextet {
    b0 / 4
  }

  function Sextet1(b0: byte, b1: byte): sextet {
    var x: int := b0 % 4;
    x * 16 + b1 / 16
  }

  function Sextet2(b1: byte, b2: byte): sextet {
    var x: int := b1 % 16;
    x * 4 + b2 / 64
  }

  function Sextet3(b2: byte): sextet {
    b2 % 64
  }

  /** They are the 24-bit value of the group cut into four (RFC 4648, section 4). */
  lemma SextetsCutGroup(b0: byte, b1: byte, b2: byte)
    ensures var n: int := b0 * 65536 + b1 * 256 + b2;
      && Sextet0(b0) == n / 262144
      && Sextet1(b0, b1) == n / 4096 % 64
      && Sextet2(b1, b2) == n / 64 % 64
      && Sextet3(b2) == n % 64
  {
    var x0: int, x1: int, x2: int, x3: int := Sextet0(b0), Sextet1(b0, b1), Sextet2(b1, b2), Sextet3(b2);
    var n: int := b0 * 65536 + b1 * 256 + b2;
    assert n == ((x0 * 64 + x1) * 64 + x2) * 64 + x3;
    QuotientIs(n, 262144, x0, (x1 * 64 + x2) * 64 + x3);
    QuotientIs(n, 4096, x0 * 64 + x1, x2 * 64 + x3);
    QuotientIs(n, 64, (x0 * 64 + x1) * 64 + x2, x3);
    QuotientIs(x0 * 64 + x1, 64, x0, x1);
    QuotientIs((x0 * 64 + x1) * 64 + x2, 64, x0 * 64 + x1, x2);
  }

  /** A byte of a group; a missing one counts as zero. */
  function ByteAt(bytes: seq<byte>, i: nat): byte {
    if i < |bytes| then bytes[i] else 0
  }

  /** The sextets of a group of one to three bytes that carry any of their bits. */
  function Sextets(bytes: seq<byte>): (d: seq<sextet>)
    requires 1 <= |bytes| <= 3
    ensures |d| == |bytes| + 1
  {
    var b0, b1, b2 := ByteAt(bytes, 0), ByteAt(bytes, 1), ByteAt(bytes, 2);
    [Sextet0(b0), Sextet1(b0, b1), Sextet2(b1, b2), Sextet3(b2)][..|bytes| + 1]
  }

  function Symbols(d: seq<sextet>): (s: string)
    ensures |s| == |d|
    ensures forall i :: 0 <= i < |d| ==> s[i] == Symbol(d[i])
  {
    seq(|d|, i requires 0 <= i < |d| => Symbol(d[i]))
  }

  function Padding(n: nat): (s: string)
    ensures |s| == n && forall i :: 0 <= i < n ==> s[i] == '='
  {
    seq(n, _ => '=')
  }

  /** The four characters of a group, padded for missing bytes. */
  function EncodeGroup(bytes: seq<byte>): (quad: string)
    requires 1 <= |bytes| <= 3
    ensures |quad| == 4
  {
    Symbols(Sextets(bytes)) + Padding(3 - |bytes|)
  }

  function Encode(data: seq<byte>): string {
    if |data| == 0 then ""
    else if |data| <= 3 then EncodeGroup(data)
    else EncodeGroup(data[..3]) + Encode(data[3..])
  }

  lemma GroupChars(bytes: seq<byte>, b0: byte, b1: byte, b2: byte)
    requires 1 <= |bytes| <= 3
    requires b0 == ByteAt(bytes, 0) && b1 == ByteAt(bytes, 1) && b2 == ByteAt(bytes, 2)
    ensures EncodeGroup(bytes) ==
      [Symbol(Sextet0(b0)), Symbol(Sextet1(b0, b1)),
       if |bytes| > 1 then Symbol(Sextet2(b1, b2)) else '=', if |bytes| > 2 then Symbol(Sextet3(b2)) else '=']
  {
  }

  /** The four characters at `i` are those of a group of this 24-bit value; padding for bytes that are missing. */
  ghost predicate GroupIs(text: string, i: nat, n: nat, second: bool, third: bool)
    requires n < 0x1000000
  {
    && i + 4 <= |text| && text[i] == Symbol(n / 262144) && text[i + 1] == Symbol(n / 4096 % 64)
    && text[i + 2] == (if second then Symbol(n / 64 % 64) else '=')
    && text[i + 3] == (if third then Symbol(n % 64) else '=')
  }

  function GroupValue(bytes: seq<byte>, i: nat): (n: nat)
    ensures n < 0x1000000
  {
    var n: int := ByteAt(bytes, i) * 65536 + ByteAt(bytes, i + 1) * 256 + ByteAt(bytes, i + 2); n
  }

  lemma GroupDigits(bytes: seq<byte>)
    requires 1 <= |bytes| <= 3
    ensures GroupIs(EncodeGroup(bytes), 0, GroupValue(bytes, 0), |bytes| > 1, |bytes| > 2)
  {
    var b0, b1, b2 := ByteAt(bytes, 0), ByteAt(bytes, 1), ByteAt(bytes, 2);
    GroupChars(bytes, b0, b1, b2);
    SextetsCutGroup(b0, b1, b2);
  }

  lemma GroupOfRest(data: seq<byte>, i: nat)
    requires |data| >= 3
    ensures GroupValue(data, i + 3) == GroupValue(data[3..], i)
  {
    assert forall k: nat :: ByteAt(data[3..], k) == ByteAt(data, k + 3);
  }

  /** The group of up to three bytes at `i`, and what the encoder still owes from `i` on. */
  function GroupAt(data: seq<byte>, i: nat): seq<byte>
    requires i < |data|
  {
    data[i..if i + 3 <= |data| then i + 3 else |data|]
  }

  function Owed(data: seq<byte>, i: nat): string {
    if i < |data| then Encode(data[i..]) else ""
  }

  lemma OwedStep(data: seq<byte>, i: nat)
    requires i < |data|
    ensures Owed(data, i) == EncodeGroup(GroupAt(data, i)) + Owed(data, i + 3)
  {
    if i + 3 < |data| {
      assert data[i..][..3] == GroupAt(data, i) && data[i..][3..] == data[i + 3..];
    } else {
      assert data[i..] == GroupAt(data, i);
    }
  }

  /** The bytes the loop reads, with zero past the end, are those of the group. */
  lemma GroupBytes(data: seq<byte>, i: nat, k: nat)
    requires i < |data| && k < 3
    ensures ByteAt(GroupAt(data, i), k) == ByteAt(data, i + k)
    ensures k < |GroupAt(data, i)| <==> i + k < |data|
  {
  }

  lemma AppendGroup(before: string, quad: string, rest: string, c0: char, c1: char, c2: char, c3: char)
    requires quad == [c0, c1, c2, c3]
    ensures before + (quad + rest) == before + [c0] + [c1] + [c2] + [c3] + rest
  {
  }

  /** Character `k` that the loop pushes for the group at `i`. */
  function CharAt(data: seq<byte>, i: nat, k: nat): char
    requires i < |data| && k < 4
  {
    var b0, b1, b2 := ByteAt(data, i), ByteAt(data, i + 1), ByteAt(data, i + 2);
    if k == 0 then Symbol(Sextet0(b0))
    else if k == 1 then Symbol(Sextet1(b0, b1))
    else if k == 2 then if i + 1 < |data| then Symbol(Sextet2(b1, b2)) else '='
    else if i + 2 < |data| then Symbol(Sextet3(b2)) else '='
  }

  lemma PushGroup(data: seq<byte>, i: nat, out: string, c0: char, c1: char, c2: char, c3: char)
    requires i < |data| && c0 == CharAt(data, i, 0) && c1 == CharAt(data, i, 1)
    requires c2 == CharAt(data, i, 2) && c3 == CharAt(data, i, 3)
    ensures out + Owed(data, i) == out + [c0] + [c1] + [c2] + [c3] + Owed(data, i + 3)
  {
    var group := GroupAt(data, i);
    GroupBytes(data, i, 0);
    GroupBytes(data, i, 1);
    GroupBytes(data, i, 2);
    GroupChars(group, ByteAt(data, i), ByteAt(data, i + 1), ByteAt(data, i + 2));
    OwedStep(data, i);
    AppendGroup(out, EncodeGroup(group), Owed(data, i + 3), c0, c1, c2, c3);
  }

  method B64Encode(data: seq<byte>) returns (out: string)
    ensures out == Encode(data)
  {
    out := "";
    var i := 0;
    assert data[0..] == data;
    while i < |data|
      invariant 0 <= i
      invariant Encode(data) == out + Owed(data, i)
    {
      var b0, b1, b2 := ByteAt(data, i), ByteAt(data, i + 1), ByteAt(data, i + 2);
      var c0, c1 := Symbol(Sextet0(b0)), Symbol(Sextet1(b0, b1));
      var c2 := if i + 1 < |data| then Symbol(Sextet2(b1, b2)) else '=';
      var c3 := if i + 2 < |data| then Symbol(Sextet3(b2)) else '=';
      PushGroup(data, i, out, c0, c1, c2, c3);
      out := out + [c0];
      out := out + [c1];
      out := out + [c2];
      out := out + [c3];
      i := i + 3;
    }
  }

  lemma HeadValue(data: seq<byte>)
    requires |data| > 3
    ensures GroupValue(data[..3], 0) == GroupValue(data, 0)
  {
    assert forall k: nat :: k < 3 ==> ByteAt(data[..3], k) == ByteAt(data, k);
  }

  lemma GroupStays(head: string, rest: string, n: nat, second: bool, third: bool)
    requires n < 0x1000000 && GroupIs(head, 0, n, second, third)
    ensures GroupIs(head + rest, 0, n, second, third)
  {
  }

  lemma GroupShifts(head: string, rest: string, i: nat, n: nat, second: bool, third: bool)
    requires n < 0x1000000 && |head| == 4 && GroupIs(rest, i, n, second, third)
    ensures GroupIs(head + rest, i + 4, n, second, third)
  {
  }

  /** Every four characters are the base-64 digits of three bytes (RFC 4648, section 4). */
  lemma {:induction false} EncodeDigits(data: seq<byte>, g: nat)
    requires 3 * g < |data|
    ensures GroupIs(Encode(data), 4 * g, GroupValue(data, 3 * g), 3 * g + 1 < |data|, 3 * g + 2 < |data|)
  {
    if |data| <= 3 {
      GroupDigits(data);
    } else if g == 0 {
      GroupDigits(data[..3]);
      HeadValue(data);
      GroupStays(EncodeGroup(data[..3]), Encode(data[3..]), GroupValue(data, 0), true, true);
    } else {
      EncodeDigits(data[3..], g - 1);
      GroupOfRest(data, 3 * g - 3);
      GroupShifts(EncodeGroup(data[..3]), Encode(data[3..]), 4 * g - 4, GroupValue(data, 3 * g),
        3 * g + 1 < |data|, 3 * g + 2 < |data|);
    }
  }

  /** Characters that encode `n` bytes. */
  function EncodedSize(n: int): int {
    (n + 2) / 3 * 4
  }

  lemma OneGroupMore(n: int)
    ensures EncodedSize(n + 3) == EncodedSize(n) + 4
    ensures 1 <= n <= 3 ==> EncodedSize(n) == 4
  {
  }

  lemma {:induction false} EncodeLength(data: seq<byte>)
    ensures |Encode(data)| == EncodedSize(|data|)
  {
    OneGroupMore(|data|);
    if |data| <= 3 {
    } else {
      EncodeLength(data[3..]);
      OneGroupMore(|data| - 3);
    }
  }

  /** Everything the encoder writes is an alphabet character or padding. */
  lemma {:induction false} EncodeShape(data: seq<byte>)
    ensures forall c :: c in Encode(data) ==> InAlphabet(c) || c == '='
  {
    if |data| > 3 {
      GroupShape(data[..3]);
      EncodeShape(data[3..]);
    } else if |data| > 0 {
      GroupShape(data);
    }
  }

  lemma GroupShape(bytes: seq<byte>)
    requires 1 <= |bytes| <= 3
    ensures forall c :: c in EncodeGroup(bytes) ==> InAlphabet(c) || c == '='
  {
    var d := Sextets(bytes);
    forall i | 0 <= i < |d|
      ensures InAlphabet(Symbols(d)[i])
    {
      TablesInverse(d[i]);
    }
  }

  /** Padding follows padding, or a character whose sextet is a multiple of four. */
  ghost predicate PadsAfterZeros(s: string) {
    forall i :: 0 < i < |s| && s[i] == '=' ==> s[i - 1] == '=' || Lookup(s[i - 1]) % 4 == 0
  }

  lemma LowBits(b0: byte, b1: byte)
    ensures Sextet1(b0, 0) % 4 == 0 && Sextet2(b1, 0) % 4 == 0
  {
    var x: int, y: int := b0 % 4, b1 % 16;
    assert x * 16 == 4 * (x * 4);
  }

  lemma GroupPads(bytes: seq<byte>)
    requires 1 <= |bytes| <= 3
    ensures EncodeGroup(bytes)[0] != '=' && PadsAfterZeros(EncodeGroup(bytes))
  {
    var b0, b1, b2 := ByteAt(bytes, 0), ByteAt(bytes, 1), ByteAt(bytes, 2);
    GroupChars(bytes, b0, b1, b2);
    LowBits(b0, b1);
    TablesInverse(Sextet0(b0));
    TablesInverse(Sextet1(b0, b1));
    TablesInverse(Sextet2(b1, b2));
    TablesInverse(Sextet3(b2));
  }

  lemma PadsConcat(x: string, y: string)
    requires PadsAfterZeros(x) && PadsAfterZeros(y) && (y != "" ==> y[0] != '=')
    ensures PadsAfterZeros(x + y)
  {
  }

  lemma {:induction false} EncodePads(data: seq<byte>)
    ensures PadsAfterZeros(Encode(data))
    ensures data != [] ==> Encode(data) != "" && Encode(data)[0] != '='
  {
    if |data| > 3 {
      GroupPads(data[..3]);
      EncodePads(data[3..]);
      PadsConcat(EncodeGroup(data[..3]), Encode(data[3..]));
    } else if |data| > 0 {
      GroupPads(data);
    }
  }

  // ---------------------------------------------------------------- decoding

  /** The sextets of the longest prefix inside the alphabet. */
  function Digits(s: string): seq<sextet> {
    if s == "" || !InAlphabet(s[0]) then [] else [Lookup(s[0])] + Digits(s[1..])
  }

  /** A byte lies across two neighbouring sextets of a group of four, in one of three ways. */
  datatype Slice =
    | First(hi: sextet, lo: sextet)
    | Second(hi: sextet, lo: sextet)
    | Third(hi: sextet, lo: sextet)

  function Value(x: Slice): byte {
    var hi: int, lo: int := x.hi, x.lo;
    match x
    case First(_, _) => hi * 4 + lo / 16
    case Second(_, _) => hi % 16 * 16 + lo / 4
    case Third(_, _) => hi % 4 * 64 + lo
  }

  function Values(xs: seq<Slice>): (bytes: seq<byte>)
    ensures |bytes| == |xs|
    ensures forall i :: 0 <= i < |xs| ==> bytes[i] == Value(xs[i])
  {
    seq(|xs|, i requires 0 <= i < |xs| => Value(xs[i]))
  }

  /** A full group of four sextets is three bytes; a shorter one keeps its whole bytes only. */
  function Group(d: seq<sextet>): seq<Slice> {
    if |d| < 2 then []
    else if |d| == 2 then [First(d[0], d[1])]
    else if |d| == 3 then [First(d[0], d[1]), Second(d[1], d[2])]
    else [First(d[0], d[1]), Second(d[1], d[2]), Third(d[2], d[3])]
  }

  function Slices(d: seq<sextet>): seq<Slice> {
    if |d| < 4 then Group(d) else Group(d[..4]) + Slices(d[4..])
  }

  function Decode(s: string): seq<byte> {
    Values(Slices(Digits(s)))
  }

  lemma {:induction false} DigitsOf(s: string, k: nat)
    requires k <= |s| && (forall i :: 0 <= i < k ==> InAlphabet(s[i]))
    requires k < |s| ==> !InAlphabet(s[k])
    ensures |Digits(s)| == k && forall i :: 0 <= i < k ==> Digits(s)[i] == Lookup(s[i])
  {
    if k == 0 {
    } else {
      DigitsOf(s[1..], k - 1);
    }
  }

  /** Two's complement of a 32-bit int. */
  function Wrap32(x: int): (w: int)
    ensures -0x8000_0000 <= w < 0x8000_0000
  {
    (x + 0x8000_0000) % 0x1_0000_0000 - 0x8000_0000
  }

  /** Wrapping never reaches the low twelve bits, the only ones the decoder reads. */
  lemma WrapKeepsLowBits(x: int)
    ensures Wrap32(x) % 4096 == x % 4096
    ensures Wrap32(x) % 64 == x % 64
  {
    var q := (x + 0x8000_0000) / 0x1_0000_0000;
    assert Wrap32(x) == x - q * 0x1_0000_0000;
    QuotientIs(Wrap32(x), 4096, x / 4096 - q * 1048576, x % 4096);
    QuotientIs(Wrap32(x), 64, x / 64 - q * 67108864, x % 64);
  }

  /** The twelve bits of two sextets. */
  function Twelve(hi: int, lo: int): int {
    hi * 64 + lo
  }

  /** val >> bits, for the shifts the decoder makes. */
  function ShiftRight(val: int, bits: int): int
    requires bits == 0 || bits == 2 || bits == 4
  {
    val / (if bits == 4 then 16 else if bits == 2 then 4 else 1)
  }

  /** The byte read from an accumulator whose low twelve bits are two sextets. */
  lemma ReadByte(val: int, hi: sextet, lo: sextet)
    requires val % 4096 == Twelve(hi, lo)
    ensures ShiftRight(val, 4) % 256 == Value(First(hi, lo))
    ensures ShiftRight(val, 2) % 256 == Value(Second(hi, lo))
    ensures ShiftRight(val, 0) % 256 == Value(Third(hi, lo))
  {
    var q := val / 4096;
    assert val == q * 4096 + hi * 64 + lo;
    QuotientIs(val, 16, q * 256 + hi * 4 + lo / 16, lo % 16);
    QuotientIs(q * 256 + hi * 4 + lo / 16, 256, q, hi * 4 + lo / 16);
    QuotientIs(val, 4, q * 1024 + hi * 16 + lo / 4, lo % 4);
    QuotientIs(q * 1024 + hi * 16 + lo / 4, 256, q * 4 + hi / 16, hi % 16 * 16 + lo / 4);
    QuotientIs(val, 256, q * 16 + hi / 4, hi % 4 * 64 + lo);
  }

  /** Adding a sextet to an accumulator that ends in the previous one. */
  lemma PushSextet(val: int, hi: int, lo: sextet)
    requires 0 <= hi < 64 && val % 64 == hi
    ensures (val * 64 + lo) % 4096 == Twelve(hi, lo)
    ensures (val * 64 + lo) % 64 == lo
  {
    var q := val / 64;
    QuotientIs(val * 64 + lo, 4096, q, hi * 64 + lo);
    QuotientIs(val * 64 + lo, 64, val, lo);
  }

  /** The byte a further sextet completes, if any: none after a multiple of four. */
  function Completed(phase: nat, last: sextet, c: sextet): seq<Slice> {
    if phase == 1 then [First(last, c)]
    else if phase == 2 then [Second(last, c)]
    else if phase == 3 then [Third(last, c)]
    else []
  }

  function LastOr0(d: seq<sextet>): sextet {
    if d == [] then 0 else d[|d| - 1]
  }

  lemma PhaseOf(i: nat)
    ensures (i + 4) % 4 == i % 4
    ensures (i + 1) % 4 == if i % 4 == 3 then 0 else i % 4 + 1
  {
  }

  lemma GrowGroup(d: seq<sextet>, c: sextet)
    requires |d| < 4
    ensures Group(d + [c]) == Group(d) + Completed(|d|, LastOr0(d), c)
  {
  }

  lemma OneGroup(d: seq<sextet>)
    requires |d| <= 4
    ensures Slices(d) == Group(d)
  {
    if |d| == 4 {
      assert d[..4] == d && d[4..] == [] && Slices([]) == [];
    }
  }

  lemma {:induction false} OneMore(d: seq<sextet>, c: sextet)
    ensures Slices(d + [c]) == Slices(d) + Completed(|d| % 4, LastOr0(d), c)
  {
    if |d| >= 4 {
      OneMore(d[4..], c);
      assert (d + [c])[4..] == d[4..] + [c] && (d + [c])[..4] == d[..4];
      PhaseOf(|d| - 4);
    } else {
      GrowGroup(d, c);
      OneGroup(d + [c]);
    }
  }

  /** The bit counter of the decoder after `phase` sextets of a group. */
  function BitsAt(phase: nat): int {
    if phase == 0 then -8 else if phase == 1 then -2 else if phase == 2 then -4 else -6
  }

  lemma ReadCompleted(v: int, phase: nat, last: sextet, c: sextet)
    requires phase < 4 && v % 4096 == Twelve(last, c)
    ensures var bits := BitsAt(phase) + 6;
      Values(Completed(phase, last, c)) == if bits >= 0 then [ShiftRight(v, bits) % 256] else []
  {
    ReadByte(v, last, c);
  }

  lemma ValuesConcat(x: seq<Slice>, y: seq<Slice>)
    ensures Values(x + y) == Values(x) + Values(y)
  {
  }

  /** What the wrapping accumulator keeps of its history: the last two sextets. */
  lemma Accumulate(val: int, last: sextet, c: sextet)
    requires val % 64 == last
    ensures Wrap32(val * 64 + c) % 4096 == Twelve(last, c) && Wrap32(val * 64 + c) % 64 == c
  {
    WrapKeepsLowBits(val * 64 + c);
    PushSextet(val, last, c);
  }

  /** One turn of the decoder: the byte that comes out, if any, is the one the further sextet completes. */
  lemma DecodeTurn(v: int, d: seq<sextet>, c: sextet, phase: nat)
    requires v % 4096 == Twelve(LastOr0(d), c) && phase == |d| % 4
    ensures var bits := BitsAt(phase) + 6;
      Values(Slices(d + [c])) == Values(Slices(d)) + (if bits >= 0 then [ShiftRight(v, bits) % 256] else [])
  {
    OneMore(d, c);
    ReadCompleted(v, phase, LastOr0(d), c);
    ValuesConcat(Slices(d), Completed(phase, LastOr0(d), c));
  }

  method B64Decode(input: string) returns (out: seq<byte>)
    ensures out == Decode(input)
  {
    out := [];
    var val, bits := 0, -8;
    var i := 0;
    ghost var d: seq<sextet> := [];
    ghost var phase := 0;
    while i < |input| && InAlphabet(input[i])
      invariant i == |d| <= |input| && phase == i % 4
      invariant forall j :: 0 <= j < i ==> InAlphabet(input[j]) && d[j] == Lookup(input[j])
      invariant out == Values(Slices(d)) && bits == BitsAt(phase)
      invariant val % 64 == LastOr0(d)
    {
      var c := Lookup(input[i]);
      Accumulate(val, LastOr0(d), c);
      val := Wrap32(val * 64 + c);
      DecodeTurn(val, d, c, phase);
      bits := bits + 6;
      if bits >= 0 {
        out := out + [ShiftRight(val, bits) % 256];
        bits := bits - 8;
      }
      d := d + [c];
      PhaseOf(i);
      phase := if phase == 3 then 0 else phase + 1;
      i := i + 1;
    }
    DigitsOf(input, i);
    assert d == Digits(input);
  }

  lemma {:induction false} SlicesLength(d: seq<sextet>)
    ensures |Slices(d)| == 3 * |d| / 4
  {
    if |d| < 4 {
    } else {
      SlicesLength(d[4..]);
    }
  }

  /** For an alphabet prefix of length k the decoder returns floor(3k/4) bytes. */
  lemma DecodeLength(s: string, k: nat)
    requires k <= |s| && (forall i :: 0 <= i < k ==> InAlphabet(s[i]))
    requires k < |s| ==> !InAlphabet(s[k])
    ensures |Decode(s)| == 3 * k / 4
  {
    DigitsOf(s, k);
    SlicesLength(Digits(s));
  }

  /** The three bytes of a group come back from its sextets. */
  lemma BytesFromSextets(b0: byte, b1: byte, b2: byte)
    ensures Value(First(Sextet0(b0), Sextet1(b0, b1))) == b0
    ensures Value(Second(Sextet1(b0, b1), Sextet2(b1, b2))) == b1
    ensures Value(Third(Sextet2(b1, b2), Sextet3(b2))) == b2
  {
    QuotientIs(Sextet1(b0, b1), 16, b0 % 4, b1 / 16);
    QuotientIs(Sextet2(b1, b2), 4, b1 % 16, b2 / 64);
  }

  lemma DigitsHead(d: sextet, rest: string)
    ensures Digits([Symbol(d)] + rest) == [d] + Digits(rest)
  {
    TablesInverse(d);
    assert ([Symbol(d)] + rest)[1..] == rest;
  }

  lemma SymbolsHead(d: seq<sextet>, rest: string)
    requires d != []
    ensures Symbols(d) + rest == [Symbol(d[0])] + (Symbols(d[1..]) + rest)
  {
    assert Symbols(d) == [Symbol(d[0])] + Symbols(d[1..]);
  }

  lemma {:induction false} DigitsOfSymbols(d: seq<sextet>, rest: string)
    ensures Digits(Symbols(d) + rest) == d + Digits(rest)
  {
    if d == [] {
      assert Symbols(d) + rest == rest;
    } else {
      SymbolsHead(d, rest);
      DigitsHead(d[0], Symbols(d[1..]) + rest);
      DigitsOfSymbols(d[1..], rest);
      assert d == [d[0]] + d[1..];
    }
  }

  /** Decoding undoes encoding on every byte string. */
  lemma {:induction false} RoundTrip(data: seq<byte>)
    ensures Decode(Encode(data)) == data
  {
    if |data| > 3 {
      var rest := Encode(data[3..]);
      RoundTrip(data[3..]);
      GroupRoundTrip(data[..3], rest);
      assert data == data[..3] + data[3..];
    } else if |data| > 0 {
      GroupRoundTrip(data, "");
      assert EncodeGroup(data) + "" == EncodeGroup(data);
    }
  }

  lemma GroupRoundTrip(bytes: seq<byte>, rest: string)
    requires 1 <= |bytes| <= 3 && (|bytes| < 3 ==> rest == "")
    ensures Decode(EncodeGroup(bytes) + rest) == bytes + Decode(rest)
  {
    var d, tail := Sextets(bytes), Padding(3 - |bytes|) + rest;
    assert EncodeGroup(bytes) + rest == Symbols(d) + tail;
    DigitsOfSymbols(d, tail);
    DecodeSextets(bytes);
    if |bytes| == 3 {
      assert tail == rest;
      assert (d + Digits(rest))[4..] == Digits(rest);
    } else {
      assert d + [] == d;
    }
  }

  lemma DecodeSextets(bytes: seq<byte>)
    requires 1 <= |bytes| <= 3
    ensures Values(Slices(Sextets(bytes))) == bytes
  {
    var d := Sextets(bytes);
    BytesFromSextets(ByteAt(bytes, 0), ByteAt(bytes, 1), ByteAt(bytes, 2));
    assert |bytes| == 3 ==> d[4..] == [];
  }

  // ---------------------------------------------------------------- token framing

  /** Base64 of the 16-byte IV followed by the ciphertext; the empty token is stored as is. */
  function EncryptToken(plain: seq<byte>, iv: seq<byte>, seal: (seq<byte>, seq<byte>) -> seq<byte>): string {
    if plain == [] then "" else Encode(iv + seal(iv, plain))
  }

  /** Anything that does not decode to an IV and at least one more byte, or does not decrypt, reads as empty. */
  function DecryptToken(text: string, unseal: (seq<byte>, seq<byte>) -> Option<seq<byte>>): seq<byte> {
    if text == "" then []
    else
      var combined := Decode(text);
      if |combined| < 17 then []
      else
        match unseal(combined[..16], combined[16..])
        case None => []
        case Some(plain) => plain
  }

  /** What is stored decodes to the IV, in the first 16 bytes, and the sealed token behind it. */
  lemma TokenLayout(plain: seq<byte>, iv: seq<byte>, seal: (seq<byte>, seq<byte>) -> seq<byte>)
    requires |iv| == 16
    ensures plain == [] ==> EncryptToken(plain, iv, seal) == ""
    ensures plain != [] ==>
      var stored := Decode(EncryptToken(plain, iv, seal));
      |stored| == 16 + |seal(iv, plain)| && stored[..16] == iv && stored[16..] == seal(iv, plain)
  {
    RoundTrip(iv + seal(iv, plain));
  }

  /** Text too short for an IV and a byte more reads as no token, and so does what the cipher cannot open. */
  lemma BadTokenIsEmpty(text: string, unseal: (seq<byte>, seq<byte>) -> Option<seq<byte>>)
    ensures |Decode(text)| <= 16 ==> DecryptToken(text, unseal) == []
    ensures |Decode(text)| > 16 && unseal(Decode(text)[..16], Decode(text)[16..]) == None ==>
      DecryptToken(text, unseal) == []
  {
  }

  /** Reading back a stored token gives the token, for any cipher that undoes itself. */
  lemma TokenRoundTrip(plain: seq<byte>, iv: seq<byte>,
                       seal: (seq<byte>, seq<byte>) -> seq<byte>,
                       unseal: (seq<byte>, seq<byte>) -> Option<seq<byte>>)
    requires |iv| == 16 && |seal(iv, plain)| >= 1
    requires unseal(iv, seal(iv, plain)) == Some(plain)
    ensures DecryptToken(EncryptToken(plain, iv, seal), unseal) == plain
  {
    var combined := iv + seal(iv, plain);
    RoundTrip(combined);
    EncodeLength(combined);
    assert combined[..16] == iv && combined[16..] == seal(iv, plain);
  }
}
