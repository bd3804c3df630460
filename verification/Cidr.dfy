/**
 Trusted peers: matching an IPv4 address against a network prefix with JavaScript's 32-bit operators, and what that
 comes to in arithmetic (section 3.1 of RFC 4632). Reading a number from text is a parameter.
 */
module Cidr {

  import opened Options
  import opened Strings

  function Pow2(n: nat): (p: nat)
    ensures p >= 1
  {
    if n == 0 then 1 else 2 * Pow2(n - 1)
  }

  const WORD := 0x1_0000_0000

  // ---------- 32-bit operators ----------

  function ToUint32(x: int): nat { x % WORD }

  function ToInt32(x: int): int { if ToUint32(x) < WORD / 2 then ToUint32(x) else ToUint32(x) - WORD }

  /** `a << b`: the shift count is taken modulo 32, the result is signed. */
  function Shl(a: int, b: int): int { ToInt32(ToInt32(a) * Pow2(ToUint32(b) % 32)) }

  function BitAnd(a: nat, b: nat): nat
  {
    if a == 0 || b == 0 then 0 else 2 * BitAnd(a / 2, b / 2) + (if a % 2 == 1 && b % 2 == 1 then 1 else 0)
  }

  function BitOr(a: nat, b: nat): nat
  {
    if a == 0 then b else if b == 0 then a else 2 * BitOr(a / 2, b / 2) + (if a % 2 == 1 || b % 2 == 1 then 1 else 0)
  }

  function And(a: int, b: int): int { ToInt32(BitAnd(ToUint32(a), ToUint32(b))) }

  function Or(a: int, b: int): int { ToInt32(BitOr(ToUint32(a), ToUint32(b))) }

  function Not(a: int): int { -ToInt32(a) - 1 }

  /** `a >>> 0`. */
  function Unsigned(a: int): nat { ToUint32(a) }

  // ---------- matching ----------

  type Octets = s: seq<int> | |s| == 4 witness [0, 0, 0, 0]

  predicate IsValidOctet(value: Option<int>) { value.Some? && 0 <= value.value <= 255 }

  function Packed(o: Octets): nat
  {
    Unsigned(Or(Or(Or(Shl(o[0], 24), Shl(o[1], 16)), Shl(o[2], 8)), o[3]))
  }

  function Mask(prefix: nat): nat { if prefix == 0 then 0 else Unsigned(Shl(Not(0), 32 - prefix)) }

  predicate InNetwork(peer: Octets, network: Octets, prefix: nat)
  {
    And(Packed(peer), Mask(prefix)) == And(Packed(network), Mask(prefix))
  }

  /** How numbers are read: an integer, or something else. */
  datatype Reader = Reader(number: string -> Option<int>, parseInt: string -> Option<int>)

  predicate AllOctets(reader: Reader, parts: seq<string>)
  {
    |parts| == 4 && forall k :: 0 <= k < 4 ==> IsValidOctet(reader.number(parts[k]))
  }

  function OctetsOf(reader: Reader, parts: seq<string>): Octets
    requires AllOctets(reader, parts)
  {
    [reader.number(parts[0]).value, reader.number(parts[1]).value,
     reader.number(parts[2]).value, reader.number(parts[3]).value]
  }

  predicate MatchesIp(reader: Reader, address: string, pattern: string)
  {
    if address == pattern then true
    else if '/' in pattern then
      var parts := Split(pattern, '/');
      if |parts| < 2 || parts[0] == "" || parts[1] == "" then false
      else
        match reader.parseInt(parts[1])
        case None => false
        case Some(prefix) =>
          if prefix < 0 || prefix > 32 then false
          else
            var peerParts, networkParts := Split(address, '.'), Split(parts[0], '.');
            AllOctets(reader, peerParts) && AllOctets(reader, networkParts) &&
            InNetwork(OctetsOf(reader, peerParts), OctetsOf(reader, networkParts), prefix)
    else false
  }

  // ---------- arithmetic ----------

  predicate Valid(o: Octets) { forall k :: 0 <= k < 4 ==> 0 <= o[k] <= 255 }

  /** The address as a number, most significant octet first. */
  function Address(o: Octets): int { ((o[0] * 256 + o[1]) * 256 + o[2]) * 256 + o[3] }

  /** Dropping the `32 - prefix` low bits. */
  function Block(address: int, prefix: nat): int
    requires prefix <= 32
  {
    address / Pow2(32 - prefix)
  }

  lemma Doubled(n: nat)
    requires n > 0
    ensures Pow2(n) == 2 * Pow2(n - 1)
  {}

  lemma DoubledProduct(q: int, d: int)
    ensures q * (2 * d) == 2 * (q * d)
  {}

  /** One bit of an or whose first operand is even. */
  lemma OrOfEven(a: nat, b: nat)
    ensures BitOr(2 * a, b) == 2 * BitOr(a, b / 2) + b % 2
  {
    EvenHalves(a);
  }

  /** Bits that do not overlap add up. */
  lemma {:induction false} OrOfDisjoint(high: nat, low: nat, n: nat)
    requires low < Pow2(n)
    ensures high * Pow2(n) >= 0 && BitOr(high * Pow2(n), low) == high * Pow2(n) + low
  {
    if n > 0 {
      hide Pow2, BitOr;
      Doubled(n);
      OrOfDisjoint(high, low / 2, n - 1);
      DoubledProduct(high, Pow2(n - 1));
      OrOfEven(high * Pow2(n - 1), low);
    } else {
      assert high * Pow2(0) == high;
    }
  }

  /** And with all of the low `n` bits. */
  lemma {:induction false} AndWithOnes(a: nat, n: nat)
    requires a < Pow2(n)
    ensures BitAnd(a, Pow2(n) - 1) == a
  {
    if n == 0 {
    } else {
      assert (Pow2(n) - 1) / 2 == Pow2(n - 1) - 1;
      AndWithOnes(a / 2, n - 1);
    }
  }

  // Dropping low bits one at a time; division by a power of two, without the division.

  function Quotient(a: nat, k: nat): nat { if k == 0 then a else Quotient(a / 2, k - 1) }

  function Remainder(a: nat, k: nat): nat { if k == 0 then 0 else 2 * Remainder(a / 2, k - 1) + a % 2 }

  lemma {:induction false} QuotientAndRemainder(a: nat, k: nat)
    ensures a == Quotient(a, k) * Pow2(k) + Remainder(a, k) && Remainder(a, k) < Pow2(k)
  {
    if k == 0 {
    } else {
      QuotientAndRemainder(a / 2, k - 1);
      Doubled(k);
      hide Pow2;
      DoubledProduct(Quotient(a / 2, k - 1), Pow2(k - 1));
    }
  }

  /** And with the high bits only takes the low ones off. */
  lemma {:induction false} AndWithMask(a: nat, n: nat, k: nat)
    requires a < Pow2(n) && k <= n
    ensures Pow2(k) <= Pow2(n) && BitAnd(a, Pow2(n) - Pow2(k)) == Quotient(a, k) * Pow2(k)
  {
    if k == 0 {
      AndWithOnes(a, n);
    } else {
      hide Pow2;
      Doubled(n);
      Doubled(k);
      AndWithMask(a / 2, n - 1, k - 1);
      AndOfEven(a, Pow2(n - 1) - Pow2(k - 1));
      DoubledProduct(Quotient(a, k), Pow2(k - 1));
    }
  }

  lemma EvenHalves(b: nat)
    ensures 2 * b / 2 == b && 2 * b % 2 == 0
  {}

  lemma AndOfEven(a: nat, b: nat)
    ensures BitAnd(a, 2 * b) == 2 * BitAnd(a / 2, b)
  {
    EvenHalves(b);
    if a == 0 || b == 0 {
      assert BitAnd(a, 2 * b) == 0 && BitAnd(a / 2, b) == 0;
    } else {
      assert BitAnd(a, 2 * b) == 2 * BitAnd(a / 2, 2 * b / 2);
    }
  }

  lemma MulAtLeast(e: int, d: int)
    requires e >= 1 && d > 0
    ensures e * d >= d
  {}

  lemma DivMod(a: int, d: int)
    requires d > 0
    ensures a == a / d * d + a % d && 0 <= a % d < d
  {}

  lemma NoSmallMultiple(e: int, d: int, s: int)
    requires d > 0 && e * d == s && -d < s < d
    ensures e == 0
  {
    if e >= 1 { MulAtLeast(e, d); }
    assert (-e) * d == -(e * d);
    if e <= -1 { MulAtLeast(-e, d); }
  }

  lemma QuotientIs(a: int, d: int, q: int, r: int)
    requires d > 0 && a == q * d + r && 0 <= r < d
    ensures a / d == q
  {
    DivMod(a, d);
    var p := a / d;
    Difference(q, p, d);
    NoSmallMultiple(q - p, d, a % d - r);
  }

  lemma BlockIsQuotient(a: nat, prefix: nat)
    requires prefix <= 32
    ensures Block(a, prefix) == Quotient(a, 32 - prefix)
  {
    QuotientAndRemainder(a, 32 - prefix);
    QuotientIs(a, Pow2(32 - prefix), Quotient(a, 32 - prefix), Remainder(a, 32 - prefix));
  }

  // ---------- the operators compute the arithmetic ----------

  lemma Powers()
    ensures Pow2(8) == 0x100 && Pow2(16) == 0x1_0000 && Pow2(24) == 0x100_0000 && Pow2(32) == WORD
  {
    PowersAdd(8, 8);
    PowersAdd(8, 16);
    PowersAdd(16, 16);
    assert Pow2(4) == 16;
    PowersAdd(4, 4);
  }

  lemma {:induction false} PowersAdd(m: nat, n: nat)
    ensures Pow2(m + n) == Pow2(m) * Pow2(n)
  {
    if m == 0 {} else { PowersAdd(m - 1, n); }
  }

  lemma SignKeepsBits(x: int)
    ensures ToUint32(ToInt32(x)) == ToUint32(x)
  {}

  /** A small number shifted within the word, seen as unsigned. */
  lemma ShiftedOctet(a: int, n: nat, d: int, product: int)
    requires 0 <= a <= 255 && n < 32 && d == Pow2(n) && product == a * d && 0 <= product < WORD
    ensures ToUint32(Shl(a, n)) == product
  {
    assert ToInt32(a) == a && ToUint32(n) % 32 == n;
    hide ToInt32, ToUint32, Pow2;
    SignKeepsBits(product);
    SmallIsUnsigned(product);
  }

  /** Or of two words that do not overlap, seen as unsigned. */
  lemma OrAdds(x: int, y: int, high: nat, low: nat, n: nat, d: nat)
    requires ToUint32(x) == high * d && ToUint32(y) == low && low < d == Pow2(n) && high * d + low < WORD
    ensures ToUint32(Or(x, y)) == high * d + low
  {
    hide ToUint32, ToInt32, Pow2, BitOr;
    OrOfDisjoint(high, low, n);
    SignKeepsBits(high * d + low);
    SmallIsUnsigned(high * d + low);
  }

  lemma SmallIsUnsigned(x: int)
    requires 0 <= x < WORD
    ensures ToUint32(x) == x
  {}

  /** The signed shifts and ors put the four octets together. */
  lemma PackedIsAddress(o: Octets)
    requires Valid(o)
    ensures Packed(o) == Address(o) && 0 <= Address(o) < WORD
  {
    hide Pow2, Or, Shl, ToUint32;
    Powers();
    ShiftedOctet(o[0], 24, 0x100_0000, o[0] * 0x100_0000);
    ShiftedOctet(o[1], 16, 0x1_0000, o[1] * 0x1_0000);
    ShiftedOctet(o[2], 8, 0x100, o[2] * 0x100);
    SmallIsUnsigned(o[3]);
    var first, second, third := Shl(o[0], 24), Shl(o[1], 16), Shl(o[2], 8);
    OrAdds(first, second, o[0], o[1] * 0x1_0000, 24, 0x100_0000);
    OrAdds(Or(first, second), third, o[0] * 256 + o[1], o[2] * 0x100, 16, 0x1_0000);
    OrAdds(Or(Or(first, second), third), o[3], (o[0] * 256 + o[1]) * 256 + o[2], o[3], 8, 0x100);
  }

  lemma MinusBlock(d: int)
    requires 1 <= d <= WORD / 2
    ensures ToUint32(-d) == WORD - d
  {}

  lemma {:induction false} PowersGrow(m: nat, n: nat)
    requires m <= n
    ensures Pow2(m) <= Pow2(n)
  {
    if m < n { PowersGrow(m, n - 1); }
  }

  lemma MaskIsHighBits(prefix: nat)
    requires prefix <= 32
    ensures Pow2(32 - prefix) <= WORD && Mask(prefix) == WORD - Pow2(32 - prefix)
  {
    Powers();
    Doubled(32);
    PowersGrow(32 - prefix, if prefix == 0 then 32 else 31);
    hide Pow2;
    if prefix > 0 {
      ShiftedOnes(32 - prefix, Pow2(32 - prefix));
      MinusBlock(Pow2(32 - prefix));
    }
  }

  lemma OnesAreMinusOne()
    ensures ToInt32(Not(0)) == -1
  {}

  lemma MinusOneTimes(d: int)
    ensures -1 * d == -d
  {}

  lemma ShiftedOnes(n: nat, d: int)
    requires n < 32 && d == Pow2(n)
    ensures Unsigned(Shl(Not(0), n)) == ToUint32(-d)
  {
    SmallIsUnsigned(n);
    assert n % 32 == n;
    OnesAreMinusOne();
    hide ToInt32, ToUint32, Pow2, Not;
    MinusOneTimes(d);
    assert Shl(Not(0), n) == ToInt32(-1 * d);
    SignKeepsBits(-d);
  }

  /** A shift by 32 is a shift by 0: without its own case, prefix 0 would admit one address instead of all. */
  lemma MaskNeedsItsZeroCase()
    ensures Unsigned(Shl(Not(0), 32)) == WORD - 1 && Mask(0) == 0
  {
    assert Pow2(0) == 1 && ToUint32(32) % 32 == 0;
    hide Pow2;
    assert Shl(Not(0), 32) == ToInt32(-1);
  }

  /** For valid octets the code decides equality of the leading bits. */
  lemma NetworkIsBlock(peer: Octets, network: Octets, prefix: nat)
    requires Valid(peer) && Valid(network) && prefix <= 32
    ensures InNetwork(peer, network, prefix) <==> Block(Address(peer), prefix) == Block(Address(network), prefix)
  {
    hide Packed, Mask, Block, Pow2, BitAnd, Quotient, Address, ToInt32;
    Masked(peer, prefix);
    Masked(network, prefix);
    var p, n, d := Block(Address(peer), prefix), Block(Address(network), prefix), Pow2(32 - prefix);
    if ToInt32(p * d) == ToInt32(n * d) { SignIsInjective(p * d, n * d); }
    Difference(p, n, d);
    if p * d == n * d { NoSmallMultiple(p - n, d, 0); }
  }

  lemma SignIsInjective(x: int, y: int)
    requires 0 <= x < WORD && 0 <= y < WORD && ToInt32(x) == ToInt32(y)
    ensures x == y
  {}

  /** Masking leaves the block number, shifted back. */
  lemma Masked(o: Octets, prefix: nat)
    requires Valid(o) && prefix <= 32
    ensures var masked := Block(Address(o), prefix) * Pow2(32 - prefix);
      0 <= masked < WORD && And(Packed(o), Mask(prefix)) == ToInt32(masked)
  {
    hide BitAnd, Packed, Mask, Block, Quotient, Address, Pow2, ToUint32, ToInt32;
    PackedIsAddress(o);
    MaskIsHighBits(prefix);
    Powers();
    var a: nat, k := Address(o), 32 - prefix;
    SmallIsUnsigned(a);
    SmallIsUnsigned(Mask(prefix));
    AndWithMask(a, 32, k);
    BlockIsQuotient(a, prefix);
    QuotientAndRemainder(a, k);
  }

  // ---------- consequences ----------

  /** A match under a longer prefix is a match under every shorter one. */
  lemma LongerPrefixImpliesShorter(peer: Octets, network: Octets, longer: nat, shorter: nat)
    requires Valid(peer) && Valid(network) && shorter <= longer <= 32
    ensures InNetwork(peer, network, longer) ==> InNetwork(peer, network, shorter)
  {
    hide InNetwork, Address, Quotient;
    NetworkIsBlock(peer, network, longer);
    NetworkIsBlock(peer, network, shorter);
    PackedIsAddress(peer);
    PackedIsAddress(network);
    BlockOfBlock(Address(peer), longer, shorter);
    BlockOfBlock(Address(network), longer, shorter);
  }

  /** Of two networks, the one with the longer prefix lies within the other or apart from it. */
  lemma NetworksNestOrAreDisjoint(x: Octets, y: Octets, outer: Octets, inner: Octets, shorter: nat, longer: nat)
    requires Valid(x) && Valid(y) && Valid(outer) && Valid(inner) && shorter <= longer <= 32
    ensures InNetwork(x, inner, longer) && InNetwork(y, inner, longer) ==>
      (InNetwork(x, outer, shorter) <==> InNetwork(y, outer, shorter))
  {
    LongerPrefixImpliesShorter(x, inner, longer, shorter);
    LongerPrefixImpliesShorter(y, inner, longer, shorter);
  }

  lemma BlockOfBlock(a: nat, longer: nat, shorter: nat)
    requires shorter <= longer <= 32
    ensures Block(a, longer) >= 0 && Block(a, shorter) == Quotient(Block(a, longer), longer - shorter)
  {
    BlockIsQuotient(a, longer);
    BlockIsQuotient(a, shorter);
    QuotientOfQuotient(a, 32 - longer, longer - shorter);
  }

  lemma {:induction false} QuotientOfQuotient(a: nat, k: nat, j: nat)
    ensures Quotient(Quotient(a, k), j) == Quotient(a, k + j)
  {
    if k == 0 {} else { QuotientOfQuotient(a / 2, k - 1, j); }
  }

  /** The first address of a network. */
  function Base(network: Octets, prefix: nat): int
    requires prefix <= 32
  {
    Block(Address(network), prefix) * Pow2(32 - prefix)
  }

  /** A network is one block of `2^(32 - prefix)` consecutive addresses, aligned to its size. */
  lemma NetworkIsInterval(peer: Octets, network: Octets, prefix: nat)
    requires Valid(peer) && Valid(network) && prefix <= 32
    ensures var base, size := Base(network, prefix), Pow2(32 - prefix);
      InNetwork(peer, network, prefix) <==> base <= Address(peer) < base + size
  {
    hide InNetwork, Pow2, Address;
    var size := Pow2(32 - prefix);
    NetworkIsBlock(peer, network, prefix);
    DivMod(Address(peer), size);
    var p, n := Block(Address(peer), prefix), Block(Address(network), prefix);
    Difference(p, n, size);
    if Base(network, prefix) <= Address(peer) < Base(network, prefix) + size {
      NoSmallMultiple(p - n, size, (p - n) * size);
    }
  }

  /** It lies within the address space, so every number in it is an address. */
  lemma NetworkIsWithinBounds(network: Octets, prefix: nat)
    requires Valid(network) && prefix <= 32
    ensures 0 <= Base(network, prefix) && Base(network, prefix) + Pow2(32 - prefix) <= WORD
  {
    hide Pow2, Address, Block;
    var size, others := Pow2(32 - prefix), Pow2(prefix);
    Powers();
    PowersAdd(prefix, 32 - prefix);
    PackedIsAddress(network);
    BlockStart(Address(network), prefix);
    var n := Block(Address(network), prefix);
    Difference(others, n, size);
    PositiveFactor(others - n, size);
  }

  lemma Difference(p: int, q: int, d: int)
    ensures (p - q) * d == p * d - q * d
  {}

  lemma PositiveFactor(e: int, d: int)
    requires d > 0 && e * d > 0
    ensures e * d >= d
  {
    assert (-e) * d == -(e * d);
    if e < 0 { MulAtLeast(-e, d); } else if e > 0 { MulAtLeast(e, d); }
  }

  lemma BlockStart(a: nat, prefix: nat)
    requires prefix <= 32
    ensures Block(a, prefix) >= 0 && 0 <= Block(a, prefix) * Pow2(32 - prefix) <= a
  {
    hide Pow2, Block;
    BlockIsQuotient(a, prefix);
    QuotientAndRemainder(a, 32 - prefix);
    ProductIsNonNegative(Block(a, prefix), Pow2(32 - prefix));
  }

  lemma ProductIsNonNegative(q: nat, d: nat)
    ensures q * d >= 0
  {}

  function OctetsOfAddress(a: nat): Octets
  {
    [a / 256 / 256 / 256, a / 256 / 256 % 256, a / 256 % 256, a % 256]
  }

  lemma Digit(q: int, r: int)
    requires 0 <= r <= 255
    ensures (q * 256 + r) / 256 == q && (q * 256 + r) % 256 == r
  {}

  lemma Digits(a: int)
    ensures a == a / 256 * 256 + a % 256 && 0 <= a % 256 <= 255
  {}

  /** Octets and numbers below `2^32` correspond one to one. */
  lemma AddressesAreNumbers(a: nat, o: Octets)
    ensures a < WORD ==> Valid(OctetsOfAddress(a)) && Address(OctetsOfAddress(a)) == a
    ensures Valid(o) ==> OctetsOfAddress(Address(o)) == o
  {
    Digits(a);
    Digits(a / 256);
    Digits(a / 256 / 256);
    if Valid(o) { OctetsComeBack(o); }
  }

  lemma OctetsComeBack(o: Octets)
    requires Valid(o)
    ensures Address(o) >= 0 && OctetsOfAddress(Address(o)) == o
  {
    var b, c := o[0] * 256 + o[1], (o[0] * 256 + o[1]) * 256 + o[2];
    Digit(c, o[3]);
    Digit(b, o[2]);
    Digit(o[0], o[1]);
  }

  // ---------- texts ----------

  lemma OctetsAreValid(reader: Reader, parts: seq<string>)
    requires AllOctets(reader, parts)
    ensures Valid(OctetsOf(reader, parts))
  {
    assert forall k :: 0 <= k < 4 ==> IsValidOctet(reader.number(parts[k]));
  }

  /** Exactly four numbers from 0 to 255 are an address, and they are its octets. */
  lemma OctetsSpelled(reader: Reader, parts: seq<string>)
    ensures AllOctets(reader, parts) <==>
      |parts| == 4 && forall k :: 0 <= k < 4 ==>
        match reader.number(parts[k]) case Some(n) => 0 <= n <= 255 case None => false
    ensures AllOctets(reader, parts) ==>
      forall k :: 0 <= k < 4 ==> reader.number(parts[k]) == Some(OctetsOf(reader, parts)[k])
  {}

  /** What stands before the first slash is a network: four valid octets, and behind it a prefix from 0 to 32. */
  predicate IsNetwork(reader: Reader, network: string, digits: string)
  {
    && network != "" && digits != "" && AllOctets(reader, Split(network, '.'))
    && match reader.parseInt(digits) case Some(prefix) => 0 <= prefix <= 32 case None => false
  }

  /** The address and the network of a pattern lie in the same block. */
  predicate SameBlock(reader: Reader, address: string, network: string, digits: string)
    requires IsNetwork(reader, network, digits)
  {
    var parts, prefix := Split(address, '.'), reader.parseInt(digits).value;
    AllOctets(reader, parts) &&
    Block(Address(OctetsOf(reader, parts)), prefix) == Block(Address(OctetsOf(reader, Split(network, '.'))), prefix)
  }

  /** The first two parts of a pattern with a slash; what follows a second slash is not looked at. */
  lemma PatternParts(network: string, digits: string, rest: string)
    requires '/' !in network && '/' !in digits && (rest == "" || rest[0] == '/')
    ensures var parts := Split(network + "/" + digits + rest, '/');
      |parts| >= 2 && parts[0] == network && parts[1] == digits
  {
    var joint := "/" + (digits + rest);
    SplitBehind(digits, rest, '/');
    SplitBehind(network, joint, '/');
    assert joint[1..] == digits + rest;
    assert network + "/" + digits + rest == network + joint;
    assert Split(rest, '/')[0] == "";
    assert digits + "" == digits && network + "" == network;
  }

  /** A pattern that names a network admits its own text and the addresses in the block, nothing else. */
  lemma PatternAdmitsBlock(reader: Reader, address: string, network: string, digits: string, rest: string)
    requires '/' !in network && '/' !in digits && (rest == "" || rest[0] == '/')
    requires IsNetwork(reader, network, digits)
    ensures var pattern := network + "/" + digits + rest;
      MatchesIp(reader, address, pattern) <==> address == pattern || SameBlock(reader, address, network, digits)
  {
    hide Split, AllOctets, OctetsOf, InNetwork, Block;
    PatternParts(network, digits, rest);
    OctetsAreValid(reader, Split(network, '.'));
    if AllOctets(reader, Split(address, '.')) {
      OctetsAreValid(reader, Split(address, '.'));
      NetworkIsBlock(
        OctetsOf(reader, Split(address, '.')), OctetsOf(reader, Split(network, '.')), reader.parseInt(digits).value);
    }
  }

  /** Any other pattern with a slash admits only its own text: nothing before or behind it, bad octets, bad prefix. */
  lemma NoNetworkAdmitsItself(reader: Reader, address: string, network: string, digits: string, rest: string)
    requires '/' !in network && '/' !in digits && (rest == "" || rest[0] == '/')
    requires !IsNetwork(reader, network, digits)
    ensures var pattern := network + "/" + digits + rest;
      MatchesIp(reader, address, pattern) <==> address == pattern
  {
    hide Split, AllOctets, OctetsOf, InNetwork;
    PatternParts(network, digits, rest);
  }

  /** Every pattern has no slash, and admits its own text, or is of the form of the two lemmas above. */
  lemma EveryPatternIsCovered(reader: Reader, address: string, pattern: string)
    returns (network: string, digits: string, rest: string)
    ensures '/' !in pattern ==> (MatchesIp(reader, address, pattern) <==> address == pattern)
    ensures '/' in pattern ==>
      && pattern == network + "/" + digits + rest
      && '/' !in network && '/' !in digits && (rest == "" || rest[0] == '/')
  {
    hide MatchesIp;
    if '/' !in pattern { NoSlashAdmitsItself(reader, address, pattern); }
    var behind, tail;
    network, behind := UpToSlash(pattern);
    tail := if behind == "" then "" else behind[1..];
    digits, rest := UpToSlash(tail);
    if '/' in pattern { JoinsUp(network, behind, digits, rest); }
  }

  lemma NoSlashAdmitsItself(reader: Reader, address: string, pattern: string)
    requires '/' !in pattern
    ensures MatchesIp(reader, address, pattern) <==> address == pattern
  {}

  lemma JoinsUp(network: string, behind: string, digits: string, rest: string)
    requires behind != "" && behind[0] == '/' && behind[1..] == digits + rest
    ensures network + behind == network + "/" + digits + rest
  {
    assert behind == "/" + behind[1..];
  }

  lemma {:induction false} UpToSlash(s: string) returns (front: string, behind: string)
    ensures s == front + behind && '/' !in front && (behind == "" || behind[0] == '/')
  {
    if s == "" || s[0] == '/' {
      front, behind := "", s;
    } else {
      front, behind := UpToSlash(s[1..]);
      front := [s[0]] + front;
    }
  }

  // ---------- the code ----------

  predicate Admits(reader: Reader, expected: string, headerValue: string)
  {
    headerValue == expected || MatchesIp(reader, headerValue, expected)
  }

  /** A header is trusted when some expected value equals it, or is a network that contains it. */
  method IsTrusted(reader: Reader, headerValue: string, expectedValues: seq<string>) returns (trusted: bool)
    ensures trusted <==> exists k :: 0 <= k < |expectedValues| && Admits(reader, expectedValues[k], headerValue)
  {
    for k := 0 to |expectedValues|
      invariant forall j :: 0 <= j < k ==> !Admits(reader, expectedValues[j], headerValue)
    {
      var expected := expectedValues[k];
      assert Admits(reader, expectedValues[k], headerValue) <==>
        headerValue == expected || ('/' in expected && MatchesIp(reader, headerValue, expected));
      if headerValue == expected { return true; }
      if '/' in expected && MatchesIp(reader, headerValue, expected) { return true; }
    }
    return false;
  }
}
