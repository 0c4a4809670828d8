/** The treasury address: the chain id in decimal, zeros, and "10001", read back as forty
    hexadecimal digits. */
module Treasury {
  import opened Machine
  import opened Balances

  const MAINNET_ID: U64 := 202555
  const INTERNAL_L2_ID: U64 := 168001
  const TESTNET_ID: U64 := 168002
  const DEVNET_ID: U64 := 167012

  const SUFFIX: string := "10001"
  const ADDRESS_LENGTH: nat := 40

  function DigitChar(d: nat): (c: char)
    requires d < 10
    ensures HexDigit(c) == Some(d)
  {
    ('0' as int + d) as char
  }

  function Decimal(n: nat): string {
    if n < 10 then [DigitChar(n)] else Decimal(n / 10) + [DigitChar(n % 10)]
  }

  function Zeros(n: nat): (s: string)
    ensures |s| == n && forall i :: 0 <= i < n ==> s[i] == '0'
  {
    seq(n, _ => '0')
  }

  function HexDigit(c: char): (d: Option<nat>)
    ensures d.Some? ==> d.value < 16
  {
    if '0' <= c <= '9' then Some(c as int - '0' as int)
    else if 'a' <= c <= 'f' then Some(c as int - 'a' as int + 10)
    else if 'A' <= c <= 'F' then Some(c as int - 'A' as int + 10)
    else None
  }

  predicate AllHex(s: string) {
    forall i :: 0 <= i < |s| ==> HexDigit(s[i]).Some?
  }

  predicate AllDecimal(s: string) {
    forall i :: 0 <= i < |s| ==> '0' <= s[i] <= '9'
  }

  /** The number that the digits `s` denote in base `b`, most significant digit first. */
  function Value(s: string, b: nat): nat
    requires AllHex(s)
  {
    if s == [] then 0
    else Value(s[..|s| - 1], b) * b + HexDigit(s[|s| - 1]).value
  }

  function Pow(b: nat, k: nat): nat {
    if k == 0 then 1 else b * Pow(b, k - 1)
  }

  /** `Address::from_str` on the digits behind "0x": exactly forty hexadecimal digits. */
  function ParseAddress(s: string): Option<Address> {
    if |s| == ADDRESS_LENGTH && AllHex(s) then
      ValueBound(s, 16);
      PowSixteenForty();
      Some(Value(s, 16))
    else
      None
  }

  function TreasuryString(chainId: U64): string {
    var chainIdStr := Decimal(chainId);
    var paddingNeeded := SaturatingSub(ADDRESS_LENGTH, |chainIdStr| + |SUFFIX|);
    chainIdStr + Zeros(paddingNeeded) + SUFFIX
  }

  function TreasuryAddress(chainId: U64): Address {
    ParseAddress(TreasuryString(chainId)).GetOr(0)
  }

  // ---------------------------------------------------------------- positional notation

  lemma PowSixteenForty()
    ensures Pow(16, 40) == 0x1_0000_0000_0000_0000_0000_0000_0000_0000_0000_0000
  {
    PowAdd(16, 10, 10);
    PowAdd(16, 20, 20);
    PowAdd(16, 5, 5);
    assert Pow(16, 5) == 0x10_0000;
  }

  lemma {:induction false} PowAdd(b: nat, i: nat, j: nat)
    ensures Pow(b, i + j) == Pow(b, i) * Pow(b, j)
  {
    if i > 0 {
      PowAdd(b, i - 1, j);
      assert b * (Pow(b, i - 1) * Pow(b, j)) == (b * Pow(b, i - 1)) * Pow(b, j);
    }
  }

  lemma {:induction false} PowPositive(b: nat, k: nat)
    requires b > 0
    ensures Pow(b, k) >= 1
  {
    if k > 0 {
      PowPositive(b, k - 1);
      ProductLe(1, 1, b, Pow(b, k - 1));
    }
  }

  predicate DigitsBelow(s: string, b: nat)
    requires AllHex(s)
  {
    forall i :: 0 <= i < |s| ==> HexDigit(s[i]).value < b
  }

  lemma {:induction false} ValueBound(s: string, b: nat)
    requires AllHex(s) && DigitsBelow(s, b)
    ensures Value(s, b) < Pow(b, |s|)
  {
    if s != [] {
      var front := s[..|s| - 1];
      ValueBound(front, b);
      AppendDigitBound(Value(front, b), HexDigit(s[|s| - 1]).value, Pow(b, |front|), b);
    }
  }

  lemma AppendDigitBound(v: nat, d: nat, p: nat, b: nat)
    requires v < p && d < b
    ensures v * b + d < b * p
  {
    ProductLe(v + 1, b, p, b);
    assert (v + 1) * b == v * b + b;
  }

  lemma AppendDigit(v: nat, w: nat, p: nat, b: nat, d: nat)
    ensures (v * p + w) * b + d == v * (b * p) + (w * b + d)
  {
    assert (v * p) * b == v * (b * p);
  }

  lemma {:induction false} ValueConcat(s: string, t: string, b: nat)
    requires AllHex(s) && AllHex(t)
    ensures AllHex(s + t)
    ensures Value(s + t, b) == Value(s, b) * Pow(b, |t|) + Value(t, b)
  {
    if t == [] {
      assert s + t == s;
    } else {
      var front := t[..|t| - 1];
      ValueConcat(s, front, b);
      assert (s + t)[..|s + t| - 1] == s + front;
      AppendDigit(Value(s, b), Value(front, b), Pow(b, |front|), b, HexDigit(t[|t| - 1]).value);
    }
  }

  lemma {:induction false} ValueZeros(n: nat, b: nat)
    ensures AllHex(Zeros(n)) && Value(Zeros(n), b) == 0
  {
    if n > 0 {
      ValueZeros(n - 1, b);
      assert Zeros(n)[..n - 1] == Zeros(n - 1);
    }
  }

  lemma AppendZeros(s: string, n: nat, b: nat)
    requires AllHex(s)
    ensures AllHex(s + Zeros(n)) && Value(s + Zeros(n), b) == Value(s, b) * Pow(b, n)
  {
    ValueZeros(n, b);
    ValueConcat(s, Zeros(n), b);
  }

  // Digit strings of one length that denote the same number are the same string.
  lemma {:induction false} ValueInjective(s: string, t: string)
    requires AllDecimal(s) && AllDecimal(t) && |s| == |t|
    requires Value(s, 16) == Value(t, 16)
    ensures s == t
  {
    if s != [] {
      var n := |s| - 1;
      SplitDigit(Value(s[..n], 16), Value(t[..n], 16), HexDigit(s[n]).value, HexDigit(t[n]).value);
      SameDigit(s[n], t[n]);
      ValueInjective(s[..n], t[..n]);
      assert s == s[..n] + [s[n]] == t[..n] + [t[n]] == t;
    }
  }

  lemma SplitDigit(x: nat, y: nat, d: nat, e: nat)
    requires d < 16 && e < 16 && x * 16 + d == y * 16 + e
    ensures x == y && d == e
  {
  }

  lemma SameDigit(c: char, d: char)
    requires '0' <= c <= '9' && '0' <= d <= '9' && HexDigit(c) == HexDigit(d)
    ensures c == d
  {
    assert c as int == d as int;
  }

  // ---------------------------------------------------------------- decimal notation

  // Printing in decimal and reading back gives the number; there is no leading zero.
  lemma {:induction false} DecimalRoundTrip(n: nat)
    ensures AllDecimal(Decimal(n)) && Decimal(n) != []
    ensures Value(Decimal(n), 10) == n
    ensures n > 0 ==> Decimal(n)[0] != '0'
  {
    if n >= 10 {
      DecimalRoundTrip(n / 10);
      assert Decimal(n)[..|Decimal(n)| - 1] == Decimal(n / 10);
    } else {
      assert Decimal(n)[..0] == [];
    }
  }

  lemma {:induction false} DecimalLength(n: nat, k: nat)
    requires k > 0 && n < Pow(10, k)
    ensures |Decimal(n)| <= k
  {
    if n >= 10 {
      assert n / 10 < Pow(10, k - 1);
      DecimalLength(n / 10, k - 1);
    }
  }

  lemma U64DecimalLength(n: U64)
    ensures 1 <= |Decimal(n)| <= 20
  {
    PowAdd(10, 5, 5);
    PowAdd(10, 10, 10);
    assert Pow(10, 5) == 100000;
    DecimalLength(n, 20);
    DecimalRoundTrip(n);
  }

  // Multiplying by ten to the k appends k zeros.
  lemma {:induction false} DecimalShift(n: nat, k: nat)
    requires n > 0
    ensures Decimal(n * Pow(10, k)) == Decimal(n) + Zeros(k)
  {
    if k == 0 {
      assert Decimal(n) + Zeros(0) == Decimal(n);
    } else {
      var m := n * Pow(10, k - 1);
      PowPositive(10, k - 1);
      ProductLe(1, 1, n, Pow(10, k - 1));
      assert n * Pow(10, k) == m * 10 by {
        assert n * (10 * Pow(10, k - 1)) == (n * Pow(10, k - 1)) * 10;
      }
      DecimalShift(n, k - 1);
      assert (m * 10) / 10 == m && (m * 10) % 10 == 0;
      assert Zeros(k) == Zeros(k - 1) + ['0'];
    }
  }

  // ---------------------------------------------------------------- the address law

  /** The string always has forty digits and parses, so the zero fallback is never taken, and
      the address is the id's decimal digits read as hexadecimal (its BCD value), shifted to the
      top, plus 0x10001. */
  lemma TreasuryClosedForm(id: U64)
    ensures |TreasuryString(id)| == ADDRESS_LENGTH && AllDecimal(TreasuryString(id))
    ensures ParseAddress(TreasuryString(id)).Some?
    ensures 1 <= |Decimal(id)| <= 20 && AllHex(Decimal(id))
    ensures TreasuryAddress(id) == Value(Decimal(id), 16) * Pow(16, 40 - |Decimal(id)|) + 0x10001
    ensures TreasuryAddress(id) != 0
  {
    U64DecimalLength(id);
    DecimalRoundTrip(id);
    PaddedValue(Decimal(id), 35 - |Decimal(id)|);
  }

  /** Decimal digits, one per hexadecimal place. */
  function Bcd(n: nat): nat {
    if n < 10 then n else Bcd(n / 10) * 16 + n % 10
  }

  lemma {:induction false} ValueIsBcd(n: nat)
    ensures AllHex(Decimal(n)) && Value(Decimal(n), 16) == Bcd(n)
  {
    if n >= 10 {
      ValueIsBcd(n / 10);
      assert Decimal(n)[..|Decimal(n)| - 1] == Decimal(n / 10);
    } else {
      assert Decimal(n)[..0] == [];
    }
  }

  /** The addresses themselves, on which every client of the networks has to agree. */
  lemma SupportedTreasuries()
    ensures TreasuryAddress(MAINNET_ID) == 0x2025550000000000000000000000000000010001
    ensures TreasuryAddress(INTERNAL_L2_ID) == 0x1680010000000000000000000000000000010001
    ensures TreasuryAddress(TESTNET_ID) == 0x1680020000000000000000000000000000010001
    ensures TreasuryAddress(DEVNET_ID) == 0x1670120000000000000000000000000000010001
  {
    BcdSix(2, 0, 2, 5, 5, 5);
    SixDigits(MAINNET_ID, 0x202555);
    BcdSix(1, 6, 8, 0, 0, 1);
    SixDigits(INTERNAL_L2_ID, 0x168001);
    BcdSix(1, 6, 8, 0, 0, 2);
    SixDigits(TESTNET_ID, 0x168002);
    BcdSix(1, 6, 7, 0, 1, 2);
    SixDigits(DEVNET_ID, 0x167012);
  }

  lemma BcdNext(n: nat, d: nat)
    requires n > 0 && d < 10
    ensures Bcd(n * 10 + d) == Bcd(n) * 16 + d
  {
    assert (n * 10 + d) / 10 == n && (n * 10 + d) % 10 == d;
  }

  lemma BcdSix(a: nat, b: nat, c: nat, d: nat, e: nat, f: nat)
    requires 0 < a < 10 && b < 10 && c < 10 && d < 10 && e < 10 && f < 10
    ensures Bcd(((((a * 10 + b) * 10 + c) * 10 + d) * 10 + e) * 10 + f) ==
            ((((a * 16 + b) * 16 + c) * 16 + d) * 16 + e) * 16 + f
  {
    BcdNext(a, b);
    BcdNext(a * 10 + b, c);
    BcdNext((a * 10 + b) * 10 + c, d);
    BcdNext(((a * 10 + b) * 10 + c) * 10 + d, e);
    BcdNext((((a * 10 + b) * 10 + c) * 10 + d) * 10 + e, f);
  }

  lemma SixDigits(id: U64, bcd: nat)
    requires 100000 <= id < 1000000 && Bcd(id) == bcd
    ensures TreasuryAddress(id) == bcd * 0x1_00_0000_0000_0000_0000_0000_0000_0000_0000 + 0x10001
  {
    TreasuryClosedForm(id);
    ValueIsBcd(id);
    SixDigitLength(id);
    PowSixteenForty();
    PowAdd(16, 6, 34);
    assert Pow(16, 34) == 0x1_00_0000_0000_0000_0000_0000_0000_0000_0000 by {
      PowAdd(16, 17, 17);
      PowAdd(16, 8, 9);
      PowAdd(16, 4, 4);
      assert Pow(16, 4) == 0x1_0000;
      assert Pow(16, 9) == 16 * Pow(16, 8);
    }
  }

  lemma SixDigitLength(id: nat)
    requires 100000 <= id < 1000000
    ensures |Decimal(id)| == 6
  {
    assert |Decimal(id / 10000)| == 2;
    assert |Decimal(id / 1000)| == 3 by { assert id / 1000 / 10 == id / 10000; }
    assert |Decimal(id / 100)| == 4 by { assert id / 100 / 10 == id / 1000; }
    assert |Decimal(id / 10)| == 5 by { assert id / 10 / 10 == id / 100; }
  }

  lemma PaddedValue(d: string, pad: nat)
    requires AllHex(d)
    ensures AllHex(d + Zeros(pad) + SUFFIX)
    ensures Value(d + Zeros(pad) + SUFFIX, 16) == Value(d, 16) * Pow(16, pad + 5) + 0x10001
  {
    AppendZeros(d, pad, 16);
    SuffixValue();
    ValueConcat(d + Zeros(pad), SUFFIX, 16);
    assert Pow(16, pad + 5) == Pow(16, pad) * Pow(16, |SUFFIX|) by {
      PowAdd(16, pad, 5);
    }
    MulAssoc(Value(d, 16), Pow(16, pad), Pow(16, |SUFFIX|));
  }

  lemma SuffixValue()
    ensures AllHex(SUFFIX) && Value(SUFFIX, 16) == 0x10001
  {
    assert SUFFIX[..4] == "1000" && SUFFIX[..4][..3] == "100" && SUFFIX[..4][..3][..2] == "10";
    assert Value("1", 16) == 1;
    assert "10"[..1] == "1" && Value("10", 16) == 16;
    assert "100"[..2] == "10" && Value("100", 16) == 256;
    assert "1000"[..3] == "100" && Value("1000", 16) == 4096;
  }

  ghost predicate PowerOfTenMultiple(a: nat, b: nat) {
    exists k: nat :: a == b * Pow(10, k)
  }

  /** Two chain ids share a treasury exactly when one is the other times a power of ten. */
  lemma TreasuryCollision(a: U64, b: U64)
    ensures TreasuryAddress(a) == TreasuryAddress(b)
       <==> PowerOfTenMultiple(a, b) || PowerOfTenMultiple(b, a)
  {
    if TreasuryAddress(a) == TreasuryAddress(b) {
      TreasuryClosedForm(a);
      TreasuryClosedForm(b);
      ValueInjective(TreasuryString(a), TreasuryString(b));
      if |Decimal(a)| <= |Decimal(b)| {
        SameStringMultiple(a, b);
      } else {
        SameStringMultiple(b, a);
      }
    }
    if PowerOfTenMultiple(a, b) {
      MultipleSameString(a, b);
    }
    if PowerOfTenMultiple(b, a) {
      MultipleSameString(b, a);
    }
  }

  lemma SameStringMultiple(a: U64, b: U64)
    requires TreasuryString(a) == TreasuryString(b) && |Decimal(a)| <= |Decimal(b)|
    ensures PowerOfTenMultiple(b, a)
  {
    U64DecimalLength(a);
    U64DecimalLength(b);
    DecimalRoundTrip(a);
    DecimalRoundTrip(b);
    var k := |Decimal(b)| - |Decimal(a)|;
    assert Decimal(b) == TreasuryString(b)[..|Decimal(b)|];
    assert Decimal(b) == Decimal(a) + Zeros(k);
    AppendZeros(Decimal(a), k, 10);
  }

  lemma MultipleSameString(a: U64, b: U64)
    requires PowerOfTenMultiple(a, b)
    ensures TreasuryString(a) == TreasuryString(b)
  {
    var k: nat :| a == b * Pow(10, k);
    if b > 0 {
      DecimalShift(b, k);
      U64DecimalLength(a);
      assert Decimal(a) == Decimal(b) + Zeros(k);
      assert Zeros(k) + Zeros(35 - |Decimal(a)|) == Zeros(35 - |Decimal(b)|);
      assert TreasuryString(a) == Decimal(b) + (Zeros(k) + Zeros(35 - |Decimal(a)|)) + SUFFIX;
    }
  }

  /** The four supported networks pay four different treasuries. */
  lemma SupportedTreasuriesDistinct(a: U64, b: U64)
    requires a in {MAINNET_ID, INTERNAL_L2_ID, TESTNET_ID, DEVNET_ID}
    requires b in {MAINNET_ID, INTERNAL_L2_ID, TESTNET_ID, DEVNET_ID}
    requires a != b
    ensures TreasuryAddress(a) != TreasuryAddress(b)
  {
    TreasuryCollision(a, b);
    NotPowerOfTenMultiple(a, b);
    NotPowerOfTenMultiple(b, a);
  }

  lemma NotPowerOfTenMultiple(a: nat, b: nat)
    requires a != b && b > 0 && a < 10 * b
    ensures !PowerOfTenMultiple(a, b)
  {
    if PowerOfTenMultiple(a, b) {
      var k: nat :| a == b * Pow(10, k);
      if k > 0 {
        PowPositive(10, k - 1);
        ProductLe(b, 10, b, Pow(10, k));
      }
      assert false;
    }
  }
}
