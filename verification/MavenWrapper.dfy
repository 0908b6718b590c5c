/** mvnw: hash_string, computed in the shell's 64-bit arithmetic. */
module MavenWrapper {

  import opened JavaInt

  const MODULUS := 0x1_0000_0000

  /** What `printf %d "'c"` prints for each character; above 127 this depends on the shell and may be negative. */
  type Coding = char -> Int

  function Codes(s: string, code: Coding): seq<Int> {
    if s == "" then [] else [code(s[0])] + Codes(s[1..], code)
  }

  function Pow31(n: nat): nat {
    if n == 0 then 1 else 31 * Pow31(n - 1)
  }

  /** The sum of s[i] * 31^(|s|-1-i). */
  function Poly(s: seq<Int>): int {
    if s == [] then 0 else s[0] * Pow31(|s| - 1) + Poly(s[1..])
  }

  /** String.hashCode: every step wraps to a signed int. */
  function HashCode(s: seq<Int>): int {
    if s == [] then 0 else Wrap32(Wrap32(31 * HashCode(s[..|s| - 1])) + s[|s| - 1])
  }

  // ---------- the shell ----------

  function Wrap64(x: int): int {
    var low := x % 0x1_0000_0000_0000_0000;
    if low < 0x8000_0000_0000_0000 then low else low - 0x1_0000_0000_0000_0000
  }

  /** The shell's % truncates toward zero. */
  function ShellMod(x: int, m: nat): int
    requires m > 0
  {
    if x >= 0 then x % m else -((-x) % m)
  }

  function HashStep(h: int, c: int): int {
    ShellMod(Wrap64(Wrap64(h * 31) + c), MODULUS)
  }

  /** The value carried by h in a loop over the codes. */
  function Hash(h: int, codes: seq<Int>): int
    decreases |codes|
  {
    if codes == [] then h else Hash(HashStep(h, codes[0]), codes[1..])
  }

  function HexDigit(d: nat): char
    requires d < 16
  {
    if d < 10 then ('0' as int + d) as char else ('a' as int + d - 10) as char
  }

  /** The 64 bits of an integer read without a sign. */
  function Unsigned64(x: int): nat {
    x % 0x1_0000_0000_0000_0000
  }

  function Hex(n: nat): string {
    if n < 16 then [HexDigit(n)] else Hex(n / 16) + [HexDigit(n % 16)]
  }

  /** Each digit has its value, and no two have the same. */
  lemma DigitsHaveValues()
    ensures forall k | 0 <= k < 16 :: DigitValue("0123456789abcdef"[k]) == k && HexDigit(k) == "0123456789abcdef"[k]
  {
  }

  function DigitValue(c: char): int {
    if 'a' <= c then c as int - 'a' as int + 10 else c as int - '0' as int
  }

  function HexValue(s: string): int {
    if s == "" then 0 else 16 * HexValue(s[..|s| - 1]) + DigitValue(s[|s| - 1])
  }

  /** The digits are hexadecimal ones without a leading zero, and read back as the number. */
  lemma {:induction false} HexRoundTrip(n: nat)
    ensures HexValue(Hex(n)) == n && Hex(n) != ""
    ensures forall c | c in Hex(n) :: '0' <= c <= '9' || 'a' <= c <= 'f'
    ensures Hex(n)[0] == '0' ==> n == 0 && Hex(n) == "0"
  {
    if n < 16 {
      assert [HexDigit(n)][..0] == "";
    } else {
      HexRoundTrip(n / 16);
      assert (Hex(n / 16) + [HexDigit(n % 16)])[..|Hex(n / 16)|] == Hex(n / 16);
    }
  }

  /** `printf %x` prints the 64 bits of h without a sign. */
  method HashString(str: string, code: Coding) returns (hex: string)
    ensures var hash := Poly(Codes(str, code)) % MODULUS;
            && HexValue(hex) % MODULUS == hash
            && (HexValue(hex) == hash || HexValue(hex) == hash - MODULUS + 0x1_0000_0000_0000_0000)
            && ((forall c | c in str :: code(c) >= 0) ==> HexValue(hex) == hash)
    ensures hex != "" && (forall c | c in hex :: '0' <= c <= '9' || 'a' <= c <= 'f') && (hex[0] == '0' ==> hex == "0")
  {
    var rest, h := str, 0;
    while rest != ""
      invariant Hash(h, Codes(rest, code)) == Hash(0, Codes(str, code))
      decreases |rest|
    {
      assert Codes(rest, code)[1..] == Codes(rest[1..], code);
      h := HashStep(h, code(rest[0]));
      rest := rest[1..];
    }
    HashIsPoly(Codes(str, code));
    if forall c | c in str :: code(c) >= 0 {
      CodesNonNegative(str, code);
    }
    UnsignedHash(h, Poly(Codes(str, code)));
    hex := Hex(Unsigned64(h));
    HexRoundTrip(Unsigned64(h));
  }

  lemma {:induction false} CodesNonNegative(str: string, code: Coding)
    requires forall c | c in str :: code(c) >= 0
    ensures forall k | 0 <= k < |Codes(str, code)| :: Codes(str, code)[k] >= 0
  {
    if str != "" {
      assert str[0] in str;
      assert forall c | c in str[1..] :: c in str;
      CodesNonNegative(str[1..], code);
    }
  }

  lemma UnsignedHash(h: int, poly: int)
    requires -MODULUS < h < MODULUS && h % MODULUS == poly % MODULUS
    ensures Unsigned64(h) == if h >= 0 then poly % MODULUS else poly % MODULUS - MODULUS + 0x1_0000_0000_0000_0000
    ensures Unsigned64(h) % MODULUS == poly % MODULUS
  {
    if h < 0 {
      assert h + MODULUS == poly % MODULUS;
      AddMultiple(h, MODULUS);
    }
  }

  lemma WrapExact(x: int)
    requires -0x8000_0000_0000_0000 <= x < 0x8000_0000_0000_0000
    ensures Wrap64(x) == x
  {
  }

  /** No intermediate value leaves the signed 64-bit range, so the shell computes with plain numbers. */
  lemma StepIsExact(h: int, c: Int)
    requires -MODULUS < h < MODULUS
    ensures -0x8000_0000_0000_0000 <= h * 31 + c < 0x8000_0000_0000_0000
    ensures HashStep(h, c) == ShellMod(h * 31 + c, MODULUS)
    ensures exists q :: h * 31 + c == q * MODULUS + HashStep(h, c)
    ensures if h * 31 + c >= 0 then HashStep(h, c) >= 0 else HashStep(h, c) <= 0
    ensures -MODULUS < HashStep(h, c) < MODULUS
    ensures HashStep(h, c) % MODULUS == (h * 31 + c) % MODULUS
    ensures h * 31 + c >= 0 ==> HashStep(h, c) == (h * 31 + c) % MODULUS
  {
    assert IsInt(c);
    WrapExact(h * 31);
    WrapExact(h * 31 + c);
    ShellModIsCongruent(h * 31 + c);
  }

  lemma ShellModIsCongruent(x: int)
    ensures -MODULUS < ShellMod(x, MODULUS) < MODULUS
    ensures ShellMod(x, MODULUS) % MODULUS == x % MODULUS
    ensures exists q :: x == q * MODULUS + ShellMod(x, MODULUS)
    ensures if x >= 0 then ShellMod(x, MODULUS) >= 0 else ShellMod(x, MODULUS) <= 0
  {
    var q := if x >= 0 then x / MODULUS else -((-x) / MODULUS);
    assert x == q * MODULUS + ShellMod(x, MODULUS);
  }

  lemma {:induction false} CodesInOrder(str: string, code: Coding)
    ensures |Codes(str, code)| == |str| && forall k | 0 <= k < |str| :: Codes(str, code)[k] == code(str[k])
  {
    if str != "" {
      CodesInOrder(str[1..], code);
    }
  }

  /** The loop computes the polynomial modulo 2^32, up to the sign of the shell's remainder. */
  lemma {:induction false} HashIsPoly(codes: seq<Int>)
    ensures -MODULUS < Hash(0, codes) < MODULUS
    ensures Hash(0, codes) % MODULUS == Poly(codes) % MODULUS
    ensures (forall k | 0 <= k < |codes| :: codes[k] >= 0) ==> Hash(0, codes) >= 0
  {
    if codes != [] {
      var init, c := codes[..|codes| - 1], codes[|codes| - 1];
      HashIsPoly(init);
      assert codes == init + [c];
      HashOneMore(0, init, c);
      StepIsExact(Hash(0, init), c);
      PolyOneMore(init, c);
      SameStep(Hash(0, init), Poly(init), c);
    }
  }

  lemma {:induction false} HashOneMore(h: int, codes: seq<Int>, c: Int)
    ensures Hash(h, codes + [c]) == HashStep(Hash(h, codes), c)
    decreases |codes|
  {
    if codes != [] {
      HashOneMore(HashStep(h, codes[0]), codes[1..], c);
      assert (codes + [c])[1..] == codes[1..] + [c];
    }
  }

  lemma SameStep(x: int, y: int, c: int)
    requires x % MODULUS == y % MODULUS
    ensures (x * 31 + c) % MODULUS == (y * 31 + c) % MODULUS
  {
    var q := x / MODULUS - y / MODULUS;
    assert x * 31 + c == (y * 31 + c) + 31 * q * MODULUS;
    AddMultiple(y * 31 + c, 31 * q);
  }

  lemma AddMultiple(y: int, k: int)
    ensures (y + k * MODULUS) % MODULUS == y % MODULUS
  {
  }

  lemma {:induction false} PowSum(m: nat, n: nat)
    ensures Pow31(m + n) == Pow31(m) * Pow31(n)
  {
    if m > 0 {
      PowSum(m - 1, n);
      Associate(31, Pow31(m - 1), Pow31(n));
    }
  }

  lemma Associate(a: int, b: int, c: int)
    ensures a * (b * c) == (a * b) * c
  {
  }

  lemma {:induction false} PolyConcat(a: seq<Int>, b: seq<Int>)
    ensures Poly(a + b) == Poly(a) * Pow31(|b|) + Poly(b)
  {
    if a == [] {
      assert a + b == b;
    } else {
      var c, p, q := a[0], Pow31(|a| - 1), Pow31(|b|);
      PolyConcat(a[1..], b);
      assert (a + b)[1..] == a[1..] + b;
      PowSum(|a| - 1, |b|);
      Associate(c, p, q);
      Distribute(c * p, Poly(a[1..]), q);
    }
  }

  lemma Distribute(x: int, y: int, z: int)
    ensures (x + y) * z == x * z + y * z
  {
  }

  lemma PolyOneMore(s: seq<Int>, c: Int)
    ensures Poly(s + [c]) == Poly(s) * 31 + c
  {
    PolyConcat(s, [c]);
    assert Pow31(1) == 31 * Pow31(0) && Poly([c]) == c * Pow31(0) + Poly([c][1..]);
  }

  /** hash_string is Java's hashCode read as an unsigned number. */
  lemma {:induction false} HashStringIsHashCode(s: seq<Int>)
    ensures HashCode(s) % MODULUS == Poly(s) % MODULUS
  {
    if s != [] {
      var init, c := s[..|s| - 1], s[|s| - 1];
      HashStringIsHashCode(init);
      assert s == init + [c];
      PolyOneMore(init, c);
      HashCodeStep(HashCode(init), c);
      SameStep(HashCode(init), Poly(init), c);
    }
  }

  lemma HashCodeStep(h: int, c: int)
    ensures Wrap32(Wrap32(31 * h) + c) % MODULUS == (h * 31 + c) % MODULUS
  {
    WrapSum(31 * h, c);
    WrapIsCongruent(31 * h + c);
    SameRemainder(Wrap32(31 * h + c), 31 * h + c);
  }

  lemma SameRemainder(x: int, y: int)
    requires (x - y) % MODULUS == 0
    ensures x % MODULUS == y % MODULUS
  {
  }

  /** The hash of a concatenation from the hashes of its parts. */
  lemma HashOfConcat(a: seq<Int>, b: seq<Int>)
    ensures Poly(a + b) % MODULUS == (Poly(a) % MODULUS * Pow31(|b|) + Poly(b) % MODULUS) % MODULUS
  {
    PolyConcat(a, b);
    var x, y, p := Poly(a), Poly(b), Pow31(|b|);
    var q, r := x / MODULUS, y / MODULUS;
    Distribute(q * MODULUS, x % MODULUS, p);
    Associate(q, MODULUS, p);
    Associate(q, p, MODULUS);
    assert MODULUS * p == p * MODULUS;
    assert x * p + y == (x % MODULUS * p + y % MODULUS) + (q * p + r) * MODULUS;
    AddMultiple(x % MODULUS * p + y % MODULUS, q * p + r);
  }
}
