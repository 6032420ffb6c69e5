/**
 * `deriveUserDepositWallet`: the deposit-address index of a user is the first
 * 32 bits of the SHA-256 digest of the user id, masked to 31 bits so that it
 * is a non-hardened child index (BIP-32, section "Child key derivation (CKD)
 * functions"), and it is used at the address_index level of the BIP-44 path
 * (BIP-44, section "Path levels"). The hash is a parameter; key derivation
 * from the path is not modelled.
 */
module HdWallet {
  import opened Text

  function Pow2(k: nat): (r: nat)
    ensures r >= 1
  {
    if k == 0 then 1 else 2 * Pow2(k - 1)
  }

  lemma {:induction false} Pow2Add(a: nat, b: nat)
    ensures Pow2(a + b) == Pow2(a) * Pow2(b)
    decreases a
  {
    if a > 0 {
      Pow2Add(a - 1, b);
      assert Pow2(a + b) == 2 * Pow2(a - 1 + b);
    }
  }

  lemma Pow2Values()
    ensures Pow2(31) == 0x8000_0000 && Pow2(32) == 0x1_0000_0000
  {
    assert Pow2(4) == 16;
    Pow2Add(4, 4);
    Pow2Add(8, 8);
    Pow2Add(16, 16);
    assert Pow2(32) == 2 * Pow2(31);
  }

  predicate IsLowerHexDigit(c: char) {
    '0' <= c <= '9' || 'a' <= c <= 'f'
  }

  function HexDigitValue(c: char): (v: nat)
    requires IsLowerHexDigit(c)
    ensures v < 16
  {
    if '0' <= c <= '9' then c as int - '0' as int else c as int - 'a' as int + 10
  }

  /** `parseInt(s, 16)` on a string of lower-case hex digits. */
  function HexValue(s: string): nat
    requires forall i :: 0 <= i < |s| ==> IsLowerHexDigit(s[i])
  {
    if s == [] then 0 else 16 * HexValue(s[..|s| - 1]) + HexDigitValue(s[|s| - 1])
  }

  /** `n` hex digits hold a value below 2^(4n). */
  lemma {:induction false} HexValueBound(s: string)
    requires forall i :: 0 <= i < |s| ==> IsLowerHexDigit(s[i])
    ensures HexValue(s) < Pow2(4 * |s|)
    decreases |s|
  {
    if s != [] {
      var n := 4 * |s|;
      HexValueBound(s[..|s| - 1]);
      assert Pow2(n) == 16 * Pow2(n - 4) by {
        assert Pow2(n) == 2 * Pow2(n - 1);
        assert Pow2(n - 1) == 2 * Pow2(n - 2);
        assert Pow2(n - 2) == 2 * Pow2(n - 3);
        assert Pow2(n - 3) == 2 * Pow2(n - 4);
      }
    }
  }

  /** A SHA-256 digest as `digest('hex')` prints it. */
  type HexDigest = s: string | |s| == 64 && forall i :: 0 <= i < |s| ==> IsLowerHexDigit(s[i])
    witness seq(64, _ => '0')

  /** The bit pattern `a & b` computes on two unsigned 32-bit patterns: bit by
      bit from the lowest. */
  function BitAnd(a: nat, b: nat): (r: nat)
    ensures r <= b
  {
    if a == 0 || b == 0 then 0 else 2 * BitAnd(a / 2, b / 2) + (a % 2) * (b % 2)
  }

  /** JavaScript's `a & b` on integers: both operands are taken modulo 2^32
      (`ToInt32`), combined bitwise, and the result read as a signed 32-bit value. */
  function JsAnd(a: int, b: int): (r: int)
    ensures -0x8000_0000 <= r < 0x8000_0000
  {
    var p := BitAnd(a % 0x1_0000_0000, b % 0x1_0000_0000);
    if p >= 0x8000_0000 then p - 0x1_0000_0000 else p
  }

  lemma MulAtLeast(a: int, d: int)
    requires d > 0
    ensures a >= 1 ==> a * d >= d
    ensures a <= -1 ==> a * d <= -d
  {
    if a >= 1 {
      assert a * d == (a - 1) * d + d;
    } else if a <= -1 {
      assert a * d == (a + 1) * d - d;
    }
  }

  /** Quotient and remainder are unique. */
  lemma ModUnique(x: int, d: int, q: int, r: int)
    requires 0 <= r < d && x == q * d + r
    ensures x % d == r
  {
    var q' := x / d;
    var r' := x % d;
    assert (q - q') * d == r' - r;
    MulAtLeast(q - q', d);
  }

  /** The remainder by 2p from the remainder of the half by p and the low bit. */
  lemma ModDouble(x: nat, p: nat)
    requires p >= 1
    ensures x % (2 * p) == 2 * ((x / 2) % p) + x % 2
  {
    var q := (x / 2) / p;
    var r := (x / 2) % p;
    assert x / 2 == q * p + r;
    assert x == q * (2 * p) + (2 * r + x % 2);
    ModUnique(x, 2 * p, q, 2 * r + x % 2);
  }

  /** Masking with k low one-bits keeps the value modulo 2^k. */
  lemma {:induction false} BitAndLowMask(x: nat, k: nat)
    ensures BitAnd(x, Pow2(k) - 1) == x % Pow2(k)
  {
    if k == 0 {
      assert Pow2(0) == 1;
      assert BitAnd(x, 0) == 0;
    } else if x == 0 {
      assert BitAnd(0, Pow2(k) - 1) == 0;
    } else {
      var p := Pow2(k - 1);
      var m := Pow2(k) - 1;
      assert Pow2(k) == 2 * p;
      assert m / 2 == p - 1 && m % 2 == 1 by {
        assert m == 2 * (p - 1) + 1;
      }
      assert BitAnd(x, m) == 2 * BitAnd(x / 2, m / 2) + (x % 2) * (m % 2);
      BitAndLowMask(x / 2, k - 1);
      ModDouble(x, p);
    }
  }

  const IndexMask := 0x7FFF_FFFF

  /** `parseInt(digest.substring(0, 8), 16) & 0x7FFFFFFF`. */
  function UserIndex(digest: HexDigest): (i: int)
    ensures 0 <= i < 0x8000_0000
    ensures i == HexValue(digest[..8]) % 0x8000_0000
  {
    MaskKeepsLow31Bits(HexValue(digest[..8]), digest[..8]);
    JsAnd(HexValue(digest[..8]), IndexMask)
  }

  /** On the value of 8 hex digits, `& 0x7FFFFFFF` is the remainder modulo 2^31. */
  lemma MaskKeepsLow31Bits(v: nat, hex: string)
    requires |hex| == 8 && forall i :: 0 <= i < |hex| ==> IsLowerHexDigit(hex[i])
    requires v == HexValue(hex)
    ensures JsAnd(v, IndexMask) == v % 0x8000_0000
  {
    HexValueBound(hex);
    Pow2Values();
    BitAndLowMask(v, 31);
    assert v % 0x1_0000_0000 == v;
    assert BitAnd(v, IndexMask) <= IndexMask;
  }

  const PathPrefix := "m/44'/60'/0'/0/"

  /** `m/44'/60'/0'/0/${index}`: coin type 60, account 0, external chain. */
  function DerivationPath(index: nat): (p: string)
    ensures PathPrefix <= p
    ensures forall k :: |PathPrefix| <= k < |p| ==> IsDigit(p[k])
    ensures ParseDecimal(p[|PathPrefix|..]) == index
  {
    DecimalRoundTrip(index);
    assert (PathPrefix + NatToDecimal(index))[|PathPrefix|..] == NatToDecimal(index);
    PathPrefix + NatToDecimal(index)
  }

  /** Different indices give different paths, so different deposit addresses
      come from different indices. */
  lemma PathDeterminesIndex(i: nat, j: nat)
    ensures DerivationPath(i) == DerivationPath(j) ==> i == j
  {
  }

  /** `deriveUserDepositWallet` up to the key derivation: the path for a user,
      with `sha256Hex` standing for `createHash('sha256').update(userId).digest('hex')`. */
  function DepositPath(sha256Hex: string -> HexDigest, userId: string): (p: string)
    ensures p == DerivationPath(HexValue(sha256Hex(userId)[..8]) % 0x8000_0000)
  {
    DerivationPath(UserIndex(sha256Hex(userId)))
  }

  /** Two users whose digests agree in the first 8 hex digits share a deposit path. */
  lemma OnlyFirstEightDigitsMatter(sha256Hex: string -> HexDigest, u: string, v: string)
    requires sha256Hex(u)[..8] == sha256Hex(v)[..8]
    ensures DepositPath(sha256Hex, u) == DepositPath(sha256Hex, v)
  {
  }
}
