/**
 * String helpers with the semantics of the JavaScript built-ins the source calls:
 * `trim`, the regex class `\s`, `split`, `join`, `includes`, `startsWith`,
 * `toLowerCase` (restricted to ASCII) and decimal number formatting.
 */
module Text {

  /** The WhiteSpace and LineTerminator code points of ECMAScript: exactly what
      `String.prototype.trim` strips and what the regex class `\s` matches. */
  predicate IsSpace(c: char) {
    var n := c as int;
    n == 0x09 || n == 0x0A || n == 0x0B || n == 0x0C || n == 0x0D || n == 0x20
    || n == 0xA0 || n == 0x1680 || (0x2000 <= n <= 0x200A) || n == 0x2028
    || n == 0x2029 || n == 0x202F || n == 0x205F || n == 0x3000 || n == 0xFEFF
  }

  predicate AllSpace(s: string) {
    forall k :: 0 <= k < |s| ==> IsSpace(s[k])
  }

  /** A string `trim` leaves as it is. */
  predicate Trimmed(s: string) {
    s == [] || (!IsSpace(s[0]) && !IsSpace(s[|s| - 1]))
  }

  /** `String.prototype.trim`: whitespace removed from both ends, one code
      unit at a time. */
  function Trim(s: string): (r: string)
    ensures Trimmed(r)
    ensures InfixOf(r, s)
    ensures Trimmed(s) ==> r == s
    decreases |s|
  {
    if s != [] && IsSpace(s[0]) then
      var t := s[1..];
      var r := Trim(t);
      ghost var i :| OccursAt(t, r, i);
      assert s[i + 1..i + 1 + |r|] == t[i..i + |r|];
      assert OccursAt(s, r, i + 1);
      r
    else if s != [] && IsSpace(s[|s| - 1]) then
      var t := s[..|s| - 1];
      var r := Trim(t);
      ghost var i :| OccursAt(t, r, i);
      assert s[i..i + |r|] == t[i..i + |r|];
      assert OccursAt(s, r, i);
      r
    else
      assert OccursAt(s, s, 0);
      s
  }

  /** `r` occurs in `s` at `i` with only whitespace before and after it. */
  predicate SpaceAround(s: string, r: string, i: int) {
    OccursAt(s, r, i) && AllSpace(s[..i]) && AllSpace(s[i + |r|..])
  }

  /** Only whitespace is removed: the trimmed text sits in the input between an
      all-whitespace prefix and an all-whitespace suffix. */
  lemma {:induction false} TrimSpan(s: string)
    ensures exists i :: SpaceAround(s, Trim(s), i)
    decreases |s|
  {
    if s != [] && IsSpace(s[0]) {
      TrimSpan(s[1..]);
      var i :| SpaceAround(s[1..], Trim(s[1..]), i);
      SpaceAroundFront(s, Trim(s[1..]), i);
      assert Trim(s) == Trim(s[1..]);
    } else if s != [] && IsSpace(s[|s| - 1]) {
      TrimSpan(s[..|s| - 1]);
      var i :| SpaceAround(s[..|s| - 1], Trim(s[..|s| - 1]), i);
      SpaceAroundBack(s, Trim(s[..|s| - 1]), i);
      assert Trim(s) == Trim(s[..|s| - 1]);
    } else {
      assert Trimmed(s);
      assert s[..0] == [] && s[|s|..] == [];
      assert SpaceAround(s, Trim(s), 0);
    }
  }

  lemma SpaceAroundFront(s: string, r: string, i: int)
    requires s != [] && IsSpace(s[0]) && SpaceAround(s[1..], r, i)
    ensures SpaceAround(s, r, i + 1)
  {
    var t := s[1..];
    assert s[i + 1..i + 1 + |r|] == t[i..i + |r|];
    assert s[..i + 1] == [s[0]] + t[..i];
    assert s[i + 1 + |r|..] == t[i + |r|..];
  }

  lemma SpaceAroundBack(s: string, r: string, i: int)
    requires s != [] && IsSpace(s[|s| - 1]) && SpaceAround(s[..|s| - 1], r, i)
    ensures SpaceAround(s, r, i)
  {
    var t := s[..|s| - 1];
    assert s[i..i + |r|] == t[i..i + |r|];
    assert s[..i] == t[..i];
    assert s[i + |r|..] == t[i + |r|..] + [s[|s| - 1]];
  }

  /** `trim` empties exactly the all-whitespace strings. */
  lemma {:induction false} TrimEmpty(s: string)
    ensures Trim(s) == [] <==> AllSpace(s)
    decreases |s|
  {
    if s != [] && IsSpace(s[0]) {
      TrimEmpty(s[1..]);
      assert AllSpace(s) <==> AllSpace(s[1..]);
    } else if s != [] && IsSpace(s[|s| - 1]) {
      TrimEmpty(s[..|s| - 1]);
      assert AllSpace(s) <==> AllSpace(s[..|s| - 1]);
    }
  }

  function AsciiLower(c: char): char {
    if 'A' <= c <= 'Z' then (c as int + 32) as char else c
  }

  /** `toLowerCase` on the ASCII range; other characters are left as they are. */
  function Lower(s: string): (r: string)
    ensures |r| == |s|
    ensures forall i :: 0 <= i < |s| ==> r[i] == AsciiLower(s[i])
  {
    seq(|s|, i requires 0 <= i < |s| => AsciiLower(s[i]))
  }

  /** Equality after `toLowerCase` on both sides. */
  predicate EqualsIgnoreCase(a: string, b: string) {
    Lower(a) == Lower(b)
  }

  /** `String.prototype.includes`. */
  predicate Contains(s: string, sub: string) {
    sub <= s || (s != [] && Contains(s[1..], sub))
  }

  /** `sub` occurs somewhere in `s`. */
  ghost predicate InfixOf(sub: string, s: string) {
    exists i :: OccursAt(s, sub, i)
  }

  /** `sub` occurs in `s` starting at index `i`. */
  predicate OccursAt(s: string, sub: string, i: int) {
    0 <= i <= |s| - |sub| && s[i..i + |sub|] == sub
  }

  /** `Contains` holds exactly when `sub` occurs at some position of `s`. */
  lemma ContainsOccurrence(s: string, sub: string)
    ensures Contains(s, sub) <==> exists i :: OccursAt(s, sub, i)
  {
    if Contains(s, sub) {
      var i := ContainsWitness(s, sub);
    }
    if exists i :: OccursAt(s, sub, i) {
      var i :| OccursAt(s, sub, i);
      OccursContains(s, sub, i);
    }
  }

  /** A position where `sub` occurs, when `Contains` holds. */
  lemma {:induction false} ContainsWitness(s: string, sub: string) returns (i: int)
    requires Contains(s, sub)
    ensures OccursAt(s, sub, i)
    decreases |s|
  {
    if sub <= s {
      i := 0;
    } else {
      var j := ContainsWitness(s[1..], sub);
      assert s[j + 1..j + 1 + |sub|] == s[1..][j..j + |sub|];
      i := j + 1;
    }
  }

  /** An occurrence at any position makes `Contains` hold. */
  lemma {:induction false} OccursContains(s: string, sub: string, i: int)
    requires OccursAt(s, sub, i)
    ensures Contains(s, sub)
    decreases i
  {
    if i > 0 {
      assert s[1..][i - 1..i - 1 + |sub|] == s[i..i + |sub|];
      OccursContains(s[1..], sub, i - 1);
    } else {
      assert s[..|sub|] == sub;
    }
  }

  /** `xs.join(sep)` for a one-character separator. */
  function Join(xs: seq<string>, sep: char): string {
    if |xs| == 0 then []
    else if |xs| == 1 then xs[0]
    else xs[0] + [sep] + Join(xs[1..], sep)
  }

  /** `s.split(sep)` for a one-character separator: the pieces between separators,
      empty pieces included, so `"".split(",")` is `[""]`. */
  function Split(s: string, sep: char): (r: seq<string>)
    ensures |r| >= 1
    ensures forall i :: 0 <= i < |r| ==> sep !in r[i]
    ensures Join(r, sep) == s
    ensures sep in s <==> |r| > 1
  {
    if s == [] then [[]]
    else
      var rest := Split(s[1..], sep);
      if s[0] == sep then
        assert s == [sep] + s[1..];
        assert ([[]] + rest)[1..] == rest;
        [[]] + rest
      else
        var r := [[s[0]] + rest[0]] + rest[1..];
        assert forall i :: 1 <= i < |r| ==> r[i] == rest[i];
        assert Join(r, sep) == s by {
          if |rest| == 1 {
            assert Join(r, sep) == [s[0]] + rest[0];
          } else {
            assert r[1..] == rest[1..];
            assert Join(r, sep) == [s[0]] + rest[0] + [sep] + Join(rest[1..], sep);
          }
          assert s == [s[0]] + s[1..];
        }
        assert sep in s <==> |r| > 1 by {
          assert sep in s <==> sep in s[1..];
        }
        r
  }

  lemma JoinStartsWithFirst(xs: seq<string>, sep: char)
    requires |xs| >= 1
    ensures xs[0] <= Join(xs, sep)
    ensures |xs| > 1 ==> |Join(xs, sep)| > |xs[0]| && Join(xs, sep)[|xs[0]|] == sep
  {
  }

  /** `Split` inverts `Join` on lists of separator-free pieces: the pieces of a
      string are determined by it. */
  lemma {:induction false} SplitJoin(xs: seq<string>, sep: char)
    requires |xs| >= 1
    requires forall i :: 0 <= i < |xs| ==> sep !in xs[i]
    ensures Split(Join(xs, sep), sep) == xs
    decreases |Join(xs, sep)|
  {
    var s := Join(xs, sep);
    JoinStartsWithFirst(xs, sep);
    assert xs[0] != [] ==> xs[0][0] == s[0];
    if s == [] {
    } else if s[0] == sep {
      assert s[1..] == Join(xs[1..], sep);
      SplitJoin(xs[1..], sep);
    } else {
      var t := xs[0][1..];
      var ys := [t] + xs[1..];
      assert forall i :: 0 <= i < |ys| ==> sep !in ys[i] by {
        assert forall c :: c in t ==> c in xs[0];
      }
      assert s[1..] == Join(ys, sep) by {
        if |xs| == 1 {
        } else {
          assert ys[1..] == xs[1..];
          assert s == xs[0] + [sep] + Join(xs[1..], sep);
          assert xs[0] == [xs[0][0]] + t;
        }
      }
      SplitJoin(ys, sep);
      assert xs[0] == [s[0]] + t;
    }
  }

  function DigitChar(d: nat): char
    requires d < 10
  {
    "0123456789"[d]
  }

  predicate IsDigit(c: char) {
    '0' <= c <= '9'
  }

  function DigitValue(c: char): nat
    requires IsDigit(c)
  {
    c as int - '0' as int
  }

  /** Base-10 rendering of a non-negative integer, as `String(n)` or a template
      literal prints it: digits only, no leading zero unless the number is 0. */
  function NatToDecimal(n: nat): (r: string)
    ensures |r| >= 1
    ensures forall i :: 0 <= i < |r| ==> IsDigit(r[i])
    ensures r[0] == '0' ==> n == 0
  {
    if n < 10 then [DigitChar(n)]
    else NatToDecimal(n / 10) + [DigitChar(n % 10)]
  }

  /** The value of a string of decimal digits. */
  function ParseDecimal(s: string): nat
    requires forall i :: 0 <= i < |s| ==> IsDigit(s[i])
  {
    if s == [] then 0
    else ParseDecimal(s[..|s| - 1]) * 10 + DigitValue(s[|s| - 1])
  }

  /** Reading back a rendered number gives the number: the rendering loses nothing. */
  lemma {:induction false} DecimalRoundTrip(n: nat)
    ensures ParseDecimal(NatToDecimal(n)) == n
  {
    if n >= 10 {
      var r := NatToDecimal(n);
      assert r[..|r| - 1] == NatToDecimal(n / 10);
      DecimalRoundTrip(n / 10);
    }
  }

  /** Different numbers render differently. */
  lemma NatToDecimalInjective(m: nat, n: nat)
    ensures NatToDecimal(m) == NatToDecimal(n) ==> m == n
  {
    DecimalRoundTrip(m);
    DecimalRoundTrip(n);
  }

  /** Base-10 rendering of any integer: a '-' exactly when negative, then
      digits that read back as the magnitude. */
  function IntToDecimal(i: int): (r: string)
    ensures r != []
    ensures r[0] == '-' <==> i < 0
    ensures forall k :: (if i < 0 then 1 else 0) <= k < |r| ==> IsDigit(r[k])
    ensures i >= 0 && r[0] == '0' ==> i == 0
    ensures i < 0 ==> |r| >= 2 && r[1] != '0'
    ensures i >= 0 ==> ParseDecimal(r) == i
    ensures i < 0 ==> ParseDecimal(r[1..]) == -i
  {
    if i < 0 then
      DecimalRoundTrip(-i);
      assert ("-" + NatToDecimal(-i))[1..] == NatToDecimal(-i);
      "-" + NatToDecimal(-i)
    else
      DecimalRoundTrip(i);
      NatToDecimal(i)
  }
}
