/**
  Base58: byte sequences as strings over fifty-eight characters. Both directions multiply and add into a big-endian digit buffer
  of a size estimated from the length of the input.
 */
module Base58 {

  import opened Numbers

  datatype Option<T> = None | Some(value: T)

  type Digits = seq<nat>

  // ----- positional numbers, most significant digit first -----

  ghost predicate Below(s: Digits, base: nat) {
    forall i :: 0 <= i < |s| ==> s[i] < base
  }

  function Value(s: Digits, base: nat): nat {
    if s == [] then 0 else Value(s[..|s| - 1], base) * base + s[|s| - 1]
  }

  lemma ValueSnoc(s: Digits, d: nat, base: nat)
    ensures Value(s + [d], base) == Value(s, base) * base + d
  {
    assert (s + [d])[..|s|] == s;
  }

  lemma {:induction false} ValueCons(d: nat, s: Digits, base: nat)
    ensures Value([d] + s, base) == d * Pow(base, |s|) + Value(s, base)
  {
    if s == [] {
      assert [d] + s == [] + [d];
      ValueSnoc([], d, base);
      PowStep(base, 0);
    } else {
      var n := |s| - 1;
      ValueCons(d, s[..n], base);
      assert [d] + s == ([d] + s[..n]) + [s[n]];
      ValueSnoc([d] + s[..n], s[n], base);
      PowStep(base, n);
      ConsStep(d, Pow(base, n), Value(s[..n], base), base);
    }
  }

  lemma ConsStep(d: int, p: int, v: int, base: int)
    ensures (d * p + v) * base == d * (base * p) + v * base
  {
    MulAssoc(d, p, base);
    assert p * base == base * p;
  }

  lemma {:induction false} ValueBound(s: Digits, base: nat)
    requires base > 0 && Below(s, base)
    ensures Value(s, base) < Pow(base, |s|)
  {
    if s == [] {
      PowStep(base, 0);
    } else {
      var n := |s| - 1;
      ValueBound(s[..n], base);
      PowStep(base, n);
      BoundStep(Value(s[..n], base), Pow(base, n), s[n], base);
    }
  }

  lemma BoundStep(v: nat, p: nat, d: nat, base: nat)
    requires v < p && d < base
    ensures v * base + d < base * p
  {
    MulMono(base, v + 1, p);
    assert base * (v + 1) == v * base + base;
  }

  lemma {:induction false} ValueZeros(n: nat, s: Digits, base: nat)
    ensures Value(Zeros(n) + s, base) == Value(s, base)
    decreases n
  {
    if n == 0 {
      assert Zeros(0) + s == s;
    } else {
      ValueZeros(n - 1, s, base);
      assert Zeros(n) + s == [0] + (Zeros(n - 1) + s);
      ValueCons(0, Zeros(n - 1) + s, base);
      assert 0 * Pow(base, |Zeros(n - 1) + s|) == 0;
    }
  }

  function Zeros(n: nat): (r: Digits)
    ensures |r| == n && forall i :: 0 <= i < n ==> r[i] == 0
  {
    seq(n, _ => 0)
  }

  /** The digits of a number without leading zeros. */
  function Canonical(v: nat, base: nat): (r: Digits)
    requires base > 1
    ensures Below(r, base) && (|r| > 0 ==> r[0] != 0) && (v == 0 <==> r == [])
  {
    if v == 0 then []
    else
      QuotientSmaller(v, base);
      Canonical(v / base, base) + [v % base]
  }

  lemma {:induction false} CanonicalValue(v: nat, base: nat)
    requires base > 1
    ensures Value(Canonical(v, base), base) == v
  {
    if v > 0 {
      hide Value;
      QuotientSmaller(v, base);
      CanonicalValue(v / base, base);
      ValueSnoc(Canonical(v / base, base), v % base, base);
      DivIdentity(v, base);
    }
  }

  /** Digits without leading zeros are those of their number. */
  lemma {:induction false} CanonicalUnique(s: Digits, base: nat)
    requires base > 1 && Below(s, base) && (|s| > 0 ==> s[0] != 0)
    ensures Canonical(Value(s, base), base) == s
  {
    if s != [] {
      var n := |s| - 1;
      CanonicalUnique(s[..n], base);
      var v := Value(s, base);
      DivModUnique(v, base, Value(s[..n], base), s[n]);
      if n > 0 {
        assert Canonical(Value(s[..n], base), base) != [];
        MulMono(base, 1, Value(s[..n], base));
      }
      assert v > 0;
      assert s == s[..n] + [s[n]];
    }
  }

  /** Leading zeros, and the rest. */
  function LeadingZeros(s: Digits): (r: nat)
    ensures r <= |s| && (forall i :: 0 <= i < r ==> s[i] == 0) && (r < |s| ==> s[r] != 0)
  {
    if s == [] || s[0] != 0 then 0 else 1 + LeadingZeros(s[1..])
  }

  lemma StripCanonical(s: Digits, base: nat)
    requires base > 1 && Below(s, base)
    ensures s[LeadingZeros(s)..] == Canonical(Value(s, base), base)
  {
    var z := LeadingZeros(s);
    assert s == Zeros(z) + s[z..];
    ValueZeros(z, s[z..], base);
    CanonicalUnique(s[z..], base);
  }

  // ----- the size estimates -----

  lemma {:induction false} PowBaseMono(x: nat, y: nat, n: nat)
    requires x <= y
    ensures Pow(x, n) <= Pow(y, n)
  {
    if n > 0 {
      PowBaseMono(x, y, n - 1);
      PowStep(x, n - 1);
      PowStep(y, n - 1);
      MulMono(x, Pow(x, n - 1), Pow(y, n - 1));
      MulMono(Pow(y, n - 1), x, y);
    }
  }

  lemma {:induction false} PowBaseStrict(x: nat, y: nat, n: nat)
    requires x < y && n > 0
    ensures Pow(x, n) < Pow(y, n)
  {
    PowStep(x, n - 1);
    PowStep(y, n - 1);
    PowBaseMono(x, y, n - 1);
    hide Pow;
    MulMono(x, Pow(x, n - 1), Pow(y, n - 1));
    MulLess(Pow(y, n - 1), x, y);
  }

  /** If `a^q <= b^p`, a number of `l` digits in base `a` fits `l * p / q + 1` digits in base `b`. */
  lemma Room(a: nat, b: nat, p: nat, q: nat, l: nat)
    requires a > 0 && b > 0 && q > 0 && Pow(a, q) <= Pow(b, p)
    ensures Pow(a, l) <= Pow(b, l * p / q + 1)
  {
    hide Pow;
    var n := l * p / q + 1;
    Enough(l * p, q);
    PowMul(a, l, q);
    PowMul(a, q, l);
    PowBaseMono(Pow(a, q), Pow(b, p), l);
    PowMul(b, p, l);
    PowMono(b, p * l, q * n);
    PowMul(b, n, q);
    if Pow(a, l) > Pow(b, n) {
      PowBaseStrict(Pow(b, n), Pow(a, l), q);
    }
  }

  lemma Enough(x: nat, q: nat)
    requires q > 0
    ensures x <= q * (x / q + 1)
  {
    DivFacts(x, q);
    assert q * (x / q + 1) == q * (x / q) + q;
  }

  lemma PowSquare(b: nat, n: nat, v: nat)
    requires Pow(b, n) == v
    ensures Pow(b, 2 * n) == v * v
  {
    PowAdd(b, n, n);
  }

  lemma Pow58()
    ensures Pow(58, 6) == 38068692544 && Pow(58, 22) == 24986644000165537792 * 24986644000165537792
  {
    assert Pow(58, 5) == 656356768;
    hide Pow;
    PowStep(58, 5);
    PowSquare(58, 5, 656356768);
    PowStep(58, 10);
    PowSquare(58, 11, 24986644000165537792);
  }

  lemma Pow2Powers()
    ensures Pow(2, 8) == 256 && Pow(2, 35) == 34359738368
    ensures Pow(2, 129) == 2 * (18446744073709551616 * 18446744073709551616)
  {
    assert Pow(2, 4) == 16;
    assert Pow(2, 3) == 8;
    hide Pow;
    PowSquare(2, 4, 16);
    PowSquare(2, 8, 256);
    PowSquare(2, 16, 65536);
    PowAdd(2, 32, 3);
    PowSquare(2, 32, 4294967296);
    PowSquare(2, 64, 18446744073709551616);
    PowStep(2, 128);
  }

  /** The buffer for encoding is large enough at any length. */
  lemma EncodeRoom(l: nat)
    ensures Pow(256, l) <= Pow(58, l * 138 / 100 + 1)
  {
    hide Pow;
    Pow58();
    Pow2Powers();
    PowMul(2, 8, 35);
    PowMul(2, 35, 8);
    PowMul(58, 6, 8);
    PowBaseMono(Pow(2, 35), Pow(58, 6), 8);
    Room(256, 58, 48, 35, l);
    PowMono(58, l * 48 / 35 + 1, l * 138 / 100 + 1);
  }

  /** The buffer for decoding is large enough at any length. */
  lemma DecodeRoom(l: nat)
    ensures Pow(58, l) <= Pow(256, l * 733 / 1000 + 1)
  {
    hide Pow;
    Pow58();
    Pow2Powers();
    PowMul(58, 22, 8);
    PowMul(2, 129, 8);
    PowMul(2, 8, 129);
    PowBaseMono(Pow(58, 22), Pow(2, 129), 8);
    Room(58, 256, 129, 176, l);
    PowMono(256, l * 129 / 176 + 1, l * 733 / 1000 + 1);
  }

  // ----- multiply and add in place -----

  /** The digits above the lowest `length` are zero. */
  ghost predicate ZeroAbove(s: Digits, length: nat) {
    length <= |s| && forall i :: 0 <= i < |s| - length ==> s[i] == 0
  }

  function Plus(carry: nat, mult: nat, d: nat): nat {
    carry + mult * d
  }

  /** Digits processed from the right: `carry` is still to be added above the lowest `i`. */
  ghost predicate MulAddInv(was: Digits, now: Digits, base: nat, mult: nat, ch: nat, i: nat, carry: nat) {
    && i <= |now| == |was| && now[..|now| - i] == was[..|now| - i] && Below(now, base)
    && Value(now[|now| - i..], base) + carry * Pow(base, i) == Plus(ch, mult, Value(was[|now| - i..], base))
  }

  lemma MulAddStart(s: Digits, base: nat, mult: nat, ch: nat)
    requires Below(s, base)
    ensures MulAddInv(s, s, base, mult, ch, 0, ch)
  {
    PowStep(base, 0);
  }

  lemma MulAddStep(was: Digits, now: Digits, base: nat, mult: nat, ch: nat, i: nat, carry: nat, c: nat)
    requires base > 0 && i < |now| && MulAddInv(was, now, base, mult, ch, i, carry)
    requires c == Plus(carry, mult, now[|now| - 1 - i])
    ensures MulAddInv(was, now[|now| - 1 - i := c % base], base, mult, ch, i + 1, c / base)
  {
    hide Pow, Value;
    var k := |now| - 1 - i;
    var next := now[k := c % base];
    assert was[k] == now[k] by {
      assert was[..k + 1][k] == now[..k + 1][k];
    }
    assert next[k..] == [c % base] + now[k + 1..] && was[k..] == [was[k]] + was[k + 1..];
    ValueCons(c % base, now[k + 1..], base);
    ValueCons(was[k], was[k + 1..], base);
    PowStep(base, i);
    DivIdentity(c, base);
    StepSum(c, c / base, c % base, base, Pow(base, i), carry, mult, was[k], Value(was[k + 1..], base));
    assert next[..k] == was[..k] by {
      assert now[..k] == now[..k + 1][..k] && was[..k] == was[..k + 1][..k];
    }
  }

  lemma StepSum(c: int, q: int, r: int, base: int, p: int, carry: int, mult: int, d: int, v: int)
    requires c == q * base + r && c == carry + mult * d
    ensures r * p + q * (base * p) == carry * p + (d * p) * mult
    ensures (d * p + v) * mult == (d * p) * mult + v * mult
  {
    MulAssoc(q, base, p);
    assert c * p == q * base * p + r * p;
    assert c * p == carry * p + mult * d * p;
    assert mult * d * p == (d * p) * mult by {
      MulAssoc(mult, d, p);
    }
  }

  /** The loop ends with nothing left to carry. */
  lemma MulAddDone(was: Digits, now: Digits, base: nat, mult: nat, ch: nat, i: nat, carry: nat, length: nat)
    requires base > 0 && MulAddInv(was, now, base, mult, ch, i, carry) && ZeroAbove(was, length)
    requires (carry == 0 && i >= length) || i == |now|
    requires Plus(ch, mult, Value(was, base)) < Pow(base, |was|)
    ensures carry == 0 && Value(now, base) == Plus(ch, mult, Value(was, base)) && ZeroAbove(now, i)
  {
    hide Pow, Value, Plus;
    var k := |now| - i;
    if i == |now| {
      assert now[k..] == now && was[k..] == was;
      NothingCarried(Value(now, base), carry, Pow(base, i));
    } else {
      assert was == Zeros(k) + was[k..];
      assert now == Zeros(k) + now[k..] by {
        assert now == now[..k] + now[k..];
      }
      ValueZeros(k, was[k..], base);
      ValueZeros(k, now[k..], base);
    }
    forall j | 0 <= j < k ensures now[j] == 0 {
      assert now[..k][j] == was[..k][j];
    }
  }

  lemma NothingCarried(v: nat, carry: nat, p: nat)
    requires v + carry * p < p
    ensures carry == 0
  {
    if carry > 0 {
      MulMono(p, 1, carry);
    }
  }

  /** Multiplies a big-endian number by `mult` and adds `ch`, touching only as many digits as needed. */
  method MulAdd(buf: array<nat>, base: nat, mult: nat, ch: nat, length: nat) returns (newLength: nat)
    requires base > 0 && Below(buf[..], base) && ZeroAbove(buf[..], length)
    requires Plus(ch, mult, Value(buf[..], base)) < Pow(base, buf.Length)
    modifies buf
    ensures Below(buf[..], base) && ZeroAbove(buf[..], newLength)
    ensures Value(buf[..], base) == Plus(ch, mult, old(Value(buf[..], base)))
  {
    hide Pow, Value, ZeroAbove, MulAddInv, Plus;
    ghost var was := buf[..];
    var carry: nat := ch;
    var i := 0;
    MulAddStart(was, base, mult, ch);
    while (carry != 0 || i < length) && i < buf.Length
      invariant 0 <= i <= buf.Length && MulAddInv(was, buf[..], base, mult, ch, i, carry)
      decreases buf.Length - i
    {
      var k := buf.Length - 1 - i;
      MulAddStep(was, buf[..], base, mult, ch, i, carry, Plus(carry, mult, buf[k]));
      carry := Plus(carry, mult, buf[k]);
      buf[k] := carry % base;
      carry := carry / base;
      i := i + 1;
    }
    MulAddBelow(was, buf[..], base, mult, ch, i, carry);
    MulAddDone(was, buf[..], base, mult, ch, i, carry, length);
    assert carry == 0;
    newLength := i;
  }

  lemma MulAddBelow(was: Digits, now: Digits, base: nat, mult: nat, ch: nat, i: nat, carry: nat)
    requires MulAddInv(was, now, base, mult, ch, i, carry)
    ensures Below(now, base)
  {
  }

  /** Drops the leading zeros of a number whose digits above `length` are zero. */
  method Strip(s: Digits, base: nat, length: nat) returns (r: Digits)
    requires base > 1 && Below(s, base) && ZeroAbove(s, length)
    ensures r == Canonical(Value(s, base), base)
  {
    hide Value, Canonical;
    var it := |s| - length;
    while it != |s| && s[it] == 0
      invariant 0 <= it <= |s| && forall j :: 0 <= j < it ==> s[j] == 0
      decreases |s| - it
    {
      it := it + 1;
    }
    assert LeadingZeros(s) == it;
    StripCanonical(s, base);
    r := s[it..];
  }

  // ----- characters -----

  /** The table from characters to digits, by its runs; -1 for the others. */
  function DigitOf(c: char): (r: int)
    ensures -1 <= r < 58
  {
    var n := c as int;
    if '1' <= c <= '9' then n - 49
    else if 'A' <= c <= 'H' then n - 65 + 9
    else if 'J' <= c <= 'N' then n - 74 + 17
    else if 'P' <= c <= 'Z' then n - 80 + 22
    else if 'a' <= c <= 'k' then n - 97 + 33
    else if 'm' <= c <= 'z' then n - 109 + 44
    else -1
  }

  /** The alphabet: digits and letters without "0", "I", "O" and "l". */
  function CharOf(d: nat): char
    requires d < 58
  {
    (if d < 9 then 49 + d
     else if d < 17 then 65 + d - 9
     else if d < 22 then 74 + d - 17
     else if d < 33 then 80 + d - 22
     else if d < 44 then 97 + d - 33
     else 109 + d - 44) as char
  }

  lemma CharDigit(d: nat)
    requires d < 58
    ensures DigitOf(CharOf(d)) == d
  {
  }

  lemma DigitChar(c: char)
    requires DigitOf(c) >= 0
    ensures CharOf(DigitOf(c)) == c
  {
  }

  predicate IsSpace(c: char) {
    c == ' ' || '\t' <= c <= '\r'
  }

  /** The character at a position of a string that ends with a null character. */
  function At(s: string, i: nat): char {
    if i < |s| then s[i] else '\0'
  }

  function Text(d: Digits): (r: string)
    requires Below(d, 58)
    ensures |r| == |d| && forall i :: 0 <= i < |d| ==> r[i] == CharOf(d[i])
  {
    seq(|d|, i requires 0 <= i < |d| && Below(d, 58) => CharOf(d[i]))
  }

  function Ones(n: nat): (r: string)
    ensures |r| == n && forall i :: 0 <= i < n ==> r[i] == '1'
  {
    seq(n, _ => '1')
  }

  // ----- encoding -----

  /** A '1' for each leading zero byte, then the digits of the number that the bytes stand for. */
  ghost function Encoded(b: Digits): string
    requires Below(b, 256)
  {
    Ones(LeadingZeros(b)) + Text(Canonical(Value(b, 256), 58))
  }

  method EncodeBase58(b: Digits) returns (str: string)
    requires Below(b, 256)
    ensures str == Encoded(b)
  {
    hide Pow, Value, Canonical;
    var zeroes := 0;
    while zeroes != |b| && b[zeroes] == 0
      invariant 0 <= zeroes <= |b| && forall i :: 0 <= i < zeroes ==> b[i] == 0
      decreases |b| - zeroes
    {
      zeroes := zeroes + 1;
    }
    assert LeadingZeros(b) == zeroes;
    assert b == Zeros(zeroes) + b[zeroes..];
    ValueZeros(zeroes, b[zeroes..], 256);
    var digits := ToBase58(b[zeroes..]);
    var text := ToText(digits);
    str := Ones(zeroes) + text;
  }

  method ToText(digits: Digits) returns (str: string)
    requires Below(digits, 58)
    ensures str == Text(digits)
  {
    hide CharOf;
    str := "";
    var k := 0;
    while k < |digits|
      invariant 0 <= k <= |digits| && |str| == k && forall i :: 0 <= i < k ==> str[i] == CharOf(digits[i])
    {
      str := str + [CharOf(digits[k])];
      k := k + 1;
    }
  }

  method ToBase58(t: Digits) returns (digits: Digits)
    requires Below(t, 256)
    ensures digits == Canonical(Value(t, 256), 58)
  {
    hide Pow, Value, Canonical, ZeroAbove;
    var size := |t| * 138 / 100 + 1;
    EncodeRoom(|t|);
    var b58 := new nat[size](_ => 0);
    var length: nat := 0;
    var p := 0;
    AllZero(b58[..], t, 58, 256);
    while p != |t|
      invariant 0 <= p <= |t| && b58.Length == size
      invariant Below(b58[..], 58) && ZeroAbove(b58[..], length) && Value(b58[..], 58) == Value(t[..p], 256)
      decreases |t| - p
    {
      PrefixFits(t, p, 256, 58, size);
      length := MulAdd(b58, 58, 256, t[p], length);
      p := p + 1;
    }
    assert t[..p] == t;
    digits := Strip(b58[..], 58, length);
  }

  lemma AllZero(s: Digits, t: Digits, base: nat, from: nat)
    requires base > 0 && forall i :: 0 <= i < |s| ==> s[i] == 0
    ensures Below(s, base) && ZeroAbove(s, 0) && Value(s, base) == Value(t[..0], from)
  {
    assert s == Zeros(|s|) + [];
    ValueZeros(|s|, [], base);
  }

  lemma PrefixFits(t: Digits, k: nat, from: nat, base: nat, size: nat)
    requires from > 0 && Below(t, from) && k < |t| && Pow(from, |t|) <= Pow(base, size)
    ensures Value(t[..k + 1], from) == Value(t[..k], from) * from + t[k] < Pow(base, size)
  {
    hide Pow, Value;
    assert t[..k + 1] == t[..k] + [t[k]];
    ValueSnoc(t[..k], t[k], from);
    ValueBound(t[..k + 1], from);
    PowMono(from, k + 1, |t|);
  }

  // ----- decoding -----

  function SkipSpaces(s: string, i: nat): (r: nat)
    ensures r >= i && !IsSpace(At(s, r)) && forall k :: i <= k < r ==> IsSpace(At(s, k))
    ensures i <= |s| ==> r <= |s|
    decreases |s| - i
  {
    if i < |s| && IsSpace(s[i]) then SkipSpaces(s, i + 1) else i
  }

  function SkipOnes(s: string, i: nat): (r: nat)
    ensures r >= i && At(s, r) != '1' && forall k :: i <= k < r ==> At(s, k) == '1'
    ensures i <= |s| ==> r <= |s|
    decreases |s| - i
  {
    if i < |s| && s[i] == '1' then SkipOnes(s, i + 1) else i
  }

  /** The end of the run of characters that are neither null nor spaces. */
  function SkipWord(s: string, i: nat): (r: nat)
    ensures r >= i && (At(s, r) == '\0' || IsSpace(At(s, r)))
    ensures forall k :: i <= k < r ==> At(s, k) != '\0' && !IsSpace(At(s, k))
    ensures i <= |s| ==> r <= |s|
    decreases |s| - i
  {
    if i < |s| && s[i] != '\0' && !IsSpace(s[i]) then SkipWord(s, i + 1) else i
  }

  ghost predicate AllDigits(w: string) {
    forall i :: 0 <= i < |w| ==> DigitOf(w[i]) >= 0
  }

  ghost function DigitsOf(w: string): (r: Digits)
    requires AllDigits(w)
    ensures |r| == |w| && Below(r, 58) && forall i :: 0 <= i < |w| ==> r[i] == DigitOf(w[i])
  {
    seq(|w|, i requires 0 <= i < |w| && AllDigits(w) => DigitOf(w[i]) as nat)
  }

  /** Spaces, ones, digits, spaces and the end: a zero byte for each one, then the bytes of the number. */
  ghost function Decoded(s: string): Option<Digits> {
    var i0 := SkipSpaces(s, 0);
    var i1 := SkipOnes(s, i0);
    var i2 := SkipWord(s, i1);
    var w := s[i1..i2];
    if !AllDigits(w) || At(s, SkipSpaces(s, i2)) != '\0' then None
    else Some(Zeros(i1 - i0) + Canonical(Value(DigitsOf(w), 58), 256))
  }

  method DecodeBase58(s: string) returns (r: Option<Digits>)
    ensures r == Decoded(s)
  {
    hide Pow, Value, Canonical, ZeroAbove, DigitOf, IsSpace;
    var psz := 0;
    while At(s, psz) != '\0' && IsSpace(At(s, psz))
      invariant 0 <= psz <= |s| && SkipSpaces(s, psz) == SkipSpaces(s, 0)
      decreases |s| - psz
    {
      psz := psz + 1;
    }
    SpaceEnds(s, psz);
    ghost var i0 := psz;
    var zeroes := 0;
    while At(s, psz) == '1'
      invariant 0 <= psz <= |s| && zeroes == psz - i0 && SkipOnes(s, psz) == SkipOnes(s, i0)
      decreases |s| - psz
    {
      zeroes := zeroes + 1;
      psz := psz + 1;
    }
    ghost var i1 := psz;
    var ok, bytes;
    ok, psz, bytes := ReadWord(s, psz);
    if !ok {
      return None;
    }
    ghost var i2 := psz;
    while IsSpace(At(s, psz))
      invariant i2 <= psz <= |s| && SkipSpaces(s, psz) == SkipSpaces(s, i2)
      decreases |s| - psz
    {
      psz := psz + 1;
    }
    if At(s, psz) != '\0' {
      return None;
    }
    return Some(Zeros(zeroes) + bytes);
  }

  /** Converts the digits up to a space or the end. */
  method ReadWord(s: string, from: nat) returns (ok: bool, psz: nat, bytes: Digits)
    requires from <= |s|
    ensures ok <==> AllDigits(s[from..SkipWord(s, from)])
    ensures ok ==> psz == SkipWord(s, from) && bytes == Canonical(Value(DigitsOf(s[from..psz]), 58), 256)
  {
    hide Pow, Value, Canonical, ZeroAbove, DigitOf, IsSpace;
    psz, bytes := from, [];
    ghost var end := SkipWord(s, from);
    ghost var w := s[from..end];
    var n := StrLen(s, psz);
    var size := n * 733 / 1000 + 1;
    var b256 := new nat[size](_ => 0);
    var length: nat := 0;
    ghost var d: Digits := [];
    AllZero(b256[..], [], 256, 58);
    while At(s, psz) != '\0' && !IsSpace(At(s, psz))
      invariant from <= psz <= end && SkipWord(s, psz) == end && b256.Length == size
      invariant Read(w, d, psz - from)
      invariant Below(b256[..], 256) && ZeroAbove(b256[..], length) && Value(b256[..], 256) == Value(d, 58)
      decreases |s| - psz
    {
      assert w[psz - from] == s[psz];
      var carry := DigitOf(At(s, psz));
      if carry == -1 {
        return false, psz, bytes;
      }
      WordFits(w, d, psz - from, carry, n, size);
      length := MulAdd(b256, 256, 58, carry, length);
      d := d + [carry];
      psz := psz + 1;
    }
    AllRead(w, d);
    bytes := Strip(b256[..], 256, length);
    ok := true;
  }

  lemma SpaceEnds(s: string, i: nat)
    requires At(s, i) == '\0' || !IsSpace(At(s, i))
    ensures SkipSpaces(s, i) == i
  {
  }

  /** The distance to the null character. */
  method StrLen(s: string, from: nat) returns (n: nat)
    requires from <= |s|
    ensures SkipWord(s, from) - from <= n
  {
    n := 0;
    while At(s, from + n) != '\0'
      invariant from + n <= |s| && forall k :: from <= k < from + n ==> At(s, k) != '\0'
      decreases |s| - n
    {
      n := n + 1;
    }
  }

  /** The first `k` characters have been read as digits. */
  ghost predicate Read(w: string, d: Digits, k: nat) {
    k <= |w| && |d| == k && forall i :: 0 <= i < k ==> DigitOf(w[i]) >= 0 && d[i] == DigitOf(w[i])
  }

  lemma WordFits(w: string, d: Digits, k: nat, digit: nat, n: nat, size: nat)
    requires k < |w| <= n && Read(w, d, k) && digit == DigitOf(w[k]) && size == n * 733 / 1000 + 1
    ensures Read(w, d + [digit], k + 1) && Value(d + [digit], 58) == Value(d, 58) * 58 + digit < Pow(256, size)
  {
    hide Pow, Value, DigitOf;
    ValueSnoc(d, digit, 58);
    ValueBound(d + [digit], 58);
    PowMono(58, k + 1, n);
    DecodeRoom(n);
  }

  lemma AllRead(w: string, d: Digits)
    requires Read(w, d, |w|)
    ensures AllDigits(w) && d == DigitsOf(w)
  {
  }

  // ----- round trips -----

  lemma TextReads(d: Digits)
    requires Below(d, 58)
    ensures AllDigits(Text(d)) && DigitsOf(Text(d)) == d
  {
    hide DigitOf, CharOf;
    forall i | 0 <= i < |d| ensures DigitOf(Text(d)[i]) == d[i] {
      CharDigit(d[i]);
    }
  }

  lemma ReadText(w: string)
    requires AllDigits(w)
    ensures Text(DigitsOf(w)) == w
  {
    hide DigitOf, CharOf;
    forall i | 0 <= i < |w| ensures Text(DigitsOf(w))[i] == w[i] {
      DigitChar(w[i]);
    }
  }

  lemma PlainChar(c: char)
    requires DigitOf(c) >= 0
    ensures c != '\0' && !IsSpace(c)
  {
  }

  lemma {:induction false} SkipOnesIs(s: string, i: nat, j: nat)
    requires i <= j && (forall k :: i <= k < j ==> At(s, k) == '1') && At(s, j) != '1'
    ensures SkipOnes(s, i) == j
    decreases j - i
  {
    if i < j {
      SkipOnesIs(s, i + 1, j);
    }
  }

  lemma {:induction false} SkipWordIs(s: string, i: nat)
    requires i <= |s| && forall k :: i <= k < |s| ==> s[k] != '\0' && !IsSpace(s[k])
    ensures SkipWord(s, i) == |s|
    decreases |s| - i
  {
    if i < |s| {
      SkipWordIs(s, i + 1);
    }
  }

  /** A string of ones and then digits that do not start with a one. */
  lemma DecodedPlain(ones: nat, w: string)
    requires AllDigits(w) && (|w| > 0 ==> w[0] != '1')
    ensures Decoded(Ones(ones) + w) == Some(Zeros(ones) + Canonical(Value(DigitsOf(w), 58), 256))
  {
    hide Value, Canonical, DigitOf, IsSpace;
    var s := Ones(ones) + w;
    OneIsDigit();
    forall k | 0 <= k < |s| ensures s[k] != '\0' && !IsSpace(s[k]) {
      if k >= ones {
        assert s[k] == w[k - ones];
      }
      PlainChar(s[k]);
    }
    SpaceEnds(s, 0);
    SkipOnesIs(s, 0, ones);
    SkipWordIs(s, ones);
    assert s[ones..|s|] == w;
    SpaceEnds(s, |s|);
  }

  lemma OneIsDigit()
    ensures DigitOf('1') == 0
  {
  }

  /** Decoding gives back every byte sequence that was encoded. */
  lemma DecodeEncode(b: Digits)
    requires Below(b, 256)
    ensures Decoded(Encoded(b)) == Some(b)
  {
    hide Value, Canonical, DigitOf, CharOf, Decoded;
    var z := LeadingZeros(b);
    var d := Canonical(Value(b, 256), 58);
    TextReads(d);
    if |d| > 0 {
      CharDigit(d[0]);
      OneIsDigit();
    }
    DecodedPlain(z, Text(d));
    CanonicalValue(Value(b, 256), 58);
    StripCanonical(b, 256);
    assert b == Zeros(z) + b[z..];
  }

  /** Encoding gives back every string that decodes, without the spaces around it. */
  lemma EncodeDecode(s: string)
    requires Decoded(s).Some?
    ensures var i0 := SkipSpaces(s, 0);
            Below(Decoded(s).value, 256) && Encoded(Decoded(s).value) == s[i0..SkipWord(s, SkipOnes(s, i0))]
  {
    hide Value, Canonical, DigitOf, CharOf, IsSpace, SkipSpaces, SkipOnes, SkipWord, Encoded, AllDigits;
    var i0 := SkipSpaces(s, 0);
    var i1 := SkipOnes(s, i0);
    var i2 := SkipWord(s, i1);
    var w := s[i1..i2];
    if |w| > 0 {
      assert w[0] == At(s, i1);
    }
    EncodePlain(i1 - i0, w);
    OnesIn(s, i0, i1);
    assert s[i0..i2] == s[i0..i1] + w;
  }

  lemma OnesIn(s: string, i: nat, j: nat)
    requires i <= j <= |s| && forall k :: i <= k < j ==> At(s, k) == '1'
    ensures s[i..j] == Ones(j - i)
  {
    forall k | i <= k < j ensures s[k] == '1' {
      assert At(s, k) == '1';
    }
  }

  lemma EncodePlain(ones: nat, w: string)
    requires AllDigits(w) && (|w| > 0 ==> w[0] != '1')
    ensures var b := Zeros(ones) + Canonical(Value(DigitsOf(w), 58), 256);
            Below(b, 256) && Encoded(b) == Ones(ones) + w
  {
    hide Value, Canonical, DigitOf, CharOf;
    var d := DigitsOf(w);
    var c := Canonical(Value(d, 58), 256);
    LeadingZerosIs(ones, c);
    ValueZeros(ones, c, 256);
    CanonicalValue(Value(d, 58), 256);
    if |w| > 0 {
      OnlyOneIsZero(w[0]);
    }
    CanonicalUnique(d, 58);
    ReadText(w);
  }

  lemma LeadingZerosIs(n: nat, c: Digits)
    requires |c| > 0 ==> c[0] != 0
    ensures LeadingZeros(Zeros(n) + c) == n
  {
    var s := Zeros(n) + c;
    assert forall i :: 0 <= i < n ==> s[i] == 0;
    assert |c| > 0 ==> s[n] == c[0];
  }

  lemma OnlyOneIsZero(c: char)
    ensures DigitOf(c) == 0 <==> c == '1'
  {
  }

  method EncodeThenDecode(b: Digits) returns (r: Option<Digits>)
    requires Below(b, 256)
    ensures r == Some(b)
  {
    hide Encoded, Decoded;
    var s := EncodeBase58(b);
    r := DecodeBase58(s);
    DecodeEncode(b);
  }
}
