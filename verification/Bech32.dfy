/**
  Bech32 strings: a readable part, a separator and symbols of five bits with a checksum (section "Bech32", subsection "Checksum",
  of BIP 173).
 */
module Bech32 {

  type Symbol = bv5

  type Data = seq<Symbol>

  // ----- the checksum polynomial -----

  function Xor(a: bv32, b: bv32): bv32 {
    a ^ b
  }

  lemma XorComm(a: bv32, b: bv32)
    ensures Xor(a, b) == Xor(b, a)
  {
  }

  lemma XorAssoc(a: bv32, b: bv32, c: bv32)
    ensures Xor(Xor(a, b), c) == Xor(a, Xor(b, c))
  {
    assert (a ^ b) ^ c == a ^ (b ^ c);
  }

  lemma XorSwap(a: bv32, b: bv32, c: bv32, d: bv32)
    ensures Xor(Xor(a, b), Xor(c, d)) == Xor(Xor(a, c), Xor(b, d))
  {
    hide Xor;
    XorAssoc(a, b, Xor(c, d));
    XorAssoc(b, c, d);
    XorComm(b, c);
    XorAssoc(c, b, d);
    XorAssoc(a, c, Xor(b, d));
  }

  lemma XorLaws(a: bv32, b: bv32)
    ensures Xor(a, 0) == a && Xor(0, a) == a && Xor(a, a) == 0 && (Xor(a, b) == 0 <==> a == b)
  {
  }

  /** A multiple of the generator for one bit of the top coefficient. */
  function Term(c0: bv32, bit: bv32, g: bv32): bv32 {
    if c0 & bit != 0 then g else 0
  }

  lemma TermLinear(a: bv32, b: bv32, bit: bv32, g: bv32)
    requires bit == 1 || bit == 2 || bit == 4 || bit == 8 || bit == 16
    ensures Term(Xor(a, b), bit, g) == Xor(Term(a, bit, g), Term(b, bit, g))
  {
    assert (Xor(a, b) & bit != 0) <==> ((a & bit != 0) != (b & bit != 0));
    XorLaws(g, g);
  }

  /** What the top coefficient leaves when the polynomial is reduced. */
  function Reduction(c0: bv32): bv32 {
    Xor(Xor(Xor(Xor(Term(c0, 1, 0x3b6a57b2), Term(c0, 2, 0x26508e6d)), Term(c0, 4, 0x1ea119fa)), Term(c0, 8, 0x3d4233dd)),
        Term(c0, 16, 0x2a1462b3))
  }

  function Top(c: bv32): bv32 {
    c >> 25
  }

  function Shifted(c: bv32): bv32 {
    (c & 0x1ffffff) << 5
  }

  /** One more symbol: multiply by x, add it, and reduce. */
  function Step(c: bv32, v: bv32): bv32 {
    Xor(Xor(Shifted(c), v), Reduction(Top(c)))
  }

  lemma ReductionLinear(a: bv32, b: bv32)
    ensures Reduction(Xor(a, b)) == Xor(Reduction(a), Reduction(b))
  {
    hide Xor, Term;
    TermLinear(a, b, 1, 0x3b6a57b2);
    TermLinear(a, b, 2, 0x26508e6d);
    TermLinear(a, b, 4, 0x1ea119fa);
    TermLinear(a, b, 8, 0x3d4233dd);
    TermLinear(a, b, 16, 0x2a1462b3);
    var (a1, b1) := (Term(a, 1, 0x3b6a57b2), Term(b, 1, 0x3b6a57b2));
    var (a2, b2) := (Term(a, 2, 0x26508e6d), Term(b, 2, 0x26508e6d));
    var (a3, b3) := (Term(a, 4, 0x1ea119fa), Term(b, 4, 0x1ea119fa));
    var (a4, b4) := (Term(a, 8, 0x3d4233dd), Term(b, 8, 0x3d4233dd));
    var (a5, b5) := (Term(a, 16, 0x2a1462b3), Term(b, 16, 0x2a1462b3));
    XorSwap(a1, b1, a2, b2);
    XorSwap(Xor(a1, a2), Xor(b1, b2), a3, b3);
    XorSwap(Xor(Xor(a1, a2), a3), Xor(Xor(b1, b2), b3), a4, b4);
    XorSwap(Xor(Xor(Xor(a1, a2), a3), a4), Xor(Xor(Xor(b1, b2), b3), b4), a5, b5);
  }

  lemma ShiftsLinear(a: bv32, b: bv32)
    ensures Top(Xor(a, b)) == Xor(Top(a), Top(b)) && Shifted(Xor(a, b)) == Xor(Shifted(a), Shifted(b))
  {
  }

  lemma StepLinear(a: bv32, b: bv32, v: bv32, w: bv32)
    ensures Step(Xor(a, b), Xor(v, w)) == Xor(Step(a, v), Step(b, w))
  {
    hide Xor, Reduction, Top, Shifted;
    ShiftsLinear(a, b);
    ReductionLinear(Top(a), Top(b));
    XorSwap(Shifted(a), Shifted(b), v, w);
    XorSwap(Xor(Shifted(a), v), Xor(Shifted(b), w), Reduction(Top(a)), Reduction(Top(b)));
  }

  /** The generator has a nonzero constant coefficient, so nothing but zero is taken to zero. */
  lemma StepNonZero(c: bv32)
    requires c < 0x4000_0000
    ensures Step(c, 0) < 0x4000_0000 && (Step(c, 0) == 0 ==> c == 0)
  {
  }

  lemma StepRange(c: bv32, v: bv32)
    requires c < 0x4000_0000 && v < 32
    ensures Step(c, v) < 0x4000_0000
  {
  }

  lemma StepShift(c: bv32, v: bv32)
    requires c < 0x200_0000
    ensures Step(c, v) == Xor(Up(c), v)
  {
    assert Top(c) == 0 && Shifted(c) == Up(c);
    NoReduction();
    XorLaws(Xor(Up(c), v), 0);
  }

  function Up(c: bv32): bv32 {
    c << 5
  }

  lemma NoReduction()
    ensures Reduction(0) == 0
  {
  }

  // ----- checksums of lists -----

  function Word(v: Symbol): (r: bv32)
    ensures r < 32
  {
    v as bv32
  }

  lemma WordXor(v: Symbol, w: Symbol)
    ensures Word(v ^ w) == Xor(Word(v), Word(w)) && Word(0) == 0 && (Word(v ^ w) == 0 <==> v == w)
  {
  }

  /** The checksum state after more symbols. */
  function Run(c: bv32, s: Data): bv32 {
    if s == [] then c else Step(Run(c, s[..|s| - 1]), Word(s[|s| - 1]))
  }

  lemma RunSnoc(c: bv32, s: Data, v: Symbol)
    ensures Run(c, s + [v]) == Step(Run(c, s), Word(v))
  {
    assert (s + [v])[..|s|] == s;
  }

  lemma {:induction false} RunConcat(c: bv32, s: Data, t: Data)
    ensures Run(c, s + t) == Run(Run(c, s), t)
  {
    hide Step;
    if t == [] {
      assert s + t == s;
    } else {
      var n := |t| - 1;
      RunConcat(c, s, t[..n]);
      assert s + t == (s + t[..n]) + [t[n]];
      RunSnoc(c, s + t[..n], t[n]);
    }
  }

  function XorData(s: Data, t: Data): (r: Data)
    requires |s| == |t|
    ensures |r| == |s| && forall i :: 0 <= i < |s| ==> r[i] == s[i] ^ t[i]
  {
    seq(|s|, i requires 0 <= i < |s| == |t| => s[i] ^ t[i])
  }

  /** The checksum is linear. */
  lemma {:induction false} RunLinear(a: bv32, b: bv32, s: Data, t: Data)
    requires |s| == |t|
    ensures Run(Xor(a, b), XorData(s, t)) == Xor(Run(a, s), Run(b, t))
  {
    if s != [] {
      hide Step, Xor, Word;
      var n := |s| - 1;
      RunLinear(a, b, s[..n], t[..n]);
      assert XorData(s, t)[..n] == XorData(s[..n], t[..n]);
      StepLinear(Run(a, s[..n]), Run(b, t[..n]), Word(s[n]), Word(t[n]));
      WordXor(s[n], t[n]);
    }
  }

  lemma {:induction false} RunRange(c: bv32, s: Data)
    requires c < 0x4000_0000
    ensures Run(c, s) < 0x4000_0000
  {
    if s != [] {
      hide Step;
      var n := |s| - 1;
      RunRange(c, s[..n]);
      StepRange(Run(c, s[..n]), Word(s[n]));
    }
  }

  ghost predicate AllZero(s: Data) {
    forall i :: 0 <= i < |s| ==> s[i] == 0
  }

  /** Zero symbols never hide a difference, however many. */
  lemma {:induction false} ZerosKeepNonZero(c: bv32, s: Data)
    requires 0 < c < 0x4000_0000 && AllZero(s)
    ensures 0 < Run(c, s) < 0x4000_0000
  {
    if s != [] {
      hide Step, Word;
      var n := |s| - 1;
      ZerosKeepNonZero(c, s[..n]);
      WordXor(0, 0);
      StepNonZero(Run(c, s[..n]));
    }
  }

  lemma {:induction false} ZerosFromZero(s: Data)
    requires AllZero(s)
    ensures Run(0, s) == 0
  {
    if s != [] {
      ZerosFromZero(s[..|s| - 1]);
    }
  }

  // ----- six symbols -----

  /** Room for `k` symbols. */
  ghost predicate Fits(c: bv32, k: nat) {
    if k == 0 then c == 0
    else if k == 1 then c < 0x20
    else if k == 2 then c < 0x400
    else if k == 3 then c < 0x8000
    else if k == 4 then c < 0x10_0000
    else if k == 5 then c < 0x200_0000
    else c < 0x4000_0000
  }

  lemma ShiftIn(c: bv32, v: bv32, k: nat)
    requires k < 6 && Fits(c, k) && v < 32
    ensures Fits(Xor(Up(c), v), k + 1) && c < 0x200_0000
    ensures Xor(Up(c), v) == 0 <==> c == 0 && v == 0
  {
  }

  /** Up to six symbols are just lined up: they leave zero only if they are all zero. */
  lemma {:induction false} SixSymbols(s: Data)
    requires |s| <= 6
    ensures Fits(Run(0, s), |s|) && (Run(0, s) == 0 ==> AllZero(s))
  {
    if s != [] {
      hide Step, Word, Fits, Xor, Up;
      var n := |s| - 1;
      SixSymbols(s[..n]);
      ShiftIn(Run(0, s[..n]), Word(s[n]), n);
      StepShift(Run(0, s[..n]), Word(s[n]));
      WordZero(s[n]);
    }
  }

  lemma WordZero(v: Symbol)
    ensures Word(v) == 0 <==> v == 0
  {
  }

  /** A difference within six neighbouring symbols changes the checksum, whatever comes before and after. */
  lemma BurstDetected(c: bv32, p: Data, a: Data, b: Data, q: Data)
    requires c < 0x4000_0000 && |a| == |b| <= 6 && a != b
    ensures Run(c, p + a + q) != Run(c, p + b + q)
  {
    hide Step, Xor, Run;
    var (s, t) := (p + a + q, p + b + q);
    RunLinear(c, c, s, t);
    XorLaws(c, c);
    var (zp, d, zq) := (XorData(p, p), XorData(a, b), XorData(q, q));
    SelfXor(p);
    SelfXor(q);
    XorParts(p, a, b, q);
    hide XorData;
    RunConcat(0, zp + d, zq);
    RunConcat(0, zp, d);
    ZerosFromZero(zp);
    SixSymbols(d);
    NotAllZero(a, b);
    InRange(Run(0, d), |d|);
    ZerosKeepNonZero(Run(0, d), zq);
    XorLaws(Run(c, s), Run(c, t));
  }

  lemma XorParts(p: Data, a: Data, b: Data, q: Data)
    requires |a| == |b|
    ensures XorData(p + a + q, p + b + q) == XorData(p, p) + XorData(a, b) + XorData(q, q)
  {
  }

  lemma SelfXor(s: Data)
    ensures AllZero(XorData(s, s))
  {
  }

  lemma NotAllZero(a: Data, b: Data)
    requires |a| == |b| && a != b
    ensures !AllZero(XorData(a, b))
  {
    if AllZero(XorData(a, b)) {
      forall i | 0 <= i < |a| ensures a[i] == b[i] {
        WordXor(a[i], b[i]);
        assert XorData(a, b)[i] == 0;
      }
    }
  }

  lemma InRange(c: bv32, k: nat)
    requires Fits(c, k)
    ensures c < 0x4000_0000
  {
  }

  /** A five-bit group of a checksum state, the highest first. */
  function Group(m: bv32, i: nat): Symbol
    requires i < 6
  {
    LowGroup(Prefix(m, i + 1))
  }

  function LowGroup(x: bv32): Symbol {
    (x & 31) as bv5
  }

  function Down(x: bv32): bv32 {
    x >> 5
  }

  lemma Recombine(x: bv32)
    requires x < 0x4000_0000
    ensures Down(x) < 0x200_0000 && Xor(Up(Down(x)), Word(LowGroup(x))) == x
  {
  }

  /** The highest `k` groups: a shift by five bits for each of the others. */
  function Prefix(m: bv32, k: nat): bv32
    requires k <= 6
    decreases 6 - k
  {
    if k == 6 then m else Down(Prefix(m, k + 1))
  }

  lemma PrefixStep(m: bv32, k: nat)
    requires k < 6 && m < 0x4000_0000
    ensures Prefix(m, k) < 0x200_0000 && Xor(Up(Prefix(m, k)), Word(Group(m, k))) == Prefix(m, k + 1)
  {
    hide Up, Xor, Word, LowGroup, Prefix, Down;
    PrefixDown(m, k);
    Recombine(Prefix(m, k + 1));
  }

  lemma {:induction false} PrefixDown(m: bv32, k: nat)
    requires k < 6 && m < 0x4000_0000
    ensures Prefix(m, k) == Down(Prefix(m, k + 1)) && Prefix(m, k + 1) < 0x4000_0000
    decreases 6 - k
  {
    hide Down;
    if k < 5 {
      PrefixDown(m, k + 1);
      DownSmaller(Prefix(m, k + 2));
    }
  }

  lemma DownSmaller(x: bv32)
    requires x < 0x4000_0000
    ensures Down(x) < 0x200_0000
  {
  }

  lemma FiveShifts(x: bv32)
    requires x < 0x4000_0000
    ensures Down(Down(Down(Down(Down(Down(x)))))) == 0
  {
    assert Down(Down(x)) == x >> 10;
    assert Down(Down(Down(x))) == x >> 15;
    assert Down(Down(Down(Down(x)))) == x >> 20;
    assert Down(Down(Down(Down(Down(x))))) == x >> 25;
  }

  function Groups(m: bv32): (r: Data)
    ensures |r| == 6 && forall i :: 0 <= i < 6 ==> r[i] == Group(m, i)
  {
    seq(6, i requires 0 <= i < 6 => Group(m, i))
  }

  lemma {:induction false} GroupsLineUp(m: bv32, k: nat)
    requires m < 0x4000_0000 && k <= 6
    ensures Run(0, Groups(m)[..k]) == Prefix(m, k)
  {
    hide Step, Xor, Up, Word, Group, Prefix;
    if k == 0 {
      NoPrefix(m);
    } else {
      var s := Groups(m);
      GroupsLineUp(m, k - 1);
      assert s[..k] == s[..k - 1] + [s[k - 1]];
      RunSnoc(0, s[..k - 1], s[k - 1]);
      PrefixStep(m, k - 1);
      StepShift(Prefix(m, k - 1), Word(Group(m, k - 1)));
    }
  }

  lemma NoPrefix(m: bv32)
    requires m < 0x4000_0000
    ensures Prefix(m, 0) == 0
  {
    hide Down;
    assert Prefix(m, 5) == Down(m);
    assert Prefix(m, 3) == Down(Down(Prefix(m, 5)));
    assert Prefix(m, 1) == Down(Down(Prefix(m, 3)));
    assert Prefix(m, 0) == Down(Prefix(m, 1));
    FiveShifts(m);
  }

  // ----- checksums of strings -----

  datatype Option<T> = None | Some(value: T)

  /** The part before the separator as symbols: the high bits of all characters, a zero, the low bits. */
  function Expanded(hrp: string): (r: Data)
    ensures |r| == 2 * |hrp| + 1
  {
    seq(|hrp|, i requires 0 <= i < |hrp| => HighBits(hrp[i])) + [0] + seq(|hrp|, i requires 0 <= i < |hrp| => LowBits(hrp[i]))
  }

  function HighBits(c: char): Symbol {
    (c as int / 32 % 8) as bv5
  }

  function LowBits(c: char): Symbol {
    (c as int % 32) as bv5
  }

  method ExpandHRP(hrp: string) returns (ret: Data)
    ensures ret == Expanded(hrp)
  {
    hide HighBits, LowBits;
    var n := |hrp|;
    ret := seq(n * 2 + 1, _ => 0);
    var i := 0;
    while i < n
      invariant 0 <= i <= n && |ret| == 2 * n + 1 && ret[n] == 0
      invariant forall k :: 0 <= k < i ==> ret[k] == HighBits(hrp[k]) && ret[k + n + 1] == LowBits(hrp[k])
    {
      ret := ret[i := HighBits(hrp[i])];
      ret := ret[i + n + 1 := LowBits(hrp[i])];
      i := i + 1;
    }
    ret := ret[n := 0];
    forall k | 0 <= k < |ret| ensures ret[k] == Expanded(hrp)[k] {
      if k > n {
        assert ret[k] == LowBits(hrp[k - n - 1]);
      }
    }
  }

  method PolyMod(v: Data) returns (c: bv32)
    ensures c == Run(1, v)
  {
    hide Step;
    c := 1;
    var i := 0;
    while i < |v|
      invariant 0 <= i <= |v| && c == Run(1, v[..i])
    {
      assert v[..i + 1] == v[..i] + [v[i]];
      RunSnoc(1, v[..i], v[i]);
      c := AddSymbol(c, v[i]);
      i := i + 1;
    }
    assert v[..i] == v;
  }

  /** The body of the loop of `PolyMod`. */
  method AddSymbol(c: bv32, v: Symbol) returns (r: bv32)
    ensures r == Step(c, Word(v))
  {
    hide Xor, Shifted, Top, Word;
    var c0 := Top(c);
    r := Xor(Shifted(c), Word(v));
    RegroupSix(r, Term(c0, 1, 0x3b6a57b2), Term(c0, 2, 0x26508e6d), Term(c0, 4, 0x1ea119fa), Term(c0, 8, 0x3d4233dd),
               Term(c0, 16, 0x2a1462b3));
    XorLaws(r, 0);
    if c0 & 1 != 0 {
      r := Xor(r, 0x3b6a57b2);
    }
    XorLaws(r, 0);
    if c0 & 2 != 0 {
      r := Xor(r, 0x26508e6d);
    }
    XorLaws(r, 0);
    if c0 & 4 != 0 {
      r := Xor(r, 0x1ea119fa);
    }
    XorLaws(r, 0);
    if c0 & 8 != 0 {
      r := Xor(r, 0x3d4233dd);
    }
    XorLaws(r, 0);
    if c0 & 16 != 0 {
      r := Xor(r, 0x2a1462b3);
    }
  }

  lemma RegroupSix(s: bv32, a: bv32, b: bv32, c: bv32, d: bv32, e: bv32)
    ensures Xor(Xor(Xor(Xor(Xor(s, a), b), c), d), e) == Xor(s, Xor(Xor(Xor(Xor(a, b), c), d), e))
  {
    hide Xor;
    XorAssoc(s, a, b);
    XorAssoc(s, Xor(a, b), c);
    XorAssoc(s, Xor(Xor(a, b), c), d);
    XorAssoc(s, Xor(Xor(Xor(a, b), c), d), e);
  }

  ghost predicate ChecksumOk(hrp: string, values: Data) {
    Run(1, Expanded(hrp) + values) == 1
  }

  method VerifyChecksum(hrp: string, values: Data) returns (r: bool)
    ensures r == ChecksumOk(hrp, values)
  {
    var e := ExpandHRP(hrp);
    var c := PolyMod(e + values);
    r := c == 1;
  }

  const SIX_ZEROES: Data := [0, 0, 0, 0, 0, 0]

  /** Six symbols that complete a list to one with a valid checksum. */
  method CreateChecksum(hrp: string, values: Data) returns (ret: Data)
    ensures |ret| == 6 && ChecksumOk(hrp, values + ret)
    ensures forall other: Data :: |other| == 6 && ChecksumOk(hrp, values + other) ==> other == ret
  {
    hide Run, Expanded, ChecksumOk, Group, Xor;
    var e := ExpandHRP(hrp);
    var enc := e + values + SIX_ZEROES;
    var c := PolyMod(enc);
    var mod := Xor(c, 1);
    ret := SIX_ZEROES;
    var i := 0;
    while i < 6
      invariant 0 <= i <= 6 && |ret| == 6 && forall k :: 0 <= k < i ==> ret[k] == Group(mod, k)
    {
      ret := ret[i := Group(mod, i)];
      i := i + 1;
    }
    assert ret == Groups(mod);
    ChecksumCompletes(hrp, values);
    forall other: Data | |other| == 6 && ChecksumOk(hrp, values + other) ensures other == ret {
      ChecksumUnique(hrp, values, other, ret);
    }
  }

  lemma ChecksumCompletes(hrp: string, values: Data)
    ensures ChecksumOk(hrp, values + Groups(Xor(Run(1, Expanded(hrp) + values + SIX_ZEROES), 1)))
  {
    hide Step, Run, Xor, Groups, Expanded;
    var e := Expanded(hrp) + values;
    var c := Run(1, e);
    var m := Run(1, e + SIX_ZEROES);
    RunRange(1, e + SIX_ZEROES);
    OneBit(m);
    var sum := Groups(Xor(m, 1));
    assert Expanded(hrp) + (values + sum) == e + sum;
    RunConcat(1, e, SIX_ZEROES);
    RunConcat(1, e, sum);
    RunLinear(c, 0, SIX_ZEROES, sum);
    XorZeros(sum);
    XorLaws(c, 0);
    GroupsLineUp(Xor(m, 1), 6);
    assert sum[..6] == sum;
    WholePrefix(Xor(m, 1));
  }

  lemma OneBit(m: bv32)
    requires m < 0x4000_0000
    ensures Xor(m, 1) < 0x4000_0000 && Xor(m, Xor(m, 1)) == 1
  {
  }

  lemma WholePrefix(m: bv32)
    ensures Prefix(m, 6) == m
  {
  }

  lemma XorZeros(s: Data)
    requires |s| == 6
    ensures XorData(SIX_ZEROES, s) == s
  {
    forall i | 0 <= i < 6 ensures SIX_ZEROES[i] ^ s[i] == s[i] {
      ZeroXor(s[i]);
    }
  }

  lemma ZeroXor(v: Symbol)
    ensures 0 ^ v == v
  {
  }

  /** No two checksums fit the same list. */
  lemma ChecksumUnique(hrp: string, values: Data, a: Data, b: Data)
    requires |a| == |b| == 6 && ChecksumOk(hrp, values + a) && ChecksumOk(hrp, values + b)
    ensures a == b
  {
    hide Run, Expanded;
    assert Expanded(hrp) + (values + a) == Expanded(hrp) + values + a + [];
    assert Expanded(hrp) + (values + b) == Expanded(hrp) + values + b + [];
    if a != b {
      BurstDetected(1, Expanded(hrp) + values, a, b, []);
    }
  }

  /** Lists of the same length that differ, but only within six neighbouring symbols, are not both valid; in particular a single
      wrong symbol is always found. */
  lemma ErrorsDetected(hrp: string, x: Data, y: Data, from: nat)
    requires |x| == |y| && x != y && from <= |x|
    requires forall i :: 0 <= i < |x| && x[i] != y[i] ==> from <= i < from + 6
    ensures !(ChecksumOk(hrp, x) && ChecksumOk(hrp, y))
  {
    hide Run, Expanded;
    var to := if from + 6 <= |x| then from + 6 else |x|;
    var (p, a, b, q) := (x[..from], x[from..to], y[from..to], x[to..]);
    OnlyInside(x, y, from, to);
    var e := Expanded(hrp);
    BurstDetected(1, e + p, a, b, q);
    Regroup(e, p, a, q);
    Regroup(e, p, b, q);
  }

  lemma OnlyInside(x: Data, y: Data, from: nat, to: nat)
    requires from <= to <= |x| == |y| && forall i :: 0 <= i < |x| && x[i] != y[i] ==> from <= i < to
    ensures x == x[..from] + x[from..to] + x[to..] && y == x[..from] + y[from..to] + x[to..]
  {
  }

  lemma Regroup(e: Data, p: Data, a: Data, q: Data)
    ensures e + (p + a + q) == e + p + a + q
  {
  }

  // ----- characters -----

  function CharOf(v: Symbol): char {
    if v == 0 then 'q' else if v == 1 then 'p' else if v == 2 then 'z' else if v == 3 then 'r' else if v == 4 then 'y' else
    if v == 5 then '9' else if v == 6 then 'x' else if v == 7 then '8' else if v == 8 then 'g' else if v == 9 then 'f' else
    if v == 10 then '2' else if v == 11 then 't' else if v == 12 then 'v' else if v == 13 then 'd' else if v == 14 then 'w' else
    if v == 15 then '0' else if v == 16 then 's' else if v == 17 then '3' else if v == 18 then 'j' else if v == 19 then 'n' else
    if v == 20 then '5' else if v == 21 then '4' else if v == 22 then 'k' else if v == 23 then 'h' else if v == 24 then 'c' else
    if v == 25 then 'e' else if v == 26 then '6' else if v == 27 then 'm' else if v == 28 then 'u' else if v == 29 then 'a' else
    if v == 30 then '7' else
    'l'
  }

  function LowerCase(c: char): char {
    if 'A' <= c <= 'Z' then ((c as int) - 65 + 97) as char else c
  }

  /** The symbol of a character in either case. */
  function SymbolOf(c: char): Option<Symbol> {
    SymbolOfSmall(LowerCase(c))
  }

  function SymbolOfSmall(l: char): Option<Symbol> {
    if l == 'q' then Some(0) else if l == 'p' then Some(1) else if l == 'z' then Some(2) else if l == 'r' then Some(3) else
    if l == 'y' then Some(4) else if l == '9' then Some(5) else if l == 'x' then Some(6) else if l == '8' then Some(7) else
    if l == 'g' then Some(8) else if l == 'f' then Some(9) else if l == '2' then Some(10) else if l == 't' then Some(11) else
    if l == 'v' then Some(12) else if l == 'd' then Some(13) else if l == 'w' then Some(14) else if l == '0' then Some(15) else
    if l == 's' then Some(16) else if l == '3' then Some(17) else if l == 'j' then Some(18) else if l == 'n' then Some(19) else
    if l == '5' then Some(20) else if l == '4' then Some(21) else if l == 'k' then Some(22) else if l == 'h' then Some(23) else
    if l == 'c' then Some(24) else if l == 'e' then Some(25) else if l == '6' then Some(26) else if l == 'm' then Some(27) else
    if l == 'u' then Some(28) else if l == 'a' then Some(29) else if l == '7' then Some(30) else if l == 'l' then Some(31) else
    None
  }

  lemma CharSymbol(v: Symbol)
    ensures SymbolOf(CharOf(v)) == Some(v)
  {
    CharPlain(v);
    LowerPlain(CharOf(v));
    hide LowerCase, SymbolOfSmall, CharOf;
    CharSymbolSmall(v);
  }

  lemma CharSymbolSmall(v: Symbol)
    ensures SymbolOfSmall(CharOf(v)) == Some(v)
  {
    if v < 8 {
    } else if v < 16 {
    } else if v < 24 {
    }
  }

  lemma LowerPlain(c: char)
    ensures !('A' <= c <= 'Z') ==> LowerCase(c) == c
    ensures 'A' <= c <= 'Z' ==> LowerCase(c) != c
  {
  }

  lemma CharPlain(v: Symbol)
    ensures CharOf(v) != '1' && !('A' <= CharOf(v) <= 'Z') && 33 <= CharOf(v) as int <= 126
  {
  }

  // ----- encoding -----

  ghost function Text(v: Data): (r: string)
    ensures |r| == |v| && forall i :: 0 <= i < |v| ==> r[i] == CharOf(v[i])
  {
    seq(|v|, i requires 0 <= i < |v| => CharOf(v[i]))
  }

  /** A string with a valid checksum for the given readable part and values. */
  method Encode(hrp: string, values: Data) returns (ret: string, ghost checksum: Data)
    ensures |checksum| == 6 && ChecksumOk(hrp, values + checksum)
    ensures ret == hrp + "1" + Text(values + checksum)
  {
    hide CharOf, ChecksumOk;
    var sum := CreateChecksum(hrp, values);
    checksum := sum;
    var combined := values + sum;
    ret := hrp + "1";
    var i := 0;
    while i < |combined|
      invariant 0 <= i <= |combined| && ret == hrp + "1" + Text(combined[..i])
    {
      assert combined[..i + 1] == combined[..i] + [combined[i]];
      assert Text(combined[..i + 1]) == Text(combined[..i]) + [CharOf(combined[i])];
      ret := ret + [CharOf(combined[i])];
      i := i + 1;
    }
    assert combined[..i] == combined;
  }

  // ----- decoding -----

  predicate Upper(c: char) {
    'A' <= c <= 'Z'
  }

  predicate Lower(c: char) {
    'a' <= c <= 'z'
  }

  predicate Printable(c: char) {
    33 <= c as int <= 126
  }

  /** All characters printable, and letters of one case only. */
  ghost predicate CaseOk(s: string) {
    && (forall i :: 0 <= i < |s| ==> Printable(s[i]))
    && !((exists i :: 0 <= i < |s| && Lower(s[i])) && (exists i :: 0 <= i < |s| && Upper(s[i])))
  }

  /** The last separator, or -1. */
  function RFind(s: string, n: nat): (r: int)
    requires n <= |s|
    ensures -1 <= r < n && (r >= 0 ==> s[r] == '1') && forall i :: r < i < n ==> s[i] != '1'
  {
    if n == 0 then -1 else if s[n - 1] == '1' then n - 1 else RFind(s, n - 1)
  }

  ghost predicate AllSymbols(s: string) {
    forall i :: 0 <= i < |s| ==> SymbolOf(s[i]).Some?
  }

  ghost function SymbolsOf(s: string): (r: Data)
    requires AllSymbols(s)
    ensures |r| == |s| && forall i :: 0 <= i < |s| ==> r[i] == SymbolOf(s[i]).value
  {
    seq(|s|, i requires 0 <= i < |s| && AllSymbols(s) => SymbolOf(s[i]).value)
  }

  ghost function Lowered(s: string): (r: string)
    ensures |r| == |s| && forall i :: 0 <= i < |s| ==> r[i] == LowerCase(s[i])
  {
    seq(|s|, i requires 0 <= i < |s| => LowerCase(s[i]))
  }

  /** The readable part in lower case and the values without the checksum, for a well-formed string. */
  ghost function Decoded(s: string): Option<(string, Data)> {
    var pos := RFind(s, |s|);
    if !CaseOk(s) || |s| > 90 || pos <= 0 || pos + 7 > |s| || !AllSymbols(s[pos + 1..]) then None
    else
      var values := SymbolsOf(s[pos + 1..]);
      if !ChecksumOk(Lowered(s[..pos]), values) then None
      else Some((Lowered(s[..pos]), values[..|values| - 6]))
  }

  method CheckCase(s: string) returns (ok: bool)
    ensures ok == CaseOk(s)
  {
    var lower, upper := false, false;
    var i := 0;
    while i < |s|
      invariant 0 <= i <= |s|
      invariant forall k :: 0 <= k < i ==> Printable(s[k])
      invariant lower <==> exists k :: 0 <= k < i && Lower(s[k])
      invariant upper <==> exists k :: 0 <= k < i && Upper(s[k])
    {
      var c := s[i];
      if 'a' <= c <= 'z' {
        lower := true;
      } else if 'A' <= c <= 'Z' {
        upper := true;
      } else if c as int < 33 || c as int > 126 {
        assert !Printable(s[i]);
        return false;
      }
      i := i + 1;
    }
    return !(lower && upper);
  }

  method Decode(s: string) returns (r: Option<(string, Data)>)
    ensures r == Decoded(s)
  {
    hide CaseOk, SymbolOf, LowerCase, ChecksumOk, RFind;
    var ok := CheckCase(s);
    if !ok {
      return None;
    }
    var pos := RFind(s, |s|);
    if |s| > 90 || pos == -1 || pos == 0 || pos + 7 > |s| {
      return None;
    }
    var n := |s| - 1 - pos;
    ghost var w := s[pos + 1..];
    var values: Data := seq(n, _ => 0);
    var i := 0;
    while i < n
      invariant 0 <= i <= n && |values| == n
      invariant forall k :: 0 <= k < i ==> SymbolOf(w[k]) == Some(values[k])
    {
      var rev := SymbolOf(s[i + pos + 1]);
      assert w[i] == s[i + pos + 1];
      if rev.None? {
        return None;
      }
      values := values[i := rev.value];
      i := i + 1;
    }
    assert values == SymbolsOf(w);
    var hrp := ToLower(s[..pos]);
    ok := VerifyChecksum(hrp, values);
    if !ok {
      return None;
    }
    return Some((hrp, values[..|values| - 6]));
  }

  method ToLower(s: string) returns (r: string)
    ensures r == Lowered(s)
  {
    hide LowerCase;
    r := "";
    var i := 0;
    while i < |s|
      invariant 0 <= i <= |s| && |r| == i && forall k :: 0 <= k < i ==> r[k] == LowerCase(s[k])
    {
      r := r + [LowerCase(s[i])];
      i := i + 1;
    }
  }

  // ----- round trip -----

  /** Within the limits: a nonempty printable readable part without capitals, and at most ninety characters in all. */
  ghost predicate Limits(hrp: string, values: Data) {
    && hrp != "" && |hrp| + 7 + |values| <= 90
    && forall i :: 0 <= i < |hrp| ==> Printable(hrp[i]) && !Upper(hrp[i])
  }

  lemma TextDecodes(v: Data)
    ensures AllSymbols(Text(v)) && SymbolsOf(Text(v)) == v
  {
    hide SymbolOf, CharOf;
    forall i | 0 <= i < |v| ensures SymbolOf(Text(v)[i]) == Some(v[i]) {
      CharSymbol(v[i]);
    }
  }

  lemma LastSeparator(hrp: string, v: Data)
    ensures var s := hrp + "1" + Text(v); RFind(s, |s|) == |hrp|
  {
    hide RFind, CharOf;
    var s := hrp + "1" + Text(v);
    var r := RFind(s, |s|);
    assert s[|hrp|] == '1';
    forall i | |hrp| < i < |s| ensures s[i] != '1' {
      assert s[i] == Text(v)[i - |hrp| - 1];
      CharPlain(v[i - |hrp| - 1]);
    }
  }

  lemma EncodedCase(hrp: string, v: Data)
    requires forall i :: 0 <= i < |hrp| ==> Printable(hrp[i]) && !Upper(hrp[i])
    ensures CaseOk(hrp + "1" + Text(v))
  {
    hide CharOf;
    var s := hrp + "1" + Text(v);
    forall i | 0 <= i < |s| ensures Printable(s[i]) && !Upper(s[i]) {
      if i > |hrp| {
        assert s[i] == Text(v)[i - |hrp| - 1];
        CharPlain(v[i - |hrp| - 1]);
      }
    }
  }

  lemma LoweredSame(s: string)
    ensures Lowered(s) == s <==> forall i :: 0 <= i < |s| ==> !Upper(s[i])
  {
    hide LowerCase;
    forall i | 0 <= i < |s| ensures LowerCase(s[i]) == s[i] <==> !Upper(s[i]) {
      LowerPlain(s[i]);
    }
    if Lowered(s) == s {
      forall i | 0 <= i < |s| ensures !Upper(s[i]) {
        assert Lowered(s)[i] == s[i];
      }
    }
  }

  /** Decoding what was encoded gives back the readable part and the values exactly when they are within the limits. */
  lemma DecodeEncode(hrp: string, values: Data, checksum: Data)
    requires |checksum| == 6 && ChecksumOk(hrp, values + checksum)
    ensures Decoded(hrp + "1" + Text(values + checksum)) == Some((hrp, values)) <==> Limits(hrp, values)
  {
    hide SymbolOf, CharOf, LowerCase, ChecksumOk, RFind;
    var v := values + checksum;
    var s := hrp + "1" + Text(v);
    LastSeparator(hrp, v);
    TextDecodes(v);
    LoweredSame(hrp);
    assert s[..|hrp|] == hrp && s[|hrp| + 1..] == Text(v);
    assert v[..|v| - 6] == values;
    if Limits(hrp, values) {
      EncodedCase(hrp, v);
    }
    forall i | 0 <= i < |hrp| && CaseOk(s) ensures Printable(hrp[i]) {
      assert s[i] == hrp[i];
    }
  }

  method EncodeThenDecode(hrp: string, values: Data) returns (r: Option<(string, Data)>)
    ensures r == Some((hrp, values)) <==> Limits(hrp, values)
  {
    hide Decoded, Limits, ChecksumOk;
    var s, checksum := Encode(hrp, values);
    r := Decode(s);
    DecodeEncode(hrp, values, checksum);
  }

  lemma SymbolCharSmall(l: char)
    ensures SymbolOfSmall(l).Some? ==> CharOf(SymbolOfSmall(l).value) == l
  {
  }

  lemma SymbolChar(c: char)
    ensures SymbolOf(c).Some? ==> CharOf(SymbolOf(c).value) == LowerCase(c)
  {
    hide SymbolOfSmall, CharOf, LowerCase;
    SymbolCharSmall(LowerCase(c));
  }

  /** The symbols of a text stand for the text in lower case. */
  lemma SymbolsAsText(w: string)
    requires AllSymbols(w)
    ensures Text(SymbolsOf(w)) == Lowered(w)
  {
    hide SymbolOf, CharOf, LowerCase;
    forall i | 0 <= i < |w|
      ensures CharOf(SymbolOf(w[i]).value) == LowerCase(w[i])
    {
      SymbolChar(w[i]);
    }
  }

  lemma LoweredParts(s: string, pos: nat)
    requires pos < |s| && s[pos] == '1'
    ensures Lowered(s) == Lowered(s[..pos]) + "1" + Lowered(s[pos + 1..])
  {
    hide LowerCase;
    LowerPlain('1');
  }

  /** Lowering leaves printable characters printable, and no capitals. */
  lemma LoweredPlain(s: string)
    requires forall i :: 0 <= i < |s| ==> Printable(s[i])
    ensures forall i :: 0 <= i < |Lowered(s)| ==> Printable(Lowered(s)[i]) && !Upper(Lowered(s)[i])
  {
  }

  /** Whatever decodes is, in lower case, the encoding of what it decodes to, and within the limits. */
  lemma EncodeDecode(s: string) returns (checksum: Data)
    requires Decoded(s).Some?
    ensures var (hrp, values) := Decoded(s).value;
            && Limits(hrp, values) && |checksum| == 6 && ChecksumOk(hrp, values + checksum)
            && Lowered(s) == hrp + "1" + Text(values + checksum)
  {
    hide SymbolOf, CharOf, LowerCase, ChecksumOk, RFind, Printable, Upper, Lower;
    var pos := RFind(s, |s|);
    var v := SymbolsOf(s[pos + 1..]);
    checksum := v[|v| - 6..];
    assert v[..|v| - 6] + checksum == v;
    SymbolsAsText(s[pos + 1..]);
    LoweredParts(s, pos);
    LoweredPlain(s[..pos]);
  }

  method DecodeThenEncode(s: string) returns (r: Option<string>)
    ensures r == if Decoded(s).Some? then Some(Lowered(s)) else None
  {
    hide Decoded, Limits, ChecksumOk, Text, Lowered;
    var d := Decode(s);
    if d.None? {
      return None;
    }
    ghost var given := EncodeDecode(s);
    var t, checksum := Encode(d.value.0, d.value.1);
    ChecksumUnique(d.value.0, d.value.1, given, checksum);
    return Some(t);
  }
}
