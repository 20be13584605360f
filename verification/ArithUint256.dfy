/**
  Unsigned integers of a fixed number of 32-bit limbs, least significant limb first, updated in place, and the compact format
  for difficulty targets. A machine word is a number below its modulus, so truncation, shifts and masks are written out.
 */
module ArithUint256 {

  import opened Numbers

  const B: nat := 0x1_0000_0000

  /** One limb, a 32-bit word. */
  type Limb = x: int | 0 <= x < B

  /** The weight of limb `i`. */
  function Place(i: nat): (r: nat)
    ensures r > 0
  {
    Pow(B, i)
  }

  lemma PlaceStep(i: nat)
    ensures Place(0) == 1 && Place(i + 1) == B * Place(i)
  {
    PowStep(B, i);
  }

  /** The number that limbs stand for. */
  function Value(s: seq<Limb>): nat {
    if s == [] then 0 else Value(s[..|s| - 1]) + s[|s| - 1] * Place(|s| - 1)
  }

  lemma Snoc(s: seq<Limb>, i: nat)
    requires i < |s|
    ensures Value(s[..i + 1]) == Value(s[..i]) + s[i] * Place(i)
  {
    assert s[..i + 1][..i] == s[..i];
  }

  lemma {:induction false} Bound(s: seq<Limb>)
    ensures Value(s) < Place(|s|)
  {
    hide Place;
    if s == [] {
      PlaceStep(0);
    } else {
      var n := |s| - 1;
      Bound(s[..n]);
      PlaceStep(n);
      var x: int := s[n];
      MulMono(Place(n), x + 1, B);
      assert Place(n) * (x + 1) == x * Place(n) + Place(n);
    }
  }

  /** Changing one limb changes the number by the difference at its place. */
  lemma {:induction false} Update(s: seq<Limb>, i: nat, x: Limb)
    requires i < |s|
    ensures Value(s[i := x]) == Value(s) + (x - s[i]) * Place(i)
  {
    hide Place;
    var n := |s| - 1;
    if i == n {
      assert s[i := x][..n] == s[..n];
      assert (x - s[i]) * Place(i) == x * Place(i) - s[i] * Place(i);
    } else {
      Update(s[..n], i, x);
      assert s[i := x][..n] == s[..n][i := x];
    }
  }

  lemma {:induction false} ZeroValue(s: seq<Limb>)
    requires forall i :: 0 <= i < |s| ==> s[i] == 0
    ensures Value(s) == 0
  {
    if s != [] {
      ZeroValue(s[..|s| - 1]);
    }
  }

  lemma {:induction false} Split(s: seq<Limb>, k: nat)
    requires k <= |s|
    ensures Value(s) == Value(s[..k]) + Place(k) * Value(s[k..])
  {
    hide Place;
    if k == |s| {
      assert s[..k] == s && s[k..] == [];
    } else {
      var n := |s| - 1;
      Split(s[..n], k);
      assert s[..n][..k] == s[..k] && s[..n][k..] == s[k..][..n - k];
      Snoc(s[k..], n - k);
      assert s[k..][..n - k + 1] == s[k..];
      assert Place(n) == Place(k) * Place(n - k) by { PlaceAdd(k, n - k); }
      SplitStep(Place(k), Value(s[k..][..n - k]), s[n], Place(n - k));
    }
  }

  lemma SplitStep(p: int, v: int, x: int, q: int)
    ensures p * (v + x * q) == p * v + x * (p * q)
  {
    MulAssoc(p, x, q);
    MulAssoc(x, p, q);
    assert p * x == x * p;
  }

  lemma PlaceAdd(i: nat, j: nat)
    ensures Place(i + j) == Place(i) * Place(j)
  {
    PowAdd(B, i, j);
  }

  /** A word of any size splits into the limb kept and the carry. */
  lemma Carry(n: nat, place: nat)
    ensures (n % B) * place + (n / B) * (B * place) == n * place
  {
    assert n == B * (n / B) + n % B;
    MulAssoc(n / B, B, place);
    assert (B * (n / B) + n % B) * place == (B * (n / B)) * place + (n % B) * place;
  }

  // ----- addition, complement, negation -----

  /** `a += b`; the two may be the same. */
  method AddAssign(a: array<Limb>, b: array<Limb>)
    requires a.Length == b.Length
    modifies a
    ensures Value(a[..]) == (old(Value(a[..])) + old(Value(b[..]))) % Place(a.Length)
  {
    hide Place, Value;
    ghost var (x, y) := (a[..], b[..]);
    var carry := 0;
    var i := 0;
    AddStart(x, y, a[..]);
    while i < a.Length
      invariant 0 <= i <= a.Length && 0 <= carry <= 1
      invariant forall k :: i <= k < a.Length ==> a[k] == x[k] && b[k] == y[k]
      invariant Value(a[..i]) + carry * Place(i) == Value(x[..i]) + Value(y[..i])
    {
      var n := carry + a[i] + b[i];
      ghost var was := a[..i];
      a[i] := n % B;
      assert a[..i] == was;
      AddStep(x, y, a[..], i, carry, n);
      carry := n / B;
      i := i + 1;
    }
    assert a[..i] == a[..] && x[..i] == x && y[..i] == y;
    Bound(a[..]);
    DivModUnique(Value(x) + Value(y), Place(a.Length), carry, Value(a[..]));
  }

  lemma AddStart(x: seq<Limb>, y: seq<Limb>, z: seq<Limb>)
    ensures Value(z[..0]) + 0 * Place(0) == Value(x[..0]) + Value(y[..0])
  {
  }

  lemma AddStep(x: seq<Limb>, y: seq<Limb>, z: seq<Limb>, i: nat, carry: nat, n: nat)
    requires i < |x| == |y| == |z| && n == carry + x[i] + y[i] && z[i] == n % B
    requires Value(z[..i]) + carry * Place(i) == Value(x[..i]) + Value(y[..i])
    ensures Value(z[..i + 1]) + (n / B) * Place(i + 1) == Value(x[..i + 1]) + Value(y[..i + 1])
  {
    hide Place, Value;
    Snoc(x, i);
    Snoc(y, i);
    Snoc(z, i);
    PlaceStep(i);
    Carry(n, Place(i));
    assert n * Place(i) == carry * Place(i) + x[i] * Place(i) + y[i] * Place(i);
  }

  /** `~a`. */
  method Complement(a: array<Limb>) returns (r: array<Limb>)
    ensures fresh(r) && r.Length == a.Length
    ensures Value(r[..]) == Place(a.Length) - 1 - Value(a[..])
  {
    hide Place, Value;
    r := new Limb[a.Length];
    var i := 0;
    ComplementStart(a[..], r[..]);
    while i < a.Length
      invariant 0 <= i <= a.Length
      invariant Value(r[..i]) + Value(a[..i]) + 1 == Place(i)
    {
      ghost var was := r[..i];
      r[i] := B - 1 - a[i];
      assert r[..i] == was;
      ComplementStep(a[..], r[..], i);
      i := i + 1;
    }
    assert a[..i] == a[..] && r[..i] == r[..];
  }

  lemma ComplementStart(x: seq<Limb>, z: seq<Limb>)
    ensures Value(z[..0]) + Value(x[..0]) + 1 == Place(0)
  {
  }

  lemma ComplementStep(x: seq<Limb>, z: seq<Limb>, i: nat)
    requires i < |x| == |z| && z[i] == B - 1 - x[i]
    requires Value(z[..i]) + Value(x[..i]) + 1 == Place(i)
    ensures Value(z[..i + 1]) + Value(x[..i + 1]) + 1 == Place(i + 1)
  {
    hide Place, Value;
    Snoc(x, i);
    Snoc(z, i);
    PlaceStep(i);
    assert z[i] * Place(i) + x[i] * Place(i) + Place(i) == B * Place(i);
  }

  /** `++a`: limbs that wrap to zero pass the carry on. */
  method Increment(a: array<Limb>)
    modifies a
    ensures Value(a[..]) == (old(Value(a[..])) + 1) % Place(a.Length)
  {
    hide Place, Value;
    ghost var x := a[..];
    var i := 0;
    StepStart(x, a[..]);
    while i < a.Length
      invariant 0 <= i <= a.Length
      invariant forall k :: i <= k < a.Length ==> a[k] == x[k]
      invariant Value(a[..i]) + Place(i) == Value(x[..i]) + 1
    {
      ghost var was := a[..i];
      a[i] := (a[i] + 1) % B;
      assert a[..i] == was;
      IncrementStep(x, a[..], i);
      if a[i] != 0 {
        SameTail(x, a[..], i + 1);
        Bound(a[..]);
        DivModUnique(Value(x) + 1, Place(a.Length), 0, Value(a[..]));
        return;
      }
      i := i + 1;
    }
    assert a[..i] == a[..] && x[..i] == x;
    Bound(a[..]);
    DivModUnique(Value(x) + 1, Place(a.Length), 1, Value(a[..]));
  }

  lemma StepStart(x: seq<Limb>, z: seq<Limb>)
    ensures Value(z[..0]) + Place(0) == Value(x[..0]) + 1
  {
  }

  lemma SameTail(x: seq<Limb>, z: seq<Limb>, i: nat)
    requires i <= |x| == |z| && forall k :: i <= k < |x| ==> x[k] == z[k]
    ensures Value(z) - Value(z[..i]) == Value(x) - Value(x[..i])
  {
    hide Place, Value;
    Split(x, i);
    Split(z, i);
    assert x[i..] == z[i..];
  }

  lemma IncrementStep(x: seq<Limb>, z: seq<Limb>, i: nat)
    requires i < |x| == |z| && z[i] == (x[i] + 1) % B
    requires Value(z[..i]) + Place(i) == Value(x[..i]) + 1
    ensures Value(z[..i + 1]) + (if z[i] == 0 then Place(i + 1) else 0) == Value(x[..i + 1]) + 1
  {
    hide Place, Value;
    Snoc(x, i);
    Snoc(z, i);
    PlaceStep(i);
    if x[i] == B - 1 {
      assert z[i] == 0;
      assert x[i] * Place(i) + Place(i) == B * Place(i);
    } else {
      assert z[i] == x[i] + 1;
      assert z[i] * Place(i) == x[i] * Place(i) + Place(i);
    }
  }

  /** `--a`: limbs that wrap to all ones pass the borrow on. */
  method Decrement(a: array<Limb>)
    modifies a
    ensures Value(a[..]) == (old(Value(a[..])) + Place(a.Length) - 1) % Place(a.Length)
  {
    hide Place, Value;
    ghost var x := a[..];
    ghost var w := Place(a.Length);
    var i := 0;
    StepStart(a[..], x);
    while i < a.Length
      invariant 0 <= i <= a.Length
      invariant forall k :: i <= k < a.Length ==> a[k] == x[k]
      invariant Value(a[..i]) + 1 == Value(x[..i]) + Place(i)
    {
      ghost var was := a[..i];
      a[i] := if a[i] == 0 then B - 1 else a[i] - 1;
      assert a[..i] == was;
      DecrementStep(x, a[..], i);
      if a[i] != B - 1 {
        SameTail(x, a[..], i + 1);
        Bound(a[..]);
        DivModUnique(Value(x) + w - 1, w, 1, Value(a[..]));
        return;
      }
      i := i + 1;
    }
    assert a[..i] == a[..] && x[..i] == x;
    Bound(a[..]);
    DivModUnique(Value(x) + w - 1, w, 0, Value(a[..]));
  }

  lemma DecrementStep(x: seq<Limb>, z: seq<Limb>, i: nat)
    requires i < |x| == |z| && z[i] == if x[i] == 0 then B - 1 else x[i] - 1
    requires Value(z[..i]) + 1 == Value(x[..i]) + Place(i)
    ensures Value(z[..i + 1]) + 1 == Value(x[..i + 1]) + if z[i] == B - 1 then Place(i + 1) else 0
  {
    hide Place, Value;
    Snoc(x, i);
    Snoc(z, i);
    PlaceStep(i);
    if x[i] == 0 {
      assert z[i] * Place(i) + Place(i) == B * Place(i);
    } else {
      assert z[i] * Place(i) + Place(i) == x[i] * Place(i);
    }
  }

  /** `-a`: complement, then increment. */
  method Negate(a: array<Limb>) returns (r: array<Limb>)
    ensures fresh(r) && r.Length == a.Length
    ensures Value(r[..]) == (Place(a.Length) - Value(a[..])) % Place(a.Length)
  {
    hide Place, Value;
    Bound(a[..]);
    r := Complement(a);
    Increment(r);
  }

  /** `a -= b`: add the negation. */
  method SubAssign(a: array<Limb>, b: array<Limb>)
    requires a.Length == b.Length
    modifies a
    ensures Value(a[..]) == (old(Value(a[..])) - old(Value(b[..])) + Place(a.Length)) % Place(a.Length)
  {
    hide Place, Value;
    ghost var (x, y, w) := (Value(a[..]), Value(b[..]), Place(a.Length));
    Bound(a[..]);
    Bound(b[..]);
    var m := Negate(b);
    AddAssign(a, m);
    SubMod(x, y, w);
  }

  lemma SubMod(x: nat, y: nat, w: nat)
    requires x < w && y < w
    ensures (x + (w - y) % w) % w == (x - y + w) % w
  {
    if y == 0 {
      DivModUnique(w, w, 1, 0);
      DivModUnique(x + w, w, 1, x);
      DivModUnique(x, w, 0, x);
    } else {
      DivModUnique(w - y, w, 0, w - y);
    }
  }

  // ----- multiplication -----

  /** `a *= b` for one word `b`. The double word never overflows. */
  method MulWord(a: array<Limb>, b: Limb)
    modifies a
    ensures Value(a[..]) == (b * old(Value(a[..]))) % Place(a.Length)
  {
    hide Place, Value;
    ghost var x := a[..];
    var carry: nat := 0;
    var i := 0;
    MulStart(x, a[..], b);
    while i < a.Length
      invariant 0 <= i <= a.Length && carry < B
      invariant forall k :: i <= k < a.Length ==> a[k] == x[k]
      invariant Value(a[..i]) + carry * Place(i) == b * Value(x[..i])
    {
      DoubleWord(carry, 0, b, a[i]);
      var n := carry + b * a[i];
      assert n < B * B;
      ghost var was := a[..i];
      a[i] := n % B;
      assert a[..i] == was;
      MulWordStep(x, a[..], i, b, carry, n);
      carry := n / B;
      i := i + 1;
    }
    assert a[..i] == a[..] && x[..i] == x;
    Bound(a[..]);
    DivModUnique(b * Value(x), Place(a.Length), carry, Value(a[..]));
  }

  lemma MulStart(x: seq<Limb>, z: seq<Limb>, b: int)
    ensures Value(z[..0]) + 0 * Place(0) == b * Value(x[..0])
  {
  }

  lemma DoubleWord(carry: nat, old_: nat, x: Limb, y: Limb)
    requires carry < B && old_ < B
    ensures 0 <= x * y && carry + old_ + x * y < B * B && (carry + old_ + x * y) / B < B
  {
    var m: int := B - 1;
    var p: int, q: int := x, y;
    MulMono(p, q, m);
    MulMono(m, p, m);
    assert m * m == B * B - 2 * B + 1;
  }

  lemma MulWordStep(x: seq<Limb>, z: seq<Limb>, i: nat, b: nat, carry: nat, n: nat)
    requires i < |x| == |z| && n == carry + b * x[i] && z[i] == n % B
    requires Value(z[..i]) + carry * Place(i) == b * Value(x[..i])
    ensures Value(z[..i + 1]) + (n / B) * Place(i + 1) == b * Value(x[..i + 1])
  {
    hide Place, Value;
    Snoc(x, i);
    Snoc(z, i);
    PlaceStep(i);
    Carry(n, Place(i));
    var t: int := x[i];
    MulAssoc(b, t, Place(i));
    assert n * Place(i) == carry * Place(i) + (b * t) * Place(i);
    assert b * (Value(x[..i]) + t * Place(i)) == b * Value(x[..i]) + b * (t * Place(i));
  }

  /** Adds `x` times `b`, moved up by `j` limbs, into `r` and gives back what does not fit. */
  method MulRow(r: array<Limb>, b: array<Limb>, x: Limb, j: nat) returns (carry: nat)
    requires r != b && r.Length == b.Length && j < r.Length
    modifies r
    ensures Value(r[..]) + carry * Place(r.Length) == old(Value(r[..])) + x * Place(j) * Value(b[..r.Length - j])
  {
    hide Place, Value;
    ghost var z := r[..];
    carry := 0;
    var i := 0;
    RowStart(z, b[..], x, j);
    while i + j < r.Length
      invariant 0 <= i <= r.Length - j && carry < B
      invariant forall k :: i + j <= k < r.Length ==> r[k] == z[k]
      invariant Value(r[..j + i]) + carry * Place(j + i) == Value(z[..j + i]) + x * Place(j) * Value(b[..i])
    {
      DoubleWord(carry, r[i + j], x, b[i]);
      var n := carry + r[i + j] + x * b[i];
      assert n < B * B;
      ghost var was := r[..j + i];
      r[i + j] := n % B;
      assert r[..j + i] == was;
      RowStep(z, r[..], b[..], i, j, x, carry, n);
      carry := n / B;
      i := i + 1;
    }
    assert r[..j + i] == r[..] && z[..j + i] == z;
  }

  lemma RowStart(z: seq<Limb>, y: seq<Limb>, x: int, j: nat)
    requires j <= |z|
    ensures Value(z[..j]) + 0 * Place(j) == Value(z[..j]) + x * Place(j) * Value(y[..0])
  {
  }

  lemma RowStep(z: seq<Limb>, r: seq<Limb>, y: seq<Limb>, i: nat, j: nat, x: nat, carry: nat, n: nat)
    requires i + j < |z| == |r| == |y| && n == carry + z[i + j] + x * y[i] && r[i + j] == n % B
    requires Value(r[..j + i]) + carry * Place(j + i) == Value(z[..j + i]) + x * Place(j) * Value(y[..i])
    ensures Value(r[..j + i + 1]) + (n / B) * Place(j + i + 1) == Value(z[..j + i + 1]) + x * Place(j) * Value(y[..i + 1])
  {
    hide Place, Value;
    Snoc(r, j + i);
    Snoc(z, j + i);
    Snoc(y, i);
    PlaceStep(j + i);
    PlaceAdd(j, i);
    Carry(n, Place(j + i));
    RowSum(carry, z[i + j], x, y[i], Place(j), Place(i), Value(y[..i]));
  }

  lemma RowSum(carry: int, z: int, x: int, y: int, p: int, q: int, v: int)
    ensures (carry + z + x * y) * (p * q) == carry * (p * q) + z * (p * q) + (x * y) * (p * q)
    ensures x * p * (v + y * q) == x * p * v + (x * y) * (p * q)
  {
    SplitStep(x * p, v, y, q);
    assert y * ((x * p) * q) == (x * y) * (p * q) by {
      MulAssoc(x, p, q);
      MulAssoc(y, x, p * q);
      assert y * x == x * y;
    }
  }

  /** `a *= b`: the schoolbook product, cut off at the width; the two may be the same. */
  method MulAssign(a: array<Limb>, b: array<Limb>)
    requires a.Length == b.Length
    modifies a
    ensures Value(a[..]) == (old(Value(a[..])) * old(Value(b[..]))) % Place(a.Length)
  {
    hide Place, Value;
    var w := a.Length;
    ghost var (x, y) := (a[..], b[..]);
    var r := new Limb[w](_ => 0);
    ZeroValue(r[..]);
    ghost var q: int := 0;
    var j := 0;
    assert x[..0] == [];
    ZeroValue([]);
    while j < w
      invariant 0 <= j <= w && a[..] == x && b[..] == y
      invariant Value(r[..]) + q * Place(w) == Value(x[..j]) * Value(y)
    {
      ghost var z := Value(r[..]);
      var carry := MulRow(r, b, a[j], j);
      ProductStep(x, y, j, z, Value(r[..]), q, carry);
      q := q + carry + x[j] * Value(y[w - j..]);
      j := j + 1;
    }
    label Done:
    var i := 0;
    while i < w
      invariant 0 <= i <= w && a[..i] == r[..i] && r[..] == old@Done(r[..])
    {
      a[i] := r[i];
      i := i + 1;
    }
    assert a[..] == r[..];
    Bound(a[..]);
    assert x[..j] == x;
    DivModUnique(Value(x) * Value(y), Place(w), q, Value(a[..]));
  }

  lemma ProductStep(x: seq<Limb>, y: seq<Limb>, j: nat, z: int, z': int, q: int, carry: int)
    requires j < |x| == |y|
    requires z + q * Place(|x|) == Value(x[..j]) * Value(y)
    requires z' + carry * Place(|x|) == z + x[j] * Place(j) * Value(y[..|x| - j])
    ensures z' + (q + carry + x[j] * Value(y[|x| - j..])) * Place(|x|) == Value(x[..j + 1]) * Value(y)
  {
    hide Place, Value;
    var w := |x|;
    Snoc(x, j);
    Split(y, w - j);
    PlaceAdd(j, w - j);
    ProductSum(x[j], Place(j), Place(w - j), Value(y[..w - j]), Value(y[w - j..]), Value(x[..j]), q, carry);
  }

  lemma ProductSum(x: int, p: int, p': int, lo: int, hi: int, v: int, q: int, carry: int)
    ensures (v + x * p) * (lo + p' * hi) == v * (lo + p' * hi) + x * p * lo + (x * hi) * (p * p')
    ensures (q + carry + x * hi) * (p * p') == q * (p * p') + carry * (p * p') + (x * hi) * (p * p')
  {
    assert (v + x * p) * (lo + p' * hi) == v * (lo + p' * hi) + (x * p) * (lo + p' * hi);
    assert (x * p) * (lo + p' * hi) == (x * p) * lo + (x * p) * (p' * hi);
    assert (x * p) * (p' * hi) == (x * hi) * (p * p') by {
      MulAssoc(x * p, p', hi);
      MulAssoc(x, p, p');
      assert (x * (p * p')) * hi == (x * hi) * (p * p');
    }
  }

  // ----- comparison and bit length -----

  /** The sign of the difference, found from the most significant limb down. */
  method CompareTo(a: array<Limb>, b: array<Limb>) returns (c: int)
    requires a.Length == b.Length
    ensures c == if Value(a[..]) < Value(b[..]) then -1 else if Value(a[..]) > Value(b[..]) then 1 else 0
  {
    hide Place, Value;
    var i := a.Length - 1;
    while i >= 0
      invariant -1 <= i < a.Length && forall k :: i < k < a.Length ==> a[k] == b[k]
    {
      if a[i] < b[i] {
        HigherLimb(a[..], b[..], i);
        return -1;
      }
      if a[i] > b[i] {
        HigherLimb(b[..], a[..], i);
        return 1;
      }
      i := i - 1;
    }
    assert a[..] == b[..];
    return 0;
  }

  lemma HigherLimb(x: seq<Limb>, y: seq<Limb>, i: nat)
    requires i < |x| == |y| && x[i] < y[i] && forall k :: i < k < |x| ==> x[k] == y[k]
    ensures Value(x) < Value(y)
  {
    hide Place, Value;
    SameTail(x, y, i + 1);
    Snoc(x, i);
    Snoc(y, i);
    Bound(x[..i]);
    var s: int, t: int := x[i], y[i];
    MulMono(Place(i), s + 1, t);
    assert Place(i) * (s + 1) == s * Place(i) + Place(i) && Place(i) * t == t * Place(i);
  }

  // ----- words as bits -----

  lemma Pow2Of32()
    ensures Pow2(8) == 0x100 && Pow2(16) == 0x1_0000 && Pow2(24) == 0x100_0000 && Pow2(32) == B
  {
    assert Pow(2, 4) == 16;
    PowAdd(2, 4, 4);
    PowAdd(2, 8, 8);
    PowAdd(2, 16, 8);
    PowAdd(2, 16, 16);
  }

  /** The weight of a bit of a limb. */
  lemma PlaceIsPow2(k: nat, s: nat)
    ensures Pow2(32 * k + s) == Pow2(s) * Place(k)
  {
    hide Pow;
    Pow2Of32();
    PowMul(2, 32, k);
    PowAdd(2, 32 * k, s);
  }

  /** Bitwise or. */
  function Or(x: nat, y: nat): nat {
    if x == 0 then y
    else 2 * Or(x / 2, y / 2) + if x % 2 == 1 || y % 2 == 1 then 1 else 0
  }

  lemma {:induction false} OrZero(x: nat)
    ensures Or(x, 0) == x
  {
    if x > 0 {
      OrZero(x / 2);
    }
  }

  /** Words without a common bit are added. */
  lemma {:induction false} OrAdds(c: nat, s: nat, y: nat)
    requires y < Pow2(s)
    ensures Or(c * Pow2(s), y) == c * Pow2(s) + y
  {
    hide Pow2;
    if s == 0 {
      Pow2Step(0);
      OrZero(c * Pow2(s));
    } else {
      Pow2Step(s - 1);
      var d := c * Pow2(s - 1);
      assert c * Pow2(s) == 2 * d;
      OrAdds(c, s - 1, y / 2);
    }
  }

  lemma OrCommutes(x: nat, y: nat)
    ensures Or(x, y) == Or(y, x)
  {
    OrZero(x);
    OrZero(y);
  }

  lemma ShiftSum(x: int, q: int, r: int, p: int, t: int)
    requires x == q * t + r
    ensures x * p == q * (p * t) + r * p
  {
    MulAssoc(q, t, p);
    assert t * p == p * t;
    assert (q * t + r) * p == (q * t) * p + r * p;
  }

  lemma RemainderBelow(r: nat, p: nat, t: nat)
    requires p > 0 && r < t
    ensures r * p < p * t
  {
    MulLess(p, r, t);
  }

  lemma ShiftParts(x: nat, p: nat, t: nat, m: nat)
    requires p > 0 && t > 0 && p * t == m && x < m
    ensures x / t < p && (x * p) % m == (x % t) * p < m && x * p == (x / t) * m + (x % t) * p
  {
    QuotientBelow(x, p, t);
    var q, r := x / t, x % t;
    DivIdentity(x, t);
    ShiftSum(x, q, r, p, t);
    RemainderBelow(r, p, t);
    DivModUnique(x * p, m, q, r * p);
  }

  /** Shifting a limb left by `s` bits: what leaves it and what stays. */
  lemma ShiftLimb(x: Limb, s: nat)
    requires s <= 32
    ensures Pow2(s) * Pow2(32 - s) == B
    ensures 0 <= x / Pow2(32 - s) < Pow2(s)
    ensures (x * Pow2(s)) % B == (x % Pow2(32 - s)) * Pow2(s) < B
    ensures x * Pow2(s) == (x / Pow2(32 - s)) * B + (x % Pow2(32 - s)) * Pow2(s)
  {
    hide Pow;
    Pow2Of32();
    PowAdd(2, s, 32 - s);
    ShiftParts(x, Pow2(s), Pow2(32 - s), B);
  }

  lemma {:induction false} OrBound(x: nat, y: nat, n: nat)
    requires x < Pow2(n) && y < Pow2(n)
    ensures Or(x, y) < Pow2(n)
  {
    hide Pow2;
    if x > 0 {
      if n == 0 {
        Pow2Step(0);
        assert false;
      }
      Pow2Step(n - 1);
      OrBound(x / 2, y / 2, n - 1);
    }
  }

  function OrWord(x: Limb, y: Limb): Limb {
    Pow2Of32();
    OrBound(x, y, 32);
    Or(x, y)
  }

  function ShlWord(x: Limb, s: nat): Limb {
    (x * Pow2(s)) % B
  }

  function ShrWord(x: Limb, s: nat): (r: Limb)
    ensures r * Pow2(s) <= x
  {
    DivFacts(x, Pow2(s));
    assert Pow2(s) * (x / Pow2(s)) == (x / Pow2(s)) * Pow2(s);
    MulMono(x / Pow2(s), 1, Pow2(s));
    x / Pow2(s)
  }

  method Clear(a: array<Limb>)
    modifies a
    ensures forall i :: 0 <= i < a.Length ==> a[i] == 0
  {
    var i := 0;
    while i < a.Length
      invariant 0 <= i <= a.Length && forall m :: 0 <= m < i ==> a[m] == 0
    {
      a[i] := 0;
      i := i + 1;
    }
  }

  // ----- shift left -----

  /** After `i` limbs of `x` have been moved up by `k` limbs and `s` bits into `z`; `q` counts what fell off the top. */
  ghost predicate ShlInv(x: seq<Limb>, z: seq<Limb>, i: nat, k: nat, s: nat, q: int) {
    && i <= |x| == |z| && s < 32
    && (forall m :: i + k < m < |z| ==> z[m] == 0)
    && (i + k < |z| ==> z[i + k] < Pow2(s))
    && Value(z) + q * Place(|z|) == Value(x[..i]) * (Pow2(s) * Place(k))
  }

  lemma ShlStart(x: seq<Limb>, z: seq<Limb>, k: nat, s: nat)
    requires |x| == |z| && s < 32 && forall m :: 0 <= m < |z| ==> z[m] == 0
    ensures ShlInv(x, z, 0, k, s, 0)
  {
    ZeroValue(z);
  }

  /** What limb `i` contributes. */
  lemma ShlValue(x: seq<Limb>, i: nat, k: nat, s: nat)
    requires i < |x| && s < 32
    ensures Value(x[..i + 1]) * (Pow2(s) * Place(k)) == Value(x[..i]) * (Pow2(s) * Place(k)) + (x[i] * Pow2(s)) * Place(i + k)
  {
    hide Value, Place, Pow2;
    Snoc(x, i);
    PlaceAdd(i, k);
    ShlSum(Value(x[..i]), x[i], Place(i), Pow2(s), Place(k));
  }

  lemma ShlSum(v: int, x: int, pi: int, s: int, pk: int)
    ensures (v + x * pi) * (s * pk) == v * (s * pk) + (x * s) * (pi * pk)
  {
    assert (v + x * pi) * (s * pk) == v * (s * pk) + (x * pi) * (s * pk);
    assert (x * pi) * (s * pk) == (x * s) * (pi * pk) by {
      MulAssoc(x * pi, s, pk);
      MulAssoc(x * s, pi, pk);
      assert x * pi * s == x * s * pi;
    }
  }

  lemma ShlInside(x: seq<Limb>, z: seq<Limb>, i: nat, k: nat, s: nat, q: int, hi: Limb, lo: Limb)
    requires ShlInv(x, z, i, k, s, q) && i < |x| && i + k + 1 < |z|
    requires hi == ShrWord(x[i], 32 - s) && lo == ShlWord(x[i], s)
    ensures z[i + k + 1] == 0 && OrWord(z[i + k + 1], hi) == hi
    ensures OrWord(z[i + k], lo) == z[i + k] + lo < B
    ensures ShlInv(x, z[i + k + 1 := hi][i + k := z[i + k] + lo], i + 1, k, s, q)
  {
    hide Value, Place, Pow2, OrWord;
    LowPart(x[i], s, z[i + k]);
    OrWithZero(hi);
    ShlValue(x, i, k, s);
    ShiftLimb(x[i], s);
    var z1 := z[i + k + 1 := hi];
    Update(z, i + k + 1, hi);
    Update(z1, i + k, z[i + k] + lo);
    PlaceStep(i + k);
    assert z1[i + k] == z[i + k];
    ShlCells(x[i] * Pow2(s), hi, lo, Place(i + k));
  }

  lemma ShlCells(x: int, hi: int, lo: int, p: int)
    requires x == hi * B + lo
    ensures hi * (B * p) + lo * p == x * p
  {
    MulAssoc(hi, B, p);
    assert (hi * B + lo) * p == hi * B * p + lo * p;
  }

  lemma OrWithZero(y: Limb)
    ensures OrWord(0, y) == y
  {
  }

  /** The bits that stay go above those that came from the limb below. */
  lemma LowPart(x: Limb, s: nat, y: Limb)
    requires s <= 32 && y < Pow2(s)
    ensures OrWord(y, ShlWord(x, s)) == y + ShlWord(x, s) < B
  {
    hide Pow2, Or;
    ShiftLimb(x, s);
    var r := x % Pow2(32 - s);
    OrAdds(r, s, y);
    OrCommutes(y, r * Pow2(s));
    assert (r + 1) * Pow2(s) == r * Pow2(s) + Pow2(s);
    MulMono(Pow2(s), r + 1, Pow2(32 - s));
  }

  lemma ShlTop(x: seq<Limb>, z: seq<Limb>, i: nat, k: nat, s: nat, q: int, hi: Limb, lo: Limb)
    requires ShlInv(x, z, i, k, s, q) && i < |x| && i + k + 1 == |z|
    requires hi == ShrWord(x[i], 32 - s) && lo == ShlWord(x[i], s)
    ensures OrWord(z[i + k], lo) == z[i + k] + lo < B
    ensures ShlInv(x, z[i + k := z[i + k] + lo], i + 1, k, s, q + hi)
  {
    hide Value, Place, Pow2, OrWord;
    LowPart(x[i], s, z[i + k]);
    ShlValue(x, i, k, s);
    ShiftLimb(x[i], s);
    Update(z, i + k, z[i + k] + lo);
    PlaceStep(i + k);
    ShlCells(x[i] * Pow2(s), hi, lo, Place(i + k));
    assert (q + hi) * Place(|z|) == q * Place(|z|) + hi * Place(|z|);
  }

  lemma ShlBeyond(x: seq<Limb>, z: seq<Limb>, i: nat, k: nat, s: nat, q: int)
    requires ShlInv(x, z, i, k, s, q) && i < |x| && i + k >= |z|
    ensures ShlInv(x, z, i + 1, k, s, q + x[i] * Pow2(s) * Place(i + k - |z|))
  {
    hide Value, Place, Pow2;
    ShlValue(x, i, k, s);
    PlaceAdd(|z|, i + k - |z|);
    var t := x[i] * Pow2(s);
    MulAssoc(t, Place(i + k - |z|), Place(|z|));
    assert Place(i + k - |z|) * Place(|z|) == Place(i + k);
    assert (q + t * Place(i + k - |z|)) * Place(|z|) == q * Place(|z|) + t * Place(i + k - |z|) * Place(|z|);
  }

  /** The limbs after limb `i` of `x` has been moved. */
  ghost function ShlMoved(x: seq<Limb>, z: seq<Limb>, i: nat, k: nat, s: nat): (r: seq<Limb>)
    ensures |r| == |z|
    requires i < |x| && s < 32
  {
    var z1 := if i + k + 1 < |z| && s != 0 then z[i + k + 1 := OrWord(z[i + k + 1], ShrWord(x[i], 32 - s))] else z;
    if i + k < |z| then z1[i + k := OrWord(z[i + k], ShlWord(x[i], s))] else z1
  }

  lemma ShlStep(x: seq<Limb>, z: seq<Limb>, i: nat, k: nat, s: nat, q: int) returns (q': int)
    requires ShlInv(x, z, i, k, s, q) && i < |x| && s < 32 && |x| == |z|
    ensures ShlInv(x, ShlMoved(x, z, i, k, s), i + 1, k, s, q')
  {
    hide Value, Place, Pow2, OrWord, ShlInv, ShlWord, ShrWord;
    var (hi, lo) := (ShrWord(x[i], 32 - s), ShlWord(x[i], s));
    if i + k + 1 < |z| {
      ShlInside(x, z, i, k, s, q, hi, lo);
      NoHighPart(x[i]);
      assert s == 0 ==> z[i + k + 1 := hi] == z;
      q' := q;
    } else if i + k + 1 == |z| {
      ShlTop(x, z, i, k, s, q, hi, lo);
      q' := q + hi;
    } else {
      ShlBeyond(x, z, i, k, s, q);
      q' := q + x[i] * Pow2(s) * Place(i + k - |z|);
    }
  }

  /** `a <<= shift`, for any shift. */
  method ShlAssign(a: array<Limb>, shift: nat)
    modifies a
    ensures Value(a[..]) == (old(Value(a[..])) * Pow2(shift)) % Place(a.Length)
  {
    hide Value, Place, Pow2, OrWord, ShlInv, ShlWord, ShrWord;
    var w := a.Length;
    var x := a[..];
    Clear(a);
    var k := shift / 32;
    var s := shift % 32;
    ghost var q: int := 0;
    var i := 0;
    ShlStart(x, a[..], k, s);
    while i < w
      invariant 0 <= i <= w && ShlInv(x, a[..], i, k, s, q)
    {
      ghost var z := a[..];
      q := ShlStep(x, z, i, k, s, q);
      if i + k + 1 < w && s != 0 {
        a[i + k + 1] := OrWord(a[i + k + 1], ShrWord(x[i], 32 - s));
      }
      if i + k < w {
        a[i + k] := OrWord(a[i + k], ShlWord(x[i], s));
      }
      assert a[..] == ShlMoved(x, z, i, k, s);
      i := i + 1;
    }
    ShlDone(x, a[..], k, s, q);
    PlaceIsPow2(k, s);
  }

  lemma NoHighPart(x: Limb)
    ensures ShrWord(x, 32) == 0
  {
    Pow2Of32();
  }

  lemma Wrapped(v: nat, m: nat, p: nat, q: int, z: nat)
    requires z < p && z + q * p == v * m
    ensures z == (v * m) % p
  {
    DivModUnique(v * m, p, q, z);
  }

  lemma ShlDone(x: seq<Limb>, z: seq<Limb>, k: nat, s: nat, q: int)
    requires ShlInv(x, z, |x|, k, s, q)
    ensures Value(z) == (Value(x) * (Pow2(s) * Place(k))) % Place(|x|)
  {
    hide Value, Place, Pow2;
    assert x[..|x|] == x;
    Bound(z);
    Wrapped(Value(x), Pow2(s) * Place(k), Place(|x|), q, Value(z));
  }

  // ----- shift right -----

  /** After `i` limbs of `x` have been moved down by `k` limbs and `s` bits into `z`; `rem` is what fell off the bottom. */
  ghost predicate ShrInv(x: seq<Limb>, z: seq<Limb>, i: nat, k: nat, s: nat, rem: int) {
    && i <= |x| == |z| && s < 32
    && (forall m :: 0 <= m < |z| && m >= i - k ==> z[m] == 0)
    && (i > k ==> z[i - k - 1] < Pow2(32 - s))
    && 0 <= rem < Pow2(s) * Place(k)
    && Value(x[..i]) == Value(z) * (Pow2(s) * Place(k)) + rem
  }

  lemma {:induction false} PlaceMono(i: nat, k: nat)
    requires i <= k
    ensures Place(i) <= Place(k)
  {
    PowMono(B, i, k);
  }

  lemma ShrBelow(x: seq<Limb>, z: seq<Limb>, i: nat, k: nat, s: nat)
    requires i <= |x| == |z| && s < 32 && i <= k && forall m :: 0 <= m < |z| ==> z[m] == 0
    ensures ShrInv(x, z, i, k, s, Value(x[..i]))
  {
    hide Value, Place, Pow2;
    ZeroValue(z);
    Bound(x[..i]);
    PlaceMono(i, k);
    MulMono(Place(k), 1, Pow2(s));
    assert Place(k) * Pow2(s) == Pow2(s) * Place(k);
  }

  lemma ShrFirst(x: seq<Limb>, z: seq<Limb>, k: nat, s: nat, rem: int, hi: Limb) returns (rem': int)
    requires ShrInv(x, z, k, k, s, rem) && k < |x|
    requires hi == ShrWord(x[k], s)
    ensures OrWord(z[0], hi) == hi
    ensures ShrInv(x, z[0 := hi], k + 1, k, s, rem')
  {
    hide Value, Place, Pow2, OrWord;
    OrWithZero(hi);
    ZeroValue(z);
    var l := x[k] % Pow2(s);
    rem' := rem + l * Place(k);
    Snoc(x, k);
    Bound(x[..k]);
    Update(z, 0, hi);
    PlaceStep(0);
    HighPart(x[k], s);
    MulMono(Place(k), l + 1, Pow2(s));
    ShrCells(hi, Pow2(s), l, Place(k));
    assert hi * 1 == hi;
  }

  lemma ShrCells(hi: int, s: int, l: int, p: int)
    ensures (hi * s + l) * p == hi * (s * p) + l * p
    ensures p * (l + 1) == l * p + p && p * s == s * p
  {
    MulAssoc(hi, s, p);
    assert (hi * s + l) * p == hi * s * p + l * p;
  }

  lemma HighPart(x: Limb, s: nat)
    requires s <= 32
    ensures x == ShrWord(x, s) * Pow2(s) + x % Pow2(s) && 0 <= x % Pow2(s) < Pow2(s)
    ensures ShrWord(x, s) < Pow2(32 - s)
    ensures ShlWord(x, 32 - s) == (x % Pow2(s)) * Pow2(32 - s)
  {
    hide Pow2;
    DivIdentity(x, Pow2(s));
    ShiftLimb(x, 32 - s);
  }

  lemma ShrInside(x: seq<Limb>, z: seq<Limb>, i: nat, k: nat, s: nat, rem: int, hi: Limb, lo: Limb)
    requires ShrInv(x, z, i, k, s, rem) && k < i < |x|
    requires hi == ShrWord(x[i], s) && lo == ShlWord(x[i], 32 - s)
    ensures z[i - k] == 0 && OrWord(z[i - k], hi) == hi
    ensures OrWord(z[i - k - 1], lo) == z[i - k - 1] + lo < B
    ensures ShrInv(x, z[i - k - 1 := z[i - k - 1] + lo][i - k := hi], i + 1, k, s, rem)
  {
    hide Value, Place, Pow2, OrWord;
    OrWithZero(hi);
    HighPart(x[i], s);
    LowPart(x[i], 32 - s, z[i - k - 1]);
    Snoc(x, i);
    var z1 := z[i - k - 1 := z[i - k - 1] + lo];
    Update(z, i - k - 1, z[i - k - 1] + lo);
    Update(z1, i - k, hi);
    assert z1[i - k] == 0;
    ShrValue(x[i], hi, lo, s, i, k);
    ShrGrow(Value(z), lo * Place(i - k - 1) + hi * Place(i - k), Pow2(s) * Place(k));
  }

  lemma ShrGrow(v: int, d: int, p: int)
    ensures (v + d) * p == v * p + d * p
  {
  }

  /** What limb `i` contributes, in units of the shift. */
  lemma ShrValue(x: Limb, hi: Limb, lo: Limb, s: nat, i: nat, k: nat)
    requires s < 32 && k < i && hi == ShrWord(x, s) && lo == ShlWord(x, 32 - s)
    ensures (lo * Place(i - k - 1) + hi * Place(i - k)) * (Pow2(s) * Place(k)) == x * Place(i)
  {
    hide Value, Place, Pow2;
    HighPart(x, s);
    ShiftLimb(x, s);
    PlaceStep(i - k - 1);
    PlaceAdd(i - k, k);
    var l := x % Pow2(s);
    ShrProduct(hi, l, Pow2(s), Pow2(32 - s), Place(i - k - 1), Place(k));
  }

  lemma ShrProduct(hi: int, l: int, s: int, t: int, p: int, q: int)
    ensures (l * t * p + hi * ((s * t) * p)) * (s * q) == (hi * s + l) * (((s * t) * p) * q)
  {
    var u := (s * t) * p;
    assert s * (t * p) == u by { MulAssoc(s, t, p); }
    assert (l * t * p) * (s * q) == l * (u * q) by {
      MulAssoc(l, t, p);
      Shuffle(l, t * p, s, q);
    }
    assert (hi * u) * (s * q) == (hi * s) * (u * q) by {
      MulAssoc(hi * u, s, q);
      MulAssoc(hi * s, u, q);
      assert hi * u * s == hi * s * u;
    }
    assert (l * t * p + hi * u) * (s * q) == (l * t * p) * (s * q) + (hi * u) * (s * q);
    assert (hi * s + l) * (u * q) == (hi * s) * (u * q) + l * (u * q);
  }

  lemma Shuffle(l: int, v: int, s: int, q: int)
    ensures (l * v) * (s * q) == l * ((s * v) * q)
  {
    MulAssoc(l, v, s * q);
    MulAssoc(v, s, q);
    assert v * s == s * v;
  }

  /** The limbs after limb `i` of `x` has been moved. */
  ghost function ShrMoved(x: seq<Limb>, z: seq<Limb>, i: nat, k: nat, s: nat): (r: seq<Limb>)
    requires i < |x| == |z| && s < 32
    ensures |r| == |z|
  {
    var z1 := if i - k - 1 >= 0 && s != 0 then z[i - k - 1 := OrWord(z[i - k - 1], ShlWord(x[i], 32 - s))] else z;
    if i - k >= 0 then z1[i - k := OrWord(z[i - k], ShrWord(x[i], s))] else z1
  }

  lemma ShrStep(x: seq<Limb>, z: seq<Limb>, i: nat, k: nat, s: nat, rem: int) returns (rem': int)
    requires ShrInv(x, z, i, k, s, rem) && i < |x| == |z| && s < 32
    ensures ShrInv(x, ShrMoved(x, z, i, k, s), i + 1, k, s, rem')
  {
    hide Value, Place, Pow2, OrWord, ShlWord, ShrWord;
    var (hi, lo) := (ShrWord(x[i], s), ShlWord(x[i], 32 - s));
    if i < k {
      ShrBelow(x, z, i + 1, k, s);
      rem' := Value(x[..i + 1]);
    } else if i == k {
      hide ShrInv;
      rem' := ShrFirst(x, z, k, s, rem, hi);
    } else {
      hide ShrInv;
      ShrInside(x, z, i, k, s, rem, hi, lo);
      NoLowPart(x[i]);
      assert s == 0 ==> z[i - k - 1 := z[i - k - 1] + lo] == z;
      rem' := rem;
    }
  }

  lemma NoLowPart(x: Limb)
    ensures ShlWord(x, 32) == 0
  {
    Pow2Of32();
    DivModUnique(x * B, B, x, 0);
  }

  /** `a >>= shift`, for any shift. */
  method ShrAssign(a: array<Limb>, shift: nat)
    modifies a
    ensures Value(a[..]) == old(Value(a[..])) / Pow2(shift)
  {
    hide Value, Place, Pow2, OrWord, ShrInv, ShlWord, ShrWord;
    var w := a.Length;
    var x := a[..];
    Clear(a);
    var k := shift / 32;
    var s := shift % 32;
    var i := 0;
    ShrBelow(x, a[..], 0, k, s);
    ghost var rem := Value(x[..0]);
    while i < w
      invariant 0 <= i <= w && ShrInv(x, a[..], i, k, s, rem)
    {
      ghost var z := a[..];
      rem := ShrStep(x, z, i, k, s, rem);
      if i - k - 1 >= 0 && s != 0 {
        a[i - k - 1] := OrWord(a[i - k - 1], ShlWord(x[i], 32 - s));
      }
      if i - k >= 0 {
        a[i - k] := OrWord(a[i - k], ShrWord(x[i], s));
      }
      assert a[..] == ShrMoved(x, z, i, k, s);
      i := i + 1;
    }
    ShrDone(x, a[..], k, s, rem);
    PlaceIsPow2(k, s);
  }

  lemma ShrDone(x: seq<Limb>, z: seq<Limb>, k: nat, s: nat, rem: int)
    requires ShrInv(x, z, |x|, k, s, rem)
    ensures Value(z) == Value(x) / (Pow2(s) * Place(k))
  {
    hide Value, Place, Pow2;
    assert x[..|x|] == x;
    var m: nat := Pow2(s) * Place(k);
    DivModUnique(Value(x), m, Value(z), rem);
  }

  // ----- bit length -----

  /** `n` is one more than the position of the highest set bit of `v`, or zero when there is none. */
  ghost predicate BitLength(v: nat, n: nat) {
    v < Pow2(n) && (n > 0 ==> Pow2(n - 1) <= v)
  }

  /** Whether bit `n` of a limb is set. */
  predicate TestBit(x: Limb, n: nat) {
    x / Pow2(n) % 2 == 1
  }

  method Bits(a: array<Limb>) returns (n: nat)
    ensures BitLength(Value(a[..]), n) && n <= 32 * a.Length
  {
    hide Value, Place, Pow2, BitLength, TestBit;
    var pos := a.Length - 1;
    while pos >= 0
      invariant -1 <= pos < a.Length && forall k :: pos < k < a.Length ==> a[k] == 0
    {
      if a[pos] != 0 {
        var nbits := 31;
        TopBitStart(a[pos]);
        while nbits > 0
          invariant 0 <= nbits <= 31 && a[pos] < Pow2(nbits + 1)
        {
          if TestBit(a[pos], nbits) {
            TopBit(a[pos], nbits);
            LimbLength(a[..], pos, nbits + 1);
            return 32 * pos + nbits + 1;
          }
          NotTopBit(a[pos], nbits);
          nbits := nbits - 1;
        }
        LastBit(a[pos]);
        LimbLength(a[..], pos, 1);
        return 32 * pos + 1;
      }
      pos := pos - 1;
    }
    ZeroValue(a[..]);
    NoBits();
    return 0;
  }

  lemma NoBits()
    ensures BitLength(0, 0)
  {
  }

  lemma TopBitStart(x: Limb)
    ensures x < Pow2(32)
  {
    Pow2Of32();
  }

  lemma LastBit(x: Limb)
    requires 0 < x < Pow2(1)
    ensures BitLength(x, 1)
  {
    Pow2Step(0);
  }

  lemma TopBit(x: Limb, n: nat)
    requires TestBit(x, n) && x < Pow2(n + 1)
    ensures BitLength(x, n + 1)
  {
    hide Pow2;
    DivFacts(x, Pow2(n));
    MulMono(Pow2(n), 1, x / Pow2(n));
  }

  lemma NotTopBit(x: Limb, n: nat)
    requires !TestBit(x, n) && x < Pow2(n + 1)
    ensures x < Pow2(n)
  {
    hide Pow2;
    Pow2Step(n);
    QuotientBelow(x, 2, Pow2(n));
    ZeroQuotient(x, Pow2(n));
  }

  lemma ZeroQuotient(x: nat, p: nat)
    requires p > 0 && x / p == 0
    ensures x < p
  {
    DivFacts(x, p);
  }

  /** The highest limb decides. */
  lemma LimbLength(s: seq<Limb>, pos: nat, n: nat)
    requires pos < |s| && (forall k :: pos < k < |s| ==> s[k] == 0) && BitLength(s[pos], n) && n > 0
    ensures BitLength(Value(s), 32 * pos + n)
  {
    hide Value, Place, Pow2;
    var x: int := s[pos];
    Split(s, pos + 1);
    ZeroValue(s[pos + 1..]);
    Snoc(s, pos);
    Bound(s[..pos]);
    PlaceIsPow2(pos, n);
    PlaceIsPow2(pos, n - 1);
    assert Value(s) == Value(s[..pos]) + x * Place(pos);
    MulMono(Place(pos), x + 1, Pow2(n));
    MulMono(Place(pos), Pow2(n - 1), x);
    assert Place(pos) * (x + 1) == x * Place(pos) + Place(pos);
  }

  // ----- division -----

  /** Bits `shift` and below are clear. */
  ghost predicate LowClear(z: seq<Limb>, shift: int) {
    shift >= 0 ==>
      && shift / 32 < |z|
      && (forall m :: 0 <= m < shift / 32 ==> z[m] == 0)
      && z[shift / 32] % Pow2(shift % 32 + 1) == 0
  }

  /** What shift-and-subtract keeps: the quotient so far is exact above bit `shift`. */
  ghost predicate DivInv(z: seq<Limb>, num: nat, div: nat, n: nat, d: nat, shift: int) {
    && shift >= -1 && LowClear(z, shift)
    && num + Value(z) * d == n
    && (shift >= 0 ==> div == d * Pow2(shift))
    && num < d * Pow2(shift + 1)
  }

  lemma DoubleMultiple(c: int, t: nat)
    ensures c * Pow2(t + 1) == (2 * c) * Pow2(t)
  {
    Pow2Step(t);
  }

  lemma MultipleMod(c: int, p: nat)
    requires p > 0 && c >= 0
    ensures (c * p) % p == 0
  {
    DivModUnique(c * p, p, c, 0);
  }

  lemma ClearNext(z: seq<Limb>, shift: int)
    requires shift >= 0 && LowClear(z, shift)
    ensures LowClear(z, shift - 1)
  {
    hide Pow2;
    var k, t := shift / 32, shift % 32;
    if t > 0 {
      DivIdentity(z[k], Pow2(t + 1));
      DoubleMultiple(z[k] / Pow2(t + 1), t);
      MultipleMod(2 * (z[k] / Pow2(t + 1)), Pow2(t));
    } else if shift > 0 {
      assert z[k - 1] == 0;
    }
  }

  lemma SmallPow2(t: nat)
    requires t < 32
    ensures Pow2(t) < B
  {
    hide Pow;
    Pow2Of32();
    PowStep(2, t);
    PowMono(2, t + 1, 32);
  }

  /** Setting a clear bit of a limb adds its weight. */
  lemma SetLimbBit(x: Limb, t: nat)
    requires t < 32 && x % Pow2(t + 1) == 0
    ensures Pow2(t) < B && OrWord(x, Pow2(t)) == x + Pow2(t) && (x + Pow2(t)) % Pow2(t) == 0
  {
    hide Pow2;
    SmallPow2(t);
    var c := x / Pow2(t + 1);
    DivIdentity(x, Pow2(t + 1));
    Pow2Step(t);
    OrAdds(c, t + 1, Pow2(t));
    DoubleMultiple(c, t);
    assert (2 * c + 1) * Pow2(t) == 2 * c * Pow2(t) + Pow2(t);
    MultipleMod(2 * c + 1, Pow2(t));
  }

  lemma SetQuotientBit(z: seq<Limb>, shift: nat)
    requires LowClear(z, shift)
    ensures var (k, t) := (shift / 32, shift % 32);
            && Pow2(t) < B
            && Value(z[k := OrWord(z[k], Pow2(t))]) == Value(z) + Pow2(shift)
            && LowClear(z[k := OrWord(z[k], Pow2(t))], shift - 1)
  {
    hide Pow2, Value, Place, OrWord;
    var k, t := shift / 32, shift % 32;
    SetLimbBit(z[k], t);
    Update(z, k, OrWord(z[k], Pow2(t)));
    PlaceIsPow2(k, t);
    if t == 0 && shift > 0 {
      assert z[k - 1] == 0;
    }
  }

  lemma Pow2Add(m: nat, n: nat)
    ensures Pow2(m + n) == Pow2(m) * Pow2(n)
  {
    PowAdd(2, m, n);
  }

  lemma Pow2Mono(m: nat, n: nat)
    requires m <= n
    ensures Pow2(m) <= Pow2(n)
  {
    PowMono(2, m, n);
  }

  /** Aligning the top bits keeps the divisor in range and within a factor two of the numerator. */
  lemma Aligned(n: nat, d: nat, nb: nat, db: nat)
    requires BitLength(n, nb) && BitLength(d, db) && 0 < db <= nb
    ensures d * Pow2(nb - db) < Pow2(nb) && n < d * Pow2(nb - db + 1)
  {
    hide Pow2;
    var shift := nb - db;
    Pow2Add(shift, db);
    Pow2Add(shift + 1, db - 1);
    MulLess(Pow2(shift), d, Pow2(db));
    MulMono(Pow2(shift + 1), Pow2(db - 1), d);
  }

  lemma AllClear(z: seq<Limb>, shift: int)
    requires shift < 32 * |z| && forall m :: 0 <= m < |z| ==> z[m] == 0
    ensures LowClear(z, shift)
  {
  }

  lemma DivStart(z: seq<Limb>, n: nat, d: nat, nb: nat, db: nat)
    requires (forall m :: 0 <= m < |z| ==> z[m] == 0) && BitLength(n, nb) && BitLength(d, db)
    requires 0 < db <= nb <= 32 * |z|
    ensures d * Pow2(nb - db) < Place(|z|)
    ensures DivInv(z, n, d * Pow2(nb - db), n, d, nb - db)
  {
    hide Pow2, Value, Place, LowClear, BitLength;
    ZeroValue(z);
    Aligned(n, d, nb, db);
    Pow2Mono(nb, 32 * |z|);
    PlaceIsPow2(|z|, 0);
    Pow2Step(0);
    AllClear(z, nb - db);
  }

  lemma DivTake(z: seq<Limb>, num: nat, div: nat, n: nat, d: nat, shift: nat)
    requires DivInv(z, num, div, n, d, shift) && num >= div
    ensures var (k, t) := (shift / 32, shift % 32);
            && Pow2(t) < B && k < |z|
            && DivInv(z[k := OrWord(z[k], Pow2(t))], num - div, div / 2, n, d, shift - 1)
  {
    hide Pow2, Value, OrWord, LowClear;
    SetQuotientBit(z, shift);
    InRange(z, shift);
    HalfDivisor(d, shift);
    assert (Value(z) + Pow2(shift)) * d == Value(z) * d + d * Pow2(shift);
  }

  lemma InRange(z: seq<Limb>, shift: nat)
    requires LowClear(z, shift)
    ensures shift / 32 < |z|
  {
  }

  lemma HalfDivisor(d: nat, shift: nat)
    ensures d * Pow2(shift + 1) == 2 * (d * Pow2(shift))
    ensures shift > 0 ==> (d * Pow2(shift)) / 2 == d * Pow2(shift - 1)
  {
    hide Pow2;
    Pow2Step(shift);
    MulAssoc(d, 2, Pow2(shift));
    MulAssoc(2, d, Pow2(shift));
    if shift > 0 {
      Pow2Step(shift - 1);
      MulAssoc(d, 2, Pow2(shift - 1));
      MulAssoc(2, d, Pow2(shift - 1));
    }
  }

  lemma DivSkip(z: seq<Limb>, num: nat, div: nat, n: nat, d: nat, shift: nat)
    requires DivInv(z, num, div, n, d, shift) && num < div
    ensures DivInv(z, num, div / 2, n, d, shift - 1)
  {
    hide Pow2, Value, LowClear;
    ClearNext(z, shift);
    HalfDivisor(d, shift);
  }

  lemma DivDone(z: seq<Limb>, num: nat, div: nat, n: nat, d: nat)
    requires DivInv(z, num, div, n, d, -1)
    ensures d > 0 && Value(z) == n / d
  {
    hide Value;
    Pow2Step(0);
    DivModUnique(n, d, Value(z), num);
  }

  method Copy(a: array<Limb>) returns (r: array<Limb>)
    ensures fresh(r) && r[..] == a[..]
  {
    r := new Limb[a.Length];
    var i := 0;
    while i < a.Length
      invariant 0 <= i <= a.Length && r[..i] == a[..i]
    {
      r[i] := a[i];
      i := i + 1;
    }
  }

  /** `a /= b` by shift and subtract; the two may be the same. A zero divisor is an error, and leaves zero behind. */
  method DivAssign(a: array<Limb>, b: array<Limb>) returns (ok: bool)
    requires a.Length == b.Length
    modifies a
    ensures ok <==> old(Value(b[..])) != 0
    ensures Value(a[..]) == if ok then old(Value(a[..])) / old(Value(b[..])) else 0
  {
    hide Value, Place, Pow2, OrWord, DivInv, BitLength;
    ghost var (n, d) := (Value(a[..]), Value(b[..]));
    var div := Copy(b);
    var num := Copy(a);
    Clear(a);
    ZeroValue(a[..]);
    var numBits := Bits(num);
    var divBits := Bits(div);
    LengthZero(d, divBits);
    if divBits == 0 {
      return false;
    }
    if divBits > numBits {
      Shorter(n, d, numBits, divBits);
      return true;
    }
    var shift: int := numBits - divBits;
    DivStart(a[..], n, d, numBits, divBits);
    ShlAssign(div, shift);
    Fits(d * Pow2(shift), Place(a.Length));
    while shift >= 0
      invariant -1 <= shift && fresh(num) && fresh(div) && num != div && num.Length == div.Length == a.Length
      invariant DivInv(a[..], Value(num[..]), Value(div[..]), n, d, shift)
    {
      DivRound(a, num, div, shift, n, d);
      shift := shift - 1;
    }
    DivDone(a[..], Value(num[..]), Value(div[..]), n, d);
    return true;
  }

  lemma Fits(v: nat, p: nat)
    requires v < p
    ensures v % p == v
  {
    DivModUnique(v, p, 0, v);
  }

  lemma LengthZero(v: nat, n: nat)
    requires BitLength(v, n)
    ensures v == 0 <==> n == 0
  {
    Pow2Step(0);
  }

  lemma Shorter(n: nat, d: nat, nb: nat, db: nat)
    requires BitLength(n, nb) && BitLength(d, db) && nb < db
    ensures d > 0 && n / d == 0
  {
    hide Pow;
    PowMono(2, nb, db - 1);
    DivModUnique(n, d, 0, n);
  }

  /** One round of the loop of `DivAssign`. */
  method DivRound(a: array<Limb>, num: array<Limb>, div: array<Limb>, shift: nat, ghost n: nat, ghost d: nat)
    requires a != num && a != div && num != div && num.Length == div.Length == a.Length
    requires DivInv(a[..], Value(num[..]), Value(div[..]), n, d, shift)
    modifies a, num, div
    ensures DivInv(a[..], Value(num[..]), Value(div[..]), n, d, shift - 1)
  {
    hide Value, Place, Pow2, OrWord, DivInv;
    ghost var (z, u, v) := (a[..], Value(num[..]), Value(div[..]));
    HalfShift(v);
    Bound(num[..]);
    var c := CompareTo(num, div);
    if c >= 0 {
      DivTake(z, u, v, n, d, shift);
      SubAssign(num, div);
      Exact(u, v, Place(a.Length));
      a[shift / 32] := OrWord(a[shift / 32], Pow2(shift % 32));
      assert a[..] == z[shift / 32 := OrWord(z[shift / 32], Pow2(shift % 32))];
    } else {
      DivSkip(z, u, v, n, d, shift);
    }
    ShrAssign(div, 1);
  }

  lemma HalfShift(v: nat)
    ensures v / Pow2(1) == v / 2
  {
    Pow2Step(0);
  }

  lemma Exact(u: nat, v: nat, p: nat)
    requires v <= u < p
    ensures (u - v + p) % p == u - v
  {
    DivModUnique(u - v + p, p, 1, u - v);
  }

  // ----- double words -----

  lemma LowTwo(s: seq<Limb>)
    requires |s| >= 2
    ensures Value(s[..2]) == s[0] + B * s[1]
  {
    hide Value, Place;
    Snoc(s, 0);
    Snoc(s, 1);
    PlaceStep(0);
    PlaceStep(1);
    assert s[..0] == [];
    ZeroValue([]);
  }

  /** A number given as a 64-bit word. */
  method FromWord(width: nat, b: nat) returns (r: array<Limb>)
    requires width >= 2 && b < B * B
    ensures fresh(r) && r.Length == width && Value(r[..]) == b
  {
    hide Value, Place;
    r := new Limb[width](_ => 0);
    QuotientBelow(b, B, B);
    r[0] := b % B;
    r[1] := b / B;
    LowTwo(r[..]);
    Split(r[..], 2);
    ZeroValue(r[2..]);
  }

  /** `a == b` for a 64-bit word `b`. */
  method EqualTo(a: array<Limb>, b: nat) returns (r: bool)
    requires a.Length >= 2 && b < B * B
    ensures r <==> Value(a[..]) == b
  {
    hide Value, Place;
    LowTwo(a[..]);
    Split(a[..], 2);
    QuotientBelow(b, B, B);
    PlaceStep(0);
    PlaceStep(1);
    var i := a.Length - 1;
    while i >= 2
      invariant 1 <= i < a.Length && forall k :: i < k < a.Length ==> a[k] == 0
    {
      if a[i] != 0 {
        NonZero(a[2..], i - 2);
        MulMono(Place(2), 1, Value(a[2..]));
        return false;
      }
      i := i - 1;
    }
    ZeroValue(a[2..]);
    DivIdentity(b, B);
    if a[1] != b / B {
      DivModUnique(a[0] + B * a[1], B, a[1], a[0]);
      return false;
    }
    return a[0] == b % B;
  }

  lemma NonZero(s: seq<Limb>, i: nat)
    requires i < |s| && s[i] > 0
    ensures Value(s) > 0
  {
    hide Value, Place;
    Update(s, i, 0);
    var x: int := s[i];
    MulLess(Place(i), 0, x);
    assert (0 - x) * Place(i) == -(Place(i) * x);
  }

  /** The low 64 bits. */
  method GetLow64(a: array<Limb>) returns (r: nat)
    requires a.Length >= 2
    ensures r == Value(a[..]) % Place(2)
  {
    hide Value, Place;
    LowTwo(a[..]);
    Split(a[..], 2);
    Bound(a[..2]);
    assert Place(2) * Value(a[2..]) == Value(a[2..]) * Place(2);
    DivModUnique(Value(a[..]), Place(2), Value(a[2..]), Value(a[..2]));
    r := a[0] + B * a[1];
  }

  // ----- the compact format -----

  const SIGN: nat := 0x80_0000

  const SIZE_UNIT: nat := 0x100_0000

  function SizeOf(c: nat): nat {
    c / SIZE_UNIT
  }

  function WordOf(c: nat): (r: nat)
    ensures r < SIGN
  {
    c % SIGN
  }

  predicate SignOf(c: nat) {
    c / SIGN % 2 == 1
  }

  /** What a mantissa and a size in bytes stand for. */
  function Scaled(word: nat, size: nat): nat {
    if size <= 3 then word / Pow2(8 * (3 - size)) else word * Pow2(8 * (size - 3))
  }

  /** The magnitude a compact encoding stands for, of any size. */
  function CompactNumber(c: nat): nat {
    Scaled(WordOf(c), SizeOf(c))
  }

  /** Decodes; the flags say exactly when the sign is negative and when the magnitude does not fit 256 bits. */
  method SetCompact(a: array<Limb>, c: Limb) returns (negative: bool, overflow: bool)
    requires a.Length == 8
    modifies a
    ensures Value(a[..]) == CompactNumber(c) % Place(8)
    ensures negative <==> CompactNumber(c) != 0 && SignOf(c)
    ensures overflow <==> CompactNumber(c) >= Place(8)
  {
    hide Value, Place, Pow2, SignOf;
    var size := SizeOf(c);
    var word := WordOf(c);
    if size <= 3 {
      SmallScaled(word, size);
      word := word / Pow2(8 * (3 - size));
      SetWord(a, word);
      Fits(word, Place(8));
    } else {
      SmallScaled(word, 3);
      SetWord(a, word);
      ShlAssign(a, 8 * (size - 3));
      NonZeroProduct(word, Pow2(8 * (size - 3)));
    }
    negative := word != 0 && SignOf(c);
    overflow := word != 0 && (size > 34 || (word > 0xff && size > 33) || (word > 0xffff && size > 32));
    OverflowExact(WordOf(c), size);
  }

  lemma NonZeroProduct(a: nat, b: nat)
    requires b > 0
    ensures a * b == 0 <==> a == 0
  {
    if a > 0 {
      MulLess(b, 0, a);
    }
  }

  /** Assigns a 64-bit word. */
  method SetWord(a: array<Limb>, b: nat)
    requires a.Length >= 2 && b < B * B
    modifies a
    ensures Value(a[..]) == b
  {
    hide Value, Place;
    QuotientBelow(b, B, B);
    a[0] := b % B;
    a[1] := b / B;
    for i := 2 to a.Length
      invariant a[0] == b % B && a[1] == b / B && forall k :: 2 <= k < i ==> a[k] == 0
    {
      a[i] := 0;
    }
    LowTwo(a[..]);
    Split(a[..], 2);
    ZeroValue(a[2..]);
  }

  lemma SmallScaled(word: nat, size: nat)
    requires word < SIGN && size <= 3
    ensures word / Pow2(8 * (3 - size)) <= word < B < Place(8)
  {
    hide Pow2, Place;
    DivFacts(word, Pow2(8 * (3 - size)));
    MulMono(word / Pow2(8 * (3 - size)), 1, Pow2(8 * (3 - size)));
    PlaceStep(0);
    PlaceStep(1);
    PlaceMono(2, 8);
  }

  lemma Pow2Of256()
    ensures Place(8) == Pow2(256)
  {
    hide Pow2, Place;
    PlaceIsPow2(8, 0);
    Pow2Step(0);
  }

  /** The mantissa and size tests find exactly the magnitudes of at least `2^256`. */
  lemma OverflowExact(word: nat, size: nat)
    requires word < SIGN && size < 256
    ensures Scaled(word, size) >= Place(8) <==>
              word != 0 && (size > 34 || (word > 0xff && size > 33) || (word > 0xffff && size > 32))
  {
    hide Pow2, Place;
    if size <= 3 {
      SmallScaled(word, size);
    } else {
      var u := Pow2(8 * (size - 3));
      Pow2Of256();
      Pow2Of32();
      if size > 34 {
        Pow2Mono(256, 8 * (size - 3));
        NonZeroProduct(word, u);
        if word > 0 {
          MulMono(u, 1, word);
        }
      } else {
        // The least mantissa that overflows is a power of 256.
        var t := 256 - 8 * (size - 3);
        Pow2Add(8 * (size - 3), t);
        OverflowAt(word, u, Pow2(t));
        if size <= 32 {
          Pow2Mono(24, t);
        }
      }
    }
  }

  lemma OverflowAt(word: nat, u: nat, m: nat)
    requires u > 0
    ensures word * u >= u * m <==> word >= m
  {
    if word >= m {
      MulMono(u, m, word);
    } else {
      MulLess(u, word, m);
    }
  }

  // ----- encoding -----

  /** The bytes needed for `n` bits, and the top three bytes of a number of that many. */
  function RawSize(n: nat): nat {
    (n + 7) / 8
  }

  function RawWord(x: nat, n: nat): nat {
    var size := RawSize(n);
    if size <= 3 then x * Pow2(8 * (3 - size)) else x / Pow2(8 * (size - 3))
  }

  /** Size and mantissa after the byte shift that keeps the sign bit free. */
  function FinalSize(x: nat, n: nat): nat {
    if RawWord(x, n) >= SIGN then RawSize(n) + 1 else RawSize(n)
  }

  function FinalWord(x: nat, n: nat): nat {
    if RawWord(x, n) >= SIGN then RawWord(x, n) / 256 else RawWord(x, n)
  }

  /** The top three bytes of a nonzero number fill at least seventeen bits. */
  lemma RawRange(x: nat, n: nat)
    requires BitLength(x, n)
    ensures RawWord(x, n) < SIZE_UNIT && (x > 0 ==> 0x1_0000 <= RawWord(x, n))
  {
    hide Pow2;
    var size := RawSize(n);
    Pow2Of32();
    LengthZero(x, n);
    Pow2Mono(n, 8 * size);
    if n > 0 {
      Pow2Mono(8 * (size - 1), n - 1);
    }
    if size <= 3 {
      var u := Pow2(8 * (3 - size));
      Pow2Add(8 * (3 - size), 8 * size);
      MulLess(u, x, Pow2(8 * size));
      if n > 0 {
        Pow2Add(8 * (3 - size), 8 * (size - 1));
        MulMono(u, Pow2(8 * (size - 1)), x);
      }
    } else {
      var u := Pow2(8 * (size - 3));
      Pow2Add(24, 8 * (size - 3));
      QuotientBelow(x, SIZE_UNIT, u);
      Pow2Add(16, 8 * (size - 3));
      QuotientAtLeast(x, 0x1_0000, u);
    }
  }

  lemma QuotientAtLeast(x: nat, p: nat, t: nat)
    requires t > 0 && x >= p * t
    ensures x / t >= p
  {
    DivFacts(x, t);
    assert t * (x / t + 1) == t * (x / t) + t;
    if x / t < p {
      MulMono(t, x / t + 1, p);
    }
  }

  lemma FinalRange(x: nat, n: nat)
    requires BitLength(x, n)
    ensures FinalWord(x, n) < SIGN && (x > 0 ==> 0x8000 <= FinalWord(x, n))
  {
    hide RawWord, BitLength;
    RawRange(x, n);
  }

  lemma DivDiv(x: nat, a: nat, b: nat)
    requires a > 0 && b > 0
    ensures a * b > 0 && x / a / b == x / (a * b)
  {
    var q := x / a;
    MulLess(a, 0, b);
    DivIdentity(x, a);
    DivIdentity(q, b);
    var r := (q % b) * a + x % a;
    assert x == (q / b) * (a * b) + r by {
      assert ((q / b) * b + q % b) * a == (q / b) * (a * b) + (q % b) * a by { ShiftSum(q, q / b, q % b, a, b); }
    }
    MulMono(a, q % b + 1, b);
    assert a * (q % b + 1) == (q % b) * a + a;
    DivModUnique(x, a * b, q / b, r);
  }

  /** Beyond three bytes the mantissa is the number cut to the unit. */
  lemma FinalIsQuotient(x: nat, n: nat)
    requires FinalSize(x, n) > 3
    ensures FinalWord(x, n) == x / Pow2(8 * (FinalSize(x, n) - 3))
  {
    hide Pow2;
    var size := RawSize(n);
    Pow2Of32();
    Pow2Step(0);
    if RawWord(x, n) >= SIGN {
      if size > 3 {
        DivDiv(x, Pow2(8 * (size - 3)), 256);
        Pow2Add(8 * (size - 3), 8);
      }
    }
  }

  lemma MulDiv(x: nat, p: nat)
    requires p > 0
    ensures (x * p) / p == x
  {
    DivModUnique(x * p, p, x, 0);
  }

  /** Up to three bytes nothing is lost. */
  lemma FinalIsExact(x: nat, n: nat)
    requires BitLength(x, n) && FinalSize(x, n) <= 3
    ensures Scaled(FinalWord(x, n), FinalSize(x, n)) == x
  {
    hide Pow2, BitLength;
    var size := RawSize(n);
    var u := Pow2(8 * (3 - size));
    MulDiv(x, u);
    if RawWord(x, n) >= SIGN {
      Pow2Of32();
      var t := Pow2(8 * (2 - size));
      Pow2Add(8 * (2 - size), 8);
      MulAssoc(x, t, 256);
      MulDiv(x * t, 256);
      MulDiv(x, t);
    }
  }

  /** No encoding stands for a number between the one chosen and `x`. */
  lemma Largest(x: nat, n: nat, word: nat, size: nat)
    requires BitLength(x, n) && word < SIGN && Scaled(word, size) <= x
    ensures Scaled(word, size) <= Scaled(FinalWord(x, n), FinalSize(x, n)) <= x
  {
    hide Pow2, BitLength, RawWord, FinalWord, FinalSize;
    var (m, s) := (FinalWord(x, n), FinalSize(x, n));
    if s <= 3 {
      FinalIsExact(x, n);
    } else {
      var u := Pow2(8 * (s - 3));
      FinalIsQuotient(x, n);
      DivFacts(x, u);
      if size >= s {
        Pow2Add(8 * (size - s), 8 * (s - 3));
        MulAssoc(word, Pow2(8 * (size - s)), u);
        MultipleBelow(x, word * Pow2(8 * (size - s)), u);
      } else {
        FinalRange(x, n);
        BeyondThree(x, n);
        SmallerUnit(word, size, s);
        MulMono(u, 0x8000, m);
      }
    }
  }

  /** Up to three bytes the mantissa is the number moved to the top. */
  lemma FinalIsMultiple(x: nat, n: nat)
    requires BitLength(x, n) && FinalSize(x, n) <= 3
    ensures FinalWord(x, n) == x * Pow2(8 * (3 - FinalSize(x, n)))
  {
    hide Pow2, BitLength;
    if RawWord(x, n) >= SIGN {
      Pow2Of32();
      var size := RawSize(n);
      var t := Pow2(8 * (2 - size));
      Pow2Add(8 * (2 - size), 8);
      MulAssoc(x, t, 256);
      MulDiv(x * t, 256);
    }
  }

  /** With up to three bytes, a smaller size reaches less than the least mantissa of a larger one. */
  lemma FewBytes(m: nat, s: nat, word: nat, size: nat)
    requires m >= 0x8000 && word < SIGN && size < s <= 3 && Scaled(m, s) > 0
    ensures Scaled(word, size) < Scaled(m, s)
  {
    hide Pow2;
    Pow2Of32();
    Pow2Step(0);
  }

  /** No shorter and no lesser encoding stands for the number chosen. */
  lemma Shortest(x: nat, n: nat, word: nat, size: nat)
    requires BitLength(x, n) && word < SIGN && Scaled(word, size) == Scaled(FinalWord(x, n), FinalSize(x, n))
    ensures FinalSize(x, n) < size || (FinalSize(x, n) == size && FinalWord(x, n) <= word)
  {
    hide Pow2, BitLength, RawWord, FinalWord, FinalSize, Scaled;
    var (m, s) := (FinalWord(x, n), FinalSize(x, n));
    if x == 0 {
      ZeroShort(n);
    } else {
      FinalRange(x, n);
      if size < s {
        TooShort(x, n, word, size);
      } else if size == s {
        SameSize(x, n, word);
      }
    }
  }

  lemma ZeroShort(n: nat)
    requires BitLength(0, n)
    ensures FinalSize(0, n) == 0 == FinalWord(0, n)
  {
    hide Pow2, BitLength;
    LengthZero(0, n);
  }

  lemma TooShort(x: nat, n: nat, word: nat, size: nat)
    requires BitLength(x, n) && x > 0 && word < SIGN && size < FinalSize(x, n) && FinalWord(x, n) >= 0x8000
    ensures Scaled(word, size) < Scaled(FinalWord(x, n), FinalSize(x, n))
  {
    hide Pow2, BitLength, RawWord, FinalWord, FinalSize;
    var (m, s) := (FinalWord(x, n), FinalSize(x, n));
    if s > 3 {
      SmallerUnit(word, size, s);
      MulMono(Pow2(8 * (s - 3)), 0x8000, m);
    } else {
      FinalIsExact(x, n);
      FewBytes(m, s, word, size);
    }
  }

  lemma SameSize(x: nat, n: nat, word: nat)
    requires BitLength(x, n) && Scaled(word, FinalSize(x, n)) == Scaled(FinalWord(x, n), FinalSize(x, n))
    ensures FinalWord(x, n) <= word
  {
    hide Pow2, BitLength, RawWord, FinalWord, FinalSize;
    var (m, s) := (FinalWord(x, n), FinalSize(x, n));
    if s > 3 {
      if word < m {
        MulLess(Pow2(8 * (s - 3)), word, m);
        assert false;
      }
    } else {
      FinalIsExact(x, n);
      FinalIsMultiple(x, n);
      DivFacts(word, Pow2(8 * (3 - s)));
    }
  }

  lemma MultipleBelow(x: nat, c: nat, u: nat)
    requires u > 0 && c * u <= x
    ensures c * u <= (x / u) * u
  {
    QuotientAtLeast(x, c, u);
    MulMono(u, c, x / u);
  }

  lemma BeyondThree(x: nat, n: nat)
    requires BitLength(x, n) && FinalSize(x, n) > 3
    ensures x > 0
  {
    LengthZero(x, n);
  }

  /** A smaller size reaches less than the least mantissa of a larger one. */
  lemma SmallerUnit(word: nat, size: nat, s: nat)
    requires word < SIGN && size < s && s > 3
    ensures Scaled(word, size) < 0x8000 * Pow2(8 * (s - 3))
  {
    hide Pow2;
    Pow2Of32();
    Pow2Add(8 * (s - 4), 8);
    var v := Pow2(8 * (s - 4));
    assert 0x8000 * Pow2(8 * (s - 3)) == SIGN * v;
    if size <= 3 {
      SmallScaled(word, size);
    } else {
      Pow2Mono(8 * (size - 3), 8 * (s - 4));
      MulMono(word, Pow2(8 * (size - 3)), v);
      MulLess(v, word, SIGN);
    }
  }

  lemma RawCases(x: nat, n: nat)
    requires BitLength(x, n)
    ensures RawSize(n) <= 3 ==> x % Place(2) == x && RawWord(x, n) == x * Pow2(8 * (3 - RawSize(n)))
    ensures RawSize(n) > 3 ==>
              RawWord(x, n) == x / Pow2(8 * (RawSize(n) - 3)) && RawWord(x, n) % Place(2) == RawWord(x, n)
  {
    hide Pow2, Place;
    PlaceStep(0);
    PlaceStep(1);
    RawRange(x, n);
    if RawSize(n) <= 3 {
      MulMono(x, 1, Pow2(8 * (3 - RawSize(n))));
      Fits(x, Place(2));
    } else {
      Fits(RawWord(x, n), Place(2));
    }
  }

  /** Or with a multiple of a power of two leaves the bits below alone. */
  lemma {:induction false} OrHigh(a: nat, m: nat, c: nat, s: nat)
    requires m < Pow2(s)
    ensures Or(a * Pow2(s) + m, c * Pow2(s)) == Or(a, c) * Pow2(s) + m
  {
    hide Pow2, Or;
    if s == 0 {
      Pow2Step(0);
    } else {
      Pow2Step(s - 1);
      var u := Pow2(s - 1);
      TwicePlace(a, s - 1);
      TwicePlace(c, s - 1);
      TwicePlace(Or(a, c), s - 1);
      if a > 0 || m > 0 {
        OrHigh(a, m / 2, c, s - 1);
        NonZeroProduct(a, u);
        OrStep(a * u, m, c * u);
      } else {
        OrNothing(c);
        OrNothing(c * Pow2(s));
      }
    }
  }

  lemma TwicePlace(c: nat, s: nat)
    ensures c * Pow2(s + 1) == 2 * (c * Pow2(s)) && c * Pow2(s) >= 0
  {
    hide Pow2;
    Pow2Step(s);
    MulAssoc(c, 2, Pow2(s));
    MulAssoc(2, c, Pow2(s));
  }

  lemma OrNothing(y: nat)
    ensures Or(0, y) == y
  {
  }

  lemma OrStep(x: nat, m: nat, y: nat)
    requires x > 0 || m > 0
    ensures Or(2 * x + m, 2 * y) == 2 * Or(x + m / 2, y) + m % 2
  {
  }

  /** Mantissa, sign and size take their own bits. */
  lemma Assemble(m: nat, size: nat)
    requires m < SIGN && size < 256
    ensures Or(m, size * SIZE_UNIT) == size * SIZE_UNIT + m < B - SIGN
    ensures Or(size * SIZE_UNIT + m, SIGN) == size * SIZE_UNIT + m + SIGN
    ensures (size * SIZE_UNIT + m) % SIGN == m
  {
    hide Pow2, Or;
    Pow2Of32();
    OrAdds(size, 24, m);
    OrCommutes(m, size * SIZE_UNIT);
    Pow2Step(23);
    OrHigh(2 * size, m, 1, 23);
    Pow2Step(0);
    OrAdds(size, 1, 1);
    DivModUnique(size * SIZE_UNIT + m, SIGN, 2 * size, m);
  }

  lemma Decoded(m: nat, size: nat, sign: bool)
    requires m < SIGN && size < 256
    ensures var c := size * SIZE_UNIT + m + if sign then SIGN else 0;
            WordOf(c) == m && SizeOf(c) == size && (SignOf(c) <==> sign)
  {
  }

  lemma FinalZero(x: nat, n: nat)
    requires BitLength(x, n)
    ensures FinalWord(x, n) == 0 <==> x == 0
  {
    hide BitLength, Pow2;
    FinalRange(x, n);
    LengthZero(x, n);
  }

  lemma GetCompactDone(x: nat, n: nat, c: Limb, sign: bool)
    requires BitLength(x, n) && FinalWord(x, n) < SIGN && FinalSize(x, n) < 256
    requires c == FinalSize(x, n) * SIZE_UNIT + FinalWord(x, n) + if sign then SIGN else 0
    ensures CompactNumber(c) <= x && (SignOf(c) <==> sign)
    ensures forall d: Limb :: CompactNumber(d) <= x ==> CompactNumber(d) <= CompactNumber(c)
    ensures forall d: Limb :: CompactNumber(d) == CompactNumber(c) && SignOf(d) == sign ==> c <= d
  {
    hide BitLength, Pow2, FinalWord, FinalSize, Scaled, WordOf, SizeOf, SignOf;
    Decoded(FinalWord(x, n), FinalSize(x, n), sign);
    NoWord();
    Largest(x, n, 0, 0);
    forall d: Limb | CompactNumber(d) <= x ensures CompactNumber(d) <= CompactNumber(c) {
      Largest(x, n, WordOf(d), SizeOf(d));
    }
    forall d: Limb | CompactNumber(d) == CompactNumber(c) && SignOf(d) == sign ensures c <= d {
      Shortest(x, n, WordOf(d), SizeOf(d));
      Recoded(d);
    }
  }

  lemma Recoded(c: Limb)
    ensures c == SizeOf(c) * SIZE_UNIT + WordOf(c) + if SignOf(c) then SIGN else 0
  {
  }

  lemma NoWord()
    ensures Scaled(0, 0) == 0
  {
    DivModUnique(0, Pow2(24), 0, 0);
  }

  /** Encodes. The asserts of the source hold: the mantissa stays below the sign bit and the size below a byte. */
  method GetCompact(a: array<Limb>, negative: bool) returns (c: Limb)
    requires a.Length == 8
    ensures CompactNumber(c) <= Value(a[..])
    ensures forall d: Limb :: CompactNumber(d) <= Value(a[..]) ==> CompactNumber(d) <= CompactNumber(c)
    ensures SignOf(c) <==> negative && Value(a[..]) != 0
    ensures forall d: Limb :: CompactNumber(d) == CompactNumber(c) && SignOf(d) == SignOf(c) ==> c <= d
  {
    hide Value, Place, Pow2, BitLength, RawWord, CompactNumber, SignOf, Or;
    ghost var x := Value(a[..]);
    var n := Bits(a);
    RawRange(x, n);
    RawCases(x, n);
    var size := (n + 7) / 8;
    var compact: nat;
    if size <= 3 {
      var low := GetLow64(a);
      compact := low * Pow2(8 * (3 - size));
    } else {
      var bn := Copy(a);
      ShrAssign(bn, 8 * (size - 3));
      compact := GetLow64(bn);
    }
    assert compact == RawWord(x, n);
    if compact / SIGN % 2 == 1 {
      compact := compact / 256;
      size := size + 1;
    }
    FinalRange(x, n);
    assert compact == FinalWord(x, n) < SIGN && size == FinalSize(x, n) < 256;
    Assemble(compact, size);
    FinalZero(x, n);
    compact := Or(compact, size * SIZE_UNIT);
    if negative && compact % SIGN != 0 {
      compact := Or(compact, SIGN);
    }
    c := compact;
    GetCompactDone(x, n, c, negative && x != 0);
  }

  // ----- block proof -----

  /** A target that decodes without overflow leaves room for one more. */
  lemma TargetBelowTop(c: Limb)
    requires CompactNumber(c) < Place(8)
    ensures CompactNumber(c) + 1 < Place(8)
  {
    hide Pow2, Place;
    var size := SizeOf(c);
    if size <= 3 {
      SmallScaled(WordOf(c), size);
    } else {
      Pow2Of256();
      Pow2Step(255);
      var k := 8 * (size - 3);
      Pow2Step(k - 1);
      var t := WordOf(c) * Pow2(k - 1);
      assert WordOf(c) * Pow2(k) == 2 * t;
    }
  }

  /** The quotient of the complement, plus one, is the quotient of the unrepresentable `2^256`. */
  lemma ProofQuotient(p: nat, t: nat)
    requires 0 < t && t + 1 < p
    ensures (p - 1 - t) / (t + 1) + 1 == p / (t + 1) < p
  {
    var d := t + 1;
    var q := (p - 1 - t) / d;
    DivIdentity(p - d, d);
    assert p == (q + 1) * d + (p - d) % d;
    DivModUnique(p, d, q + 1, (p - d) % d);
    MulMono(q + 1, 2, d);
  }

  /** The expected number of hashes for a block's target: `2^256 / (target + 1)`, or zero for a target that is zero, negative or
      too large. */
  method GetBlockProof(bits: Limb) returns (r: array<Limb>)
    ensures r.Length == 8
    ensures Value(r[..]) == if CompactNumber(bits) == 0 || SignOf(bits) || CompactNumber(bits) >= Place(8) then 0
                            else Place(8) / (CompactNumber(bits) + 1)
  {
    hide Value, Place, CompactNumber, SignOf;
    var target := FromWord(8, 0);
    var negative, overflow := SetCompact(target, bits);
    ghost var t := CompactNumber(bits);
    if t < Place(8) {
      Fits(t, Place(8));
    }
    var zero := EqualTo(target, 0);
    if negative || overflow || zero {
      r := FromWord(8, 0);
      return;
    }
    TargetBelowTop(bits);
    ProofQuotient(Place(8), t);
    var one := FromWord(8, 1);
    r := Complement(target);
    AddAssign(target, one);
    Fits(t + 1, Place(8));
    var ok := DivAssign(r, target);
    AddAssign(r, one);
    Fits(Place(8) / (t + 1), Place(8));
  }
}
