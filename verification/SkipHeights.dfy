/**
  The heights that the skip links of block index entries lead to, and how many links a walk back by skip and parent links
  follows. Height `w` has `n` binary digits when it is below two to the power of `n`.
 */
module SkipHeights {

  import opened Numbers

  /** Bitwise and. */
  function And(x: nat, y: nat): (r: nat)
    ensures r <= x && r <= y
  {
    if x == 0 || y == 0 then 0
    else 2 * And(x / 2, y / 2) + if x % 2 == 1 && y % 2 == 1 then 1 else 0
  }

  /** Turns the lowest set bit off. */
  function InvertLowestOne(n: nat): (r: nat)
    ensures r <= n && (n > 0 ==> r < n)
  {
    if n == 0 then 0 else And(n, n - 1)
  }

  /** The height the skip link goes to: always lower. */
  function SkipHeight(height: int): (r: nat)
    ensures height > 0 ==> r < height
  {
    if height < 2 then 0
    else if height % 2 == 1 then InvertLowestOne(InvertLowestOne(height - 1)) + 1
    else InvertLowestOne(height)
  }

  /** A walk to height `t` follows the skip link at height `w`: it does not lead too far, and the parent's skip link is not
      better. */
  predicate FollowsSkip(w: int, t: int) {
    var (skip, skipPrev) := (SkipHeight(w), SkipHeight(w - 1));
    skip == t || (skip > t && !(skipPrev < skip - 2 && skipPrev >= t))
  }

  /** The next height of the walk. */
  function WalkNext(w: nat, t: nat): (r: nat)
    requires t < w
    ensures t <= r < w
  {
    if FollowsSkip(w, t) then SkipHeight(w) else w - 1
  }

  /** How many links the walk from height `w` to height `t` follows when every skip link is set. */
  function Steps(w: nat, t: nat): nat
    requires t <= w
    decreases w
  {
    if w == t then 0 else 1 + Steps(WalkNext(w, t), t)
  }

  // ----- turning bits off -----

  lemma {:induction false} AndSelf(x: nat)
    ensures And(x, x) == x
  {
    if x > 0 {
      AndSelf(x / 2);
    }
  }

  lemma InvertOdd(x: nat)
    ensures InvertLowestOne(2 * x + 1) == 2 * x
  {
    AndSelf(x);
  }

  lemma InvertEven(x: nat)
    ensures InvertLowestOne(2 * x) == 2 * InvertLowestOne(x)
  {
    if x > 0 {
      assert (2 * x - 1) / 2 == x - 1 && (2 * x) % 2 == 0;
    }
  }

  lemma {:induction false} InvertScaled(c: nat, k: nat)
    ensures InvertLowestOne(c * Pow2(k)) == InvertLowestOne(c) * Pow2(k)
  {
    hide InvertLowestOne, Pow2;
    Pow2Step(0);
    if k > 0 {
      Pow2Step(k - 1);
      InvertScaled(c, k - 1);
      InvertEven(c * Pow2(k - 1));
      Doubled(c, Pow2(k - 1));
      Doubled(InvertLowestOne(c), Pow2(k - 1));
    }
  }

  lemma Doubled(c: nat, d: nat)
    ensures c * (2 * d) == 2 * (c * d)
  {
  }

  /** Below a multiple of a power of two the bits turn off one by one. */
  lemma InvertBelow(a: nat, k: nat, j: nat)
    requires a > 0 && j < k
    ensures Pow2(j + 1) <= a * Pow2(k) && InvertLowestOne(a * Pow2(k) - Pow2(j)) == a * Pow2(k) - Pow2(j + 1)
  {
    hide InvertLowestOne, Pow2;
    Scale(a, k, j);
    Scale(a, k - j, 1);
    Pow2Step(0);
    Pow2Step(j);
    var c := a * Pow2(k - j) - 1;
    var half := a * Pow2(k - j - 1) - 1;
    assert c == 2 * half + 1;
    InvertOdd(half);
    InvertScaled(c, j);
    assert (c - 1) * Pow2(j) == c * Pow2(j) - Pow2(j);
  }

  /** One step of the lower power below a multiple of the higher one is a multiple of the lower one. */
  lemma Scale(a: nat, k: nat, i: nat)
    requires a > 0 && i <= k
    ensures a * Pow2(k - i) >= 1 && (a * Pow2(k - i) - 1) * Pow2(i) == a * Pow2(k) - Pow2(i)
    ensures a * Pow2(k) == a * Pow2(k - i) * Pow2(i)
  {
    assert Pow2(k) == Pow2(k - i) * Pow2(i) by { PowAdd(2, k - i, i); }
    hide Pow2;
    var (p, q) := (Pow2(k - i), Pow2(i));
    assert a * (p * q) == a * p * q;
    assert (a * p - 1) * q == a * p * q - q;
    assert a * p >= p by { MulMono(p, 1, a); }
  }

  // ----- one step -----

  lemma SkipFromOdd(x: nat)
    requires x > 0
    ensures SkipHeight(2 * x + 1) == InvertLowestOne(InvertLowestOne(2 * x)) + 1
  {
    hide InvertLowestOne;
  }

  lemma SkipFromEven(x: nat)
    requires x > 0
    ensures SkipHeight(2 * x) == InvertLowestOne(2 * x)
  {
    hide InvertLowestOne;
  }

  /** From an odd height the walk follows the skip link whenever that does not lead too far. */
  lemma OddNext(u: nat, x: nat, t: nat)
    requires u == 2 * x > 0 && t <= u
    ensures var skip := InvertLowestOne(InvertLowestOne(u)) + 1;
      WalkNext(u + 1, t) == if t <= skip then skip else u
  {
    hide InvertLowestOne, SkipHeight;
    SkipFromOdd(x);
    SkipFromEven(x);
  }

  /** From an even height it does not if that leads too far. */
  lemma EvenDown(u: nat, x: nat, t: nat)
    requires u == 2 * x > 0 && InvertLowestOne(u) < t < u
    ensures WalkNext(u, t) == u - 1
  {
    hide InvertLowestOne, SkipHeight;
    SkipFromEven(x);
  }

  /** Nor does it pass by the target. */
  lemma SkipToTarget(u: nat, x: nat, t: nat)
    requires u == 2 * x > 0 && t == InvertLowestOne(u)
    ensures WalkNext(u, t) == t
  {
    hide InvertLowestOne, SkipHeight;
    SkipFromEven(x);
  }

  lemma InvertFour(x: nat)
    ensures InvertLowestOne(4 * x) == 4 * InvertLowestOne(x)
  {
    hide InvertLowestOne;
    InvertEven(x);
    InvertEven(2 * x);
  }

  /** The skip heights of an even height and of the one below, by the lowest set bit. */
  lemma SkipsOfTwo(x: nat)
    ensures InvertLowestOne(4 * x + 2) == 4 * x
    ensures x > 0 ==> SkipHeight(4 * x + 1) == InvertLowestOne(InvertLowestOne(4 * x)) + 1
  {
    hide InvertLowestOne, SkipHeight;
    InvertOdd(x);
    InvertEven(2 * x + 1);
    if x > 0 {
      SkipFromOdd(2 * x);
    }
  }

  lemma SkipsOfFour(x: nat)
    ensures InvertLowestOne(8 * x + 4) == 8 * x && SkipHeight(8 * x + 3) == InvertLowestOne(8 * x) + 1
  {
    hide InvertLowestOne, SkipHeight;
    InvertOdd(x);
    InvertFour(2 * x + 1);
    SkipFromOdd(4 * x + 1);
    InvertOdd(2 * x);
    InvertEven(4 * x + 1);
  }

  lemma SkipsOfEight(x: nat)
    requires x > 0
    ensures InvertLowestOne(8 * x) <= 8 * x - 8 && SkipHeight(8 * x - 1) == 8 * x - 7
  {
    hide InvertLowestOne, SkipHeight;
    InvertFour(2 * x);
    InvertEven(x);
    SkipFromOdd(4 * x - 1);
    assert InvertLowestOne(8 * x - 2) == 8 * x - 4 by {
      InvertOdd(2 * x - 1);
      InvertEven(4 * x - 1);
    }
    assert InvertLowestOne(8 * x - 4) == 8 * x - 8 by {
      InvertOdd(x - 1);
      InvertFour(2 * x - 1);
    }
  }

  lemma FromTwoFollows(x: nat, t: nat)
    requires t <= 4 * x && t > InvertLowestOne(4 * x) + 1
    ensures WalkNext(4 * x + 2, t) == 4 * x
  {
    hide InvertLowestOne, SkipHeight;
    SkipsOfTwo(x);
    SkipFromEven(2 * x + 1);
  }

  lemma FromFourFollows(x: nat, t: nat)
    requires t <= 8 * x && t > InvertLowestOne(8 * x) + 1
    ensures WalkNext(8 * x + 4, t) == 8 * x
  {
    hide InvertLowestOne, SkipHeight;
    SkipsOfFour(x);
    SkipFromEven(4 * x + 2);
  }

  lemma FromEightFollows(x: nat, t: nat)
    requires x > 0 && t <= InvertLowestOne(8 * x)
    ensures WalkNext(8 * x, t) == InvertLowestOne(8 * x)
  {
    hide InvertLowestOne, SkipHeight;
    SkipsOfEight(x);
    SkipFromEven(4 * x);
  }

  /** From an even height the walk follows the skip link to a height not below a near target. */
  lemma EvenSkip(u: nat, x: nat, t: nat)
    requires u == 2 * x > 0 && t <= InvertLowestOne(u) && t > InvertLowestOne(InvertLowestOne(u)) + 1
    ensures WalkNext(u, t) == InvertLowestOne(u)
  {
    hide InvertLowestOne, SkipHeight, WalkNext;
    var y := x / 2;
    if x == 2 * y + 1 {
      SkipsOfTwo(y);
      FromTwoFollows(y, t);
    } else {
      var z := y / 2;
      if y == 2 * z + 1 {
        SkipsOfFour(z);
        FromFourFollows(z, t);
      } else {
        FromEightFollows(z, t);
      }
    }
  }

  // ----- down to a target less than a power of two below -----

  /** The most links to a target less than two to the power of `k` below a multiple of it. */
  function Cost(k: nat): nat {
    if k < 2 then k else Cost(k - 1) + (k + 3) / 2
  }

  /** One link less if the multiple is the power itself: height 1 is reached at once. */
  function CostFrom(a: nat, k: nat): nat {
    if a == 1 && k >= 2 then Cost(k) - 1 else Cost(k)
  }

  lemma {:induction false} CostGrows(i: nat, k: nat)
    requires i <= k
    ensures Cost(i) + (k - i) <= Cost(k)
  {
    if i < k {
      CostGrows(i, k - 1);
    }
  }

  /** The skip link of a multiple of a power leads to the next multiple below or further. */
  lemma StepDown(a: nat, k: nat, t: nat)
    requires a > 0 && k > 0 && a * Pow2(k) - Pow2(k) < t < a * Pow2(k)
    ensures WalkNext(a * Pow2(k), t) == a * Pow2(k) - 1
  {
    hide Pow2, WalkNext, InvertLowestOne;
    var w := a * Pow2(k);
    InvertScaled(a, k);
    assert InvertLowestOne(a) * Pow2(k) <= (a - 1) * Pow2(k) by { MulMono(Pow2(k), InvertLowestOne(a), a - 1); }
    assert (a - 1) * Pow2(k) == w - Pow2(k);
    Pow2Step(k - 1);
    Doubled(a, Pow2(k - 1));
    EvenDown(w, a * Pow2(k - 1), t);
  }

  /** The walk from the height `a * Pow2(k)`. */
  lemma {:induction false} Descent(a: nat, k: nat, t: nat)
    requires a > 0 && a * Pow2(k) - Pow2(k) < t <= a * Pow2(k)
    ensures Steps(a * Pow2(k), t) <= CostFrom(a, k)
    decreases k, k + 1
  {
    hide Pow2, WalkNext, Steps, CostFrom;
    var w := a * Pow2(k);
    Pow2Step(0);
    if t < w {
      StepDown(a, k, t);
      StepTo(w, t);
      Pow2Step(k - 1);
      AtLeastPower(a, k);
      OddRun(a, k, 1, t);
    } else {
      StepsZero(w);
    }
  }

  lemma AtLeastPower(a: nat, k: nat)
    requires a > 0
    ensures Pow2(k) <= a * Pow2(k)
  {
    hide Pow2;
    MulMono(Pow2(k), 1, a);
  }

  /** The walk from the height `a * Pow2(k) - Pow2(j) + 1`: over odd heights, two bits at a time, as far as they go. */
  lemma {:induction false} OddRun(a: nat, k: nat, j: nat, t: nat)
    requires a > 0 && j % 2 == 1 && j <= k && Pow2(j) <= a * Pow2(k)
    requires a * Pow2(k) - Pow2(k) < t <= a * Pow2(k) - Pow2(j) + 1
    ensures Steps(a * Pow2(k) - Pow2(j) + 1, t) + 1 + (j - 1) / 2 <= CostFrom(a, k)
    decreases k, k - j
  {
    hide Pow2, WalkNext, InvertLowestOne, Cost;
    var w := a * Pow2(k);
    CostAtLeast(k);
    if t <= w - Pow2(j) {
      Pow2Step(j - 1);
      Doubled(a, Pow2(k - 1));
      Pow2Step(k - 1);
      InvertBelow(a, k, j);
      if j == k - 1 {
        LastOdd(a, k, t);
      } else {
        Pow2Step(j);
        Pow2Step(j + 1);
        InvertBelow(a, k, j + 1);
        var x := Half(a, k, j);
        OddNext(w - Pow2(j), x, t);
        if t <= w - Pow2(j + 2) + 1 {
          OddRun(a, k, j + 2, t);
        } else {
          BetweenOdds(a, k, j, t);
        }
      }
    }
  }

  lemma CostAtLeast(k: nat)
    ensures k <= Cost(k) && (k >= 2 ==> k < Cost(k))
  {
    CostGrows(0, k);
    if k >= 2 {
      CostGrows(2, k);
    }
  }

  lemma CostBetween(a: nat, b: nat, k: nat, j: nat)
    requires j % 2 == 1 && j <= k - 2 && (a == 1 && j == k - 2 ==> b == 1)
    ensures Cost(j) + 2 + (j - 1) / 2 <= CostFrom(a, k)
    ensures CostFrom(b, j + 1) + 3 + (j - 1) / 2 <= CostFrom(a, k)
  {
    CostGrows(j + 2, k);
    assert Cost(j + 2) == Cost(j + 1) + (j + 5) / 2;
    assert Cost(j + 1) == Cost(j) + (j + 4) / 2;
  }

  lemma CostLast(a: nat, b: nat, k: nat)
    requires k % 2 == 0 && k > 2 && (a == 1 ==> b == 1)
    ensures CostFrom(b, k - 1) + 2 + (k - 2) / 2 <= CostFrom(a, k)
  {
    assert Cost(k) == Cost(k - 1) + (k + 3) / 2;
  }

  /** The target is between two heights of the run. */
  lemma {:induction false} BetweenOdds(a: nat, k: nat, j: nat, t: nat)
    requires a > 0 && j % 2 == 1 && j <= k - 2 && Pow2(j + 2) <= a * Pow2(k)
    requires a * Pow2(k) - Pow2(j + 2) + 1 < t <= a * Pow2(k) - Pow2(j)
    ensures Steps(a * Pow2(k) - Pow2(j), t) + 2 + (j - 1) / 2 <= CostFrom(a, k)
    decreases k, 0
  {
    hide Pow2, WalkNext, InvertLowestOne, Steps, Cost, CostFrom;
    var w := a * Pow2(k);
    Pow2Step(j);
    Pow2Step(j + 1);
    var b := Lower(a, k, j + 1);
    CostBetween(a, b, k, j);
    if t > w - Pow2(j + 1) {
      var c := Lower(a, k, j);
      Descent(c, j, t);
      CostFromAtMost(c, j);
    } else {
      NearSkip(a, k, j, t);
      Descent(b, j + 1, t);
    }
  }

  lemma NearSkip(a: nat, k: nat, j: nat, t: nat)
    requires a > 0 && 1 <= j <= k - 2 && Pow2(j) <= a * Pow2(k) && Pow2(j + 1) <= a * Pow2(k)
    requires a * Pow2(k) - Pow2(j + 2) + 1 < t <= a * Pow2(k) - Pow2(j + 1)
    ensures t <= a * Pow2(k) - Pow2(j)
    ensures Steps(a * Pow2(k) - Pow2(j), t) == 1 + Steps(a * Pow2(k) - Pow2(j + 1), t)
  {
    hide Pow2, WalkNext, InvertLowestOne;
    var u := a * Pow2(k) - Pow2(j);
    Pow2Step(j);
    InvertBelow(a, k, j);
    InvertBelow(a, k, j + 1);
    var x := Half(a, k, j);
    EvenSkip(u, x, t);
  }

  /** A lower power below a multiple of a power is a multiple of the lower power. */
  lemma Lower(a: nat, k: nat, i: nat) returns (b: nat)
    requires a > 0 && i < k
    ensures b > 0 && Pow2(i) < a * Pow2(k) && b * Pow2(i) == a * Pow2(k) - Pow2(i) && (a == 1 && i == k - 1 ==> b == 1)
  {
    hide Pow2;
    Scale(a, k, i);
    Pow2Step(0);
    Pow2Step(k - i - 1);
    b := a * Pow2(k - i) - 1;
    MulMono(Pow2(k - i), 1, a);
    MulMono(Pow2(i), 1, b);
  }

  lemma CostFromAtMost(a: nat, k: nat)
    ensures CostFrom(a, k) <= Cost(k)
  {
  }

  lemma StepTo(w: nat, t: nat)
    requires t < w
    ensures Steps(w, t) == 1 + Steps(WalkNext(w, t), t)
  {
  }

  /** The target is between the last height of the run and the multiple below. */
  lemma {:induction false} LastOdd(a: nat, k: nat, t: nat)
    requires a > 0 && k >= 2 && k % 2 == 0 && a * Pow2(k) - Pow2(k) < t <= a * Pow2(k) - Pow2(k - 1)
    ensures Steps(a * Pow2(k) - Pow2(k - 1) + 1, t) + 1 + (k - 2) / 2 <= CostFrom(a, k)
    decreases k, 0
  {
    hide Pow2, WalkNext, InvertLowestOne, Cost;
    var u := a * Pow2(k) - Pow2(k - 1);
    Pow2Step(0);
    Pow2Step(k - 1);
    var x := Half(a, k, k - 1);
    InvertBelow(a, k, k - 1);
    OddNext(u, x, t);
    CostAtLeast(k);
    if t > InvertLowestOne(InvertLowestOne(u)) + 1 {
      hide Steps;
      StepTo(u + 1, t);
      Scale(a, k, k - 1);
      Descent(2 * a - 1, k - 1, t);
      if k == 2 {
        SmallCosts();
      } else {
        CostLast(a, 2 * a - 1, k);
      }
    }
  }

  lemma SmallCosts()
    ensures Cost(1) == 1 && Cost(2) == 3
  {
  }

  lemma Half(a: nat, k: nat, j: nat) returns (x: nat)
    requires a > 0 && 1 <= j < k
    ensures a * Pow2(k) - Pow2(j) == 2 * x > 0
  {
    hide Pow2;
    var b := Lower(a, k, j);
    Pow2Step(j - 1);
    Doubled(b, Pow2(j - 1));
    x := b * Pow2(j - 1);
    MulMono(Pow2(j - 1), 1, b);
  }

  // ----- any start -----

  /** Bit `k` is the lowest set bit of `u`, and `d` is what is above it. */
  predicate Low(u: nat, d: nat, k: nat) {
    u == (2 * d + 1) * Pow2(k)
  }

  lemma LowInvert(u: nat, d: nat, k: nat)
    requires Low(u, d, k)
    ensures InvertLowestOne(u) == u - Pow2(k) == d * Pow2(k + 1)
  {
    hide Pow2, InvertLowestOne;
    InvertOdd(d);
    InvertScaled(2 * d + 1, k);
    Pow2Step(k);
    Doubled(d, Pow2(k));
    assert (2 * d + 1) * Pow2(k) == 2 * (d * Pow2(k)) + Pow2(k);
  }

  lemma {:induction false} FindLow(c: nat, i: nat) returns (d: nat, k: nat)
    requires c > 0
    ensures Low(c * Pow2(i), d, k) && k >= i
    decreases c
  {
    hide Pow2;
    if c % 2 == 1 {
      d, k := c / 2, i;
    } else {
      Pow2Step(i);
      Doubled(c / 2, Pow2(i));
      d, k := FindLow(c / 2, i + 1);
    }
  }

  /** The next set bit is higher. */
  lemma NextLow(u: nat, d: nat, k: nat) returns (d': nat, k': nat)
    requires Low(u, d, k) && InvertLowestOne(u) > 0
    ensures Low(InvertLowestOne(u), d', k') && k' > k
  {
    hide Pow2, Low, InvertLowestOne;
    LowInvert(u, d, k);
    d', k' := FindLow(d, k + 1);
  }

  /** The lowest set bit of a number of `n` binary digits is among them, and is all of it if it is the highest. */
  lemma LowBelow(u: nat, d: nat, k: nat, n: nat)
    requires Low(u, d, k) && u < Pow2(n)
    ensures k < n && (k == n - 1 ==> d == 0)
  {
    if k >= n {
      PowMono(2, n, k);
      MulMono(Pow2(k), 1, 2 * d + 1);
      assert false;
    }
    hide Pow2;
    if k == n - 1 && d > 0 {
      Pow2Step(k);
      MulMono(Pow2(k), 3, 2 * d + 1);
      assert false;
    }
  }

  lemma LowEven(u: nat, d: nat, k: nat) returns (x: nat)
    requires Low(u, d, k) && k >= 1
    ensures u == 2 * x > 0 && (k == 1 ==> u == 4 * d + 2) && (k == 2 ==> u == 8 * d + 4)
  {
    hide Pow2;
    Pow2Step(0);
    Pow2Step(1);
    Pow2Step(k - 1);
    Doubled(2 * d + 1, Pow2(k - 1));
    x := (2 * d + 1) * Pow2(k - 1);
    assert x >= Pow2(k - 1) by { MulMono(Pow2(k - 1), 1, 2 * d + 1); }
  }

  lemma LowEight(u: nat, d: nat, k: nat) returns (x: nat)
    requires Low(u, d, k) && k >= 3
    ensures u == 8 * x > 0
  {
    assert Pow2(k) == 8 * Pow2(k - 3) by {
      PowAdd(2, k - 3, 3);
      assert Pow(2, 3) == 8;
    }
    hide Pow2;
    x := (2 * d + 1) * Pow2(k - 3);
    MulAssoc(2 * d + 1, 8, Pow2(k - 3));
    assert x >= Pow2(k - 3) by { MulMono(Pow2(k - 3), 1, 2 * d + 1); }
  }

  lemma LowDescent(u: nat, d: nat, k: nat, t: nat)
    requires Low(u, d, k) && InvertLowestOne(u) < t <= u
    ensures Steps(u, t) <= CostFrom(2 * d + 1, k)
  {
    hide Pow2, Steps, CostFrom, InvertLowestOne;
    LowInvert(u, d, k);
    Descent(2 * d + 1, k, t);
  }

  lemma CostBelow(d: nat, k: nat, n: nat)
    requires k < n && (k == n - 1 ==> d == 0)
    ensures CostFrom(2 * d + 1, k) <= Cost(n - 1) && (k >= 2 ==> CostFrom(2 * d + 1, k) < Cost(n - 1))
  {
    CostGrows(k, n - 1);
    CostAtLeast(k);
  }

  /** The target is between an even height and the height two set bits below. */
  lemma NearEven(u: nat, d: nat, k: nat, n: nat, t: nat)
    requires Low(u, d, k) && k >= 1 && u < Pow2(n)
    requires InvertLowestOne(InvertLowestOne(u)) + 1 < t <= u
    ensures 1 <= k < n && Steps(u, t) <= Cost(n - 1)
  {
    hide Pow2, Low, InvertLowestOne, Steps, Cost, CostFrom, WalkNext;
    LowBelow(u, d, k, n);
    CostBelow(d, k, n);
    if InvertLowestOne(u) < t {
      LowDescent(u, d, k, t);
    } else {
      var x := LowEven(u, d, k);
      EvenSkip(u, x, t);
      StepTo(u, t);
      var d', k' := NextLow(u, d, k);
      LowBelow(InvertLowestOne(u), d', k', n);
      CostBelow(d', k', n);
      LowDescent(InvertLowestOne(u), d', k', t);
    }
  }

  lemma FromOne(t: nat)
    requires t <= 1
    ensures Steps(1, t) <= 1
  {
  }

  /** The walk from an odd height. */
  lemma {:induction false} OddChain(u: nat, d: nat, k: nat, n: nat, t: nat)
    requires Low(u, d, k) && k >= 1 && u < Pow2(n) && t <= u + 1
    ensures k < n && Steps(u + 1, t) <= Cost(n - 1) + 1 + (n - 1 - k) / 2
    decreases u
  {
    hide Pow2, Low, InvertLowestOne, Steps, Cost, WalkNext;
    LowBelow(u, d, k, n);
    CostAtLeast(n - 1);
    if t > u {
      assert Steps(u + 1, u + 1) == 0 by { StepsZero(u + 1); }
    } else {
      var v := InvertLowestOne(InvertLowestOne(u));
      var x := LowEven(u, d, k);
      OddNext(u, x, t);
      StepTo(u + 1, t);
      if t > v + 1 {
        NearEven(u, d, k, n, t);
      } else if v == 0 {
        FromOne(t);
      } else {
        var d', k' := NextLow(u, d, k);
        var d'', k'' := NextLow(InvertLowestOne(u), d', k');
        OddChain(v, d'', k'', n, t);
      }
    }
  }

  lemma StepsZero(w: nat)
    ensures Steps(w, w) == 0
  {
  }

  /** The walk from an even height. */
  lemma {:induction false} EvenChain(u: nat, d: nat, k: nat, n: nat, t: nat)
    requires Low(u, d, k) && k >= 3 && u < Pow2(n) && t <= u
    ensures k < n && Steps(u, t) <= Cost(n - 1) + (n - 2 - k)
    decreases u
  {
    hide Pow2, Low, InvertLowestOne, Steps, Cost, CostFrom, WalkNext;
    LowBelow(u, d, k, n);
    CostBelow(d, k, n);
    CostAtLeast(n - 1);
    if t > InvertLowestOne(u) {
      LowDescent(u, d, k, t);
    } else {
      var x := LowEight(u, d, k);
      FromEightFollows(x, t);
      StepTo(u, t);
      if InvertLowestOne(u) == t {
        StepsZero(t);
      } else {
        var d', k' := NextLow(u, d, k);
        EvenChain(InvertLowestOne(u), d', k', n, t);
      }
    }
  }

  /** The same from an even height with a set bit below bit 3: where the parent's skip link is better, the walk goes on over
      odd heights. */
  lemma LowStart(u: nat, d: nat, k: nat, n: nat, t: nat)
    requires Low(u, d, k) && 1 <= k <= 2 && u < Pow2(n) && t <= u
    ensures k < n && Steps(u, t) <= Cost(n - 1) + (n + 1) / 2
  {
    hide Pow2, Low, InvertLowestOne, Steps, Cost, CostFrom, WalkNext;
    LowBelow(u, d, k, n);
    CostBelow(d, k, n);
    CostAtLeast(n - 1);
    var x := LowEven(u, d, k);
    if t > InvertLowestOne(u) {
      LowDescent(u, d, k, t);
    } else if t == InvertLowestOne(u) {
      SkipToTarget(u, x, t);
      StepTo(u, t);
      StepsZero(t);
    } else if t > InvertLowestOne(InvertLowestOne(u)) + 1 {
      NearEven(u, d, k, n, t);
    } else {
      var d', k' := NextLow(u, d, k);
      LowBelow(InvertLowestOne(u), d', k', n);
      if k == 1 {
        SkipsOfTwo(d);
        FromTwo(d, d', k', n, t);
      } else {
        SkipsOfFour(d);
        FromFour(d, d', k', n, t);
      }
    }
  }

  /** On an odd height, with two set bits more turned off. */
  lemma AfterDetour(s: nat, d: nat, k: nat, n: nat, t: nat)
    requires Low(s, d, k) && k >= 3 && s < Pow2(n) && t <= InvertLowestOne(s) + 1
    ensures Steps(InvertLowestOne(s) + 1, t) + 2 <= Cost(n - 1) + (n + 1) / 2
  {
    hide Pow2, Low, InvertLowestOne, Steps, Cost;
    LowBelow(s, d, k, n);
    CostAtLeast(n - 1);
    if InvertLowestOne(s) == 0 {
      FromOne(t);
    } else {
      var d', k' := NextLow(s, d, k);
      OddChain(InvertLowestOne(s), d', k', n, t);
    }
  }

  /** From a height with lowest set bit 2 to a far target the walk goes over the parent. */
  lemma FourDetour(x: nat, t: nat)
    requires x > 0 && t < 8 * x && t <= InvertLowestOne(8 * x) + 1
    ensures WalkNext(8 * x + 4, t) == 8 * x + 3
  {
    hide InvertLowestOne, SkipHeight;
    SkipsOfFour(x);
    SkipFromEven(4 * x + 2);
    SkipsOfEight(x);
  }

  lemma FromFour(x: nat, d: nat, k: nat, n: nat, t: nat)
    requires 8 * x + 4 < Pow2(n) && Low(8 * x, d, k) && k >= 3 && t < 8 * x && t <= InvertLowestOne(8 * x) + 1
    ensures Steps(8 * x + 4, t) <= Cost(n - 1) + (n + 1) / 2
  {
    hide Pow2, Low, InvertLowestOne, Steps, Cost, WalkNext, SkipHeight;
    FourDetour(x, t);
    SkipsOfTwo(2 * x);
    OddNext(8 * x + 2, 4 * x + 1, t);
    StepTo(8 * x + 4, t);
    StepTo(8 * x + 3, t);
    AfterDetour(8 * x, d, k, n, t);
  }

  /** The same with lowest set bit 1. */
  lemma TwoDetour(x: nat, t: nat)
    requires x > 0 && t < 4 * x && InvertLowestOne(InvertLowestOne(4 * x)) + 1 < 4 * x - 2
    ensures WalkNext(4 * x + 2, t) == if t <= InvertLowestOne(InvertLowestOne(4 * x)) + 1 then 4 * x + 1 else 4 * x
  {
    hide InvertLowestOne, SkipHeight;
    SkipsOfTwo(x);
    SkipFromEven(2 * x + 1);
  }

  lemma FromTwo(x: nat, d: nat, k: nat, n: nat, t: nat)
    requires 4 * x + 2 < Pow2(n) && Low(4 * x, d, k) && k >= 2 && t < 4 * x && t <= InvertLowestOne(4 * x) + 1
    ensures Steps(4 * x + 2, t) <= Cost(n - 1) + (n + 1) / 2
  {
    hide Pow2, Low, InvertLowestOne, Steps, Cost, WalkNext, SkipHeight;
    var s := 4 * x;
    var v := InvertLowestOne(s);
    LowBelow(s, d, k, n);
    CostAtLeast(n - 1);
    BelowFour(s, d, k);
    TwoDetour(x, t);
    StepTo(s + 2, t);
    if t > InvertLowestOne(v) + 1 {
      NearEven(s, d, k, n, t);
    } else {
      OddNext(s, 2 * x, t);
      StepTo(s + 1, t);
      if v == 0 {
        FromOne(t);
      } else {
        var d', k' := NextLow(s, d, k);
        AfterDetour(v, d', k', n, t);
      }
    }
  }

  lemma BelowFour(s: nat, d: nat, k: nat)
    requires Low(s, d, k) && k >= 2
    ensures s >= 4 && InvertLowestOne(InvertLowestOne(s)) + 1 < s - 2
  {
    assert Pow2(2) == 4;
    PowMono(2, 2, k);
    hide Low, InvertLowestOne;
    LowInvert(s, d, k);
  }

  // ----- the bound -----

  /** The most links from a height up to two to the power of `n`. */
  function MaxSteps(n: nat): int
    requires n > 0
  {
    Cost(n - 1) + if n - 5 > (n + 1) / 2 then n - 5 else (n + 1) / 2
  }

  /** No walk from a height up to two to the power of `n` follows more links. */
  lemma StepBound(w: nat, t: nat, n: nat)
    requires n > 0 && t <= w <= Pow2(n)
    ensures Steps(w, t) <= MaxSteps(n)
  {
    hide Pow2, Low, InvertLowestOne, Steps, Cost, CostFrom;
    if t == w {
      StepsZero(t);
    } else if w == Pow2(n) {
      FromPower(n, t);
    } else if w == 1 {
      FromOne(t);
    } else {
      Pow2Step(0);
      var u := if w % 2 == 1 then w - 1 else w;
      assert u == u / 2 * Pow2(1);
      var d, k := FindLow(u / 2, 1);
      if w % 2 == 1 {
        OddChain(u, d, k, n, t);
      } else if k >= 3 {
        EvenChain(u, d, k, n, t);
      } else {
        LowStart(u, d, k, n, t);
      }
    }
  }

  lemma WalkBounds(w: nat, t: nat)
    requires t <= w
    ensures forall n: nat :: 0 < n && w <= Pow2(n) ==> Steps(w, t) <= MaxSteps(n)
  {
    hide Pow2, Steps, MaxSteps;
    forall n: nat | 0 < n && w <= Pow2(n) ensures Steps(w, t) <= MaxSteps(n) {
      StepBound(w, t, n);
    }
  }

  lemma FromPower(n: nat, t: nat)
    requires n > 0 && t < Pow2(n)
    ensures Steps(Pow2(n), t) <= MaxSteps(n)
  {
    hide Pow2, InvertLowestOne, Steps;
    Pow2Step(n - 1);
    assert Low(Pow2(n), 0, n);
    LowInvert(Pow2(n), 0, n);
    if t == 0 {
      hide WalkNext;
      SkipToTarget(Pow2(n), Pow2(n - 1), 0);
      StepTo(Pow2(n), 0);
      StepsZero(0);
      CostAtLeast(n - 1);
    } else {
      LowDescent(Pow2(n), 0, n, t);
    }
  }

  lemma {:induction false} CostClosed(k: nat)
    ensures k > 0 ==> Cost(k) == (k * k + 6 * k - 3) / 4
    ensures k > 0 && k % 2 == 0 ==> Cost(k) == (k / 2) * (k / 2) + 3 * (k / 2) - 1
    ensures k % 2 == 1 ==> Cost(k) == (k / 2) * (k / 2) + 4 * (k / 2) + 1
  {
    var m := k / 2;
    if k > 1 {
      CostClosed(k - 1);
      assert k % 2 == 0 ==> (m - 1) * (m - 1) == m * m - 2 * m + 1;
    }
    assert k == 2 * m || k == 2 * m + 1;
    assert k == 2 * m ==> k * k == 4 * (m * m);
    assert k == 2 * m + 1 ==> k * k == 4 * (m * m) + 4 * m + 1;
  }

  /** As documented: going back from up to 2**18 blocks takes at most 110 links. */
  lemma DocumentedBound(w: nat, t: nat)
    requires t <= w <= 262144
    ensures Steps(w, t) <= 110
  {
    assert Pow2(6) == 64 && Pow2(12) == 4096 && Pow2(18) == 262144;
    hide Steps, Pow2;
    CostClosed(17);
    StepBound(w, t, 18);
  }

  // ----- the bound is attained -----

  /** The walk from a power of two to height 2 is as long as it can be. */
  lemma {:induction false} FromPowerToTwo(k: nat)
    requires k >= 2
    ensures 2 <= Pow2(k) && Steps(Pow2(k), 2) == Cost(k) - 1
    decreases k, k + 1
  {
    hide Pow2, InvertLowestOne, WalkNext, Steps, Cost;
    Pow2Step(k - 1);
    Pow2Step(k - 2);
    assert Low(Pow2(k), 0, k);
    LowInvert(Pow2(k), 0, k);
    Pow2Step(0);
    EvenDown(Pow2(k), Pow2(k - 1), 2);
    StepTo(Pow2(k), 2);
    RunToTwo(k, 1);
  }

  lemma {:induction false} RunToTwo(k: nat, j: nat)
    requires k >= 2 && j % 2 == 1 && j < k
    ensures Pow2(j) < Pow2(k) && Steps(Pow2(k) - Pow2(j) + 1, 2) == Cost(k) - 2 - (j - 1) / 2
    decreases k, k - j
  {
    hide Pow2, Steps, Cost;
    if j == k - 1 {
      LastOfEven(k);
    } else if j == k - 2 {
      LastOfOdd(k);
    } else {
      OneOfRun(k, j);
      RunToTwo(k, j + 2);
    }
  }

  lemma OneOfRun(k: nat, j: nat)
    requires 1 <= j < k - 2
    ensures Pow2(j) < Pow2(j + 2) < Pow2(k)
    ensures Steps(Pow2(k) - Pow2(j) + 1, 2) == 1 + Steps(Pow2(k) - Pow2(j + 2) + 1, 2)
  {
    hide Pow2, InvertLowestOne, WalkNext, Steps;
    var u := Pow2(k) - Pow2(j);
    Pow2Step(j);
    Pow2Step(j + 1);
    var _ := Lower(1, k, j + 2);
    InvertBelow(1, k, j);
    InvertBelow(1, k, j + 1);
    var x := Half(1, k, j);
    OddNext(u, x, 2);
    StepTo(u + 1, 2);
  }

  lemma {:induction false} LastOfEven(k: nat)
    requires k >= 2 && k % 2 == 0
    ensures Pow2(k - 1) < Pow2(k) && Steps(Pow2(k) - Pow2(k - 1) + 1, 2) == Cost(k) - 2 - (k - 2) / 2
    decreases k, 0
  {
    hide Pow2, InvertLowestOne, WalkNext, Steps, Cost;
    var u := Pow2(k - 1);
    Pow2Step(k - 1);
    InvertBelow(1, k, k - 1);
    var x := Half(1, k, k - 1);
    CostStep(k);
    OddNext(u, x, 2);
    StepTo(u + 1, 2);
    if k == 2 {
      Pow2Step(0);
      StepsZero(2);
    } else {
      FromPowerToTwo(k - 1);
    }
  }

  lemma {:induction false} LastOfOdd(k: nat)
    requires k >= 3 && k % 2 == 1
    ensures Pow2(k - 2) < Pow2(k) && Steps(Pow2(k) - Pow2(k - 2) + 1, 2) == Cost(k) - 2 - (k - 3) / 2
    decreases k, 0
  {
    hide Pow2, InvertLowestOne, WalkNext, Steps, Cost;
    var u := Pow2(k) - Pow2(k - 2);
    Pow2Step(k - 1);
    Pow2Step(k - 2);
    InvertBelow(1, k, k - 2);
    InvertBelow(1, k, k - 1);
    var x := Half(1, k, k - 2);
    CostStep(k);
    OddNext(u, x, 2);
    StepTo(u + 1, 2);
    FromPowerToTwo(k - 1);
    EvenSkip(u, x, 2);
    StepTo(u, 2);
  }

  lemma CostStep(k: nat)
    requires k >= 2
    ensures Cost(k) == Cost(k - 1) + (k + 3) / 2 && Cost(1) == 1
  {
  }

  /** From eight below a power of two the walk first turns off the bits one by one. */
  lemma {:induction false} FromBelowPower(n: nat, k: nat)
    requires 3 <= k < n
    ensures Pow2(k) + 2 <= Pow2(n) && Steps(Pow2(n) - Pow2(k), 2) == Cost(n - 1) - 1 + (n - 1 - k)
    decreases n - k
  {
    hide Pow2, Steps, Cost;
    Pow2Step(k);
    if k == n - 1 {
      FromPowerToTwo(k);
    } else {
      FromBelowPower(n, k + 1);
      BitOff(n, k);
    }
  }

  lemma BitOff(n: nat, k: nat)
    requires 3 <= k < n && Pow2(k + 1) + 2 <= Pow2(n) && Pow2(k) < Pow2(k + 1)
    ensures Steps(Pow2(n) - Pow2(k), 2) == 1 + Steps(Pow2(n) - Pow2(k + 1), 2)
  {
    hide Pow2, InvertLowestOne, WalkNext, Steps;
    var u := Pow2(n) - Pow2(k);
    InvertBelow(1, n, k);
    var b := Lower(1, n, k);
    var d, i := FindLow(b, k);
    var x := LowEight(u, d, i);
    FromEightFollows(x, 2);
    StepTo(u, 2);
  }

  /** For every `n` some walk from a height up to two to the power of `n` follows that many links. */
  lemma Attained(n: nat) returns (w: nat, t: nat)
    requires n > 0
    ensures t <= w <= Pow2(n) && Steps(w, t) == MaxSteps(n)
  {
    hide Pow2, Steps, Cost;
    if n == 1 {
      w, t := 1, 0;
      WalkFromOne();
    } else if n - 5 > (n + 1) / 2 {
      FromBelowPower(n, 3);
      w, t := Pow2(n) - Pow2(3), 2;
    } else {
      FromPowerToTwo(n);
      CostStep(n);
      w, t := Pow2(n), 2;
    }
  }

  lemma WalkFromOne()
    ensures Steps(1, 0) == 1 && Cost(0) == 0
  {
  }
}