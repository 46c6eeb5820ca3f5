/** Positional numerals: most significant digit first, in any base. */
module Numerals {
  import opened Common

  ghost predicate Digits(base: nat, ds: seq<nat>) {
    forall i :: 0 <= i < |ds| ==> ds[i] < base
  }

  function Value(base: nat, ds: seq<nat>): nat {
    if ds == [] then 0 else Value(base, ds[..|ds| - 1]) * base + ds[|ds| - 1]
  }

  /** The numeral of n without leading zeros; empty for zero. */
  function Minimal(base: nat, n: nat): seq<nat>
    requires base >= 2
  {
    if n == 0 then [] else Shrinks(base, n); Minimal(base, n / base) + [n % base]
  }

  /** The k lowest digits of n. */
  function Fixed(base: nat, k: nat, n: int): seq<nat>
    requires base >= 2
  {
    if k == 0 then [] else Fixed(base, k - 1, n / base) + [n % base]
  }

  function Pow(base: nat, k: nat): nat {
    if k == 0 then 1 else base * Pow(base, k - 1)
  }

  function Zeros(k: nat): (z: seq<nat>)
    ensures |z| == k && forall i :: 0 <= i < k ==> z[i] == 0
  {
    seq(k, i => 0)
  }

  lemma Shrinks(base: nat, n: nat)
    requires base >= 2 && n > 0
    ensures n / base < n
  {
    assert n == base * (n / base) + n % base;
    MulMono(n / base, 2, base);
  }

  lemma DivMod(base: nat, q: int, r: nat)
    requires r < base
    ensures (q * base + r) / base == q && (q * base + r) % base == r
  {
    var n := q * base + r;
    var d := n / base - q;
    assert n == base * (n / base) + n % base;
    assert base * d == r - n % base;
    if d > 0 {
      MulMono(base, 1, d);
    } else if d < 0 {
      MulMono(base, d, -1);
    }
  }

  lemma ValueSnoc(base: nat, ds: seq<nat>, d: nat)
    ensures Value(base, ds + [d]) == Value(base, ds) * base + d
  {
    assert (ds + [d])[..|ds|] == ds;
  }

  lemma MinimalSnoc(base: nat, n: nat)
    requires base >= 2 && n > 0
    ensures Minimal(base, n) == Minimal(base, n / base) + [n % base]
  {
  }

  lemma DivModSum(base: nat, n: int)
    requires base >= 1
    ensures n == n / base * base + n % base && 0 <= n % base < base
  {
  }

  lemma {:induction false} MinimalFacts(base: nat, n: nat)
    requires base >= 2
    ensures Digits(base, Minimal(base, n))
    ensures Value(base, Minimal(base, n)) == n
    ensures Minimal(base, n) != [] ==> Minimal(base, n)[0] != 0
    ensures n == 0 <==> Minimal(base, n) == []
    decreases n
  {
    if n > 0 {
      Shrinks(base, n);
      var front, d := Minimal(base, n / base), n % base;
      MinimalFacts(base, n / base);
      MinimalSnoc(base, n);
      hide Minimal, Value;
      ValueSnoc(base, front, d);
      DivModSum(base, n);
    }
  }

  lemma {:induction false} ValuePositive(base: nat, ds: seq<nat>)
    requires base >= 2 && ds != [] && ds[0] != 0
    ensures Value(base, ds) > 0
  {
    if |ds| > 1 {
      ValuePositive(base, ds[..|ds| - 1]);
      assert Value(base, ds[..|ds| - 1]) * base > 0;
    } else {
      assert ds[..0] == [];
    }
  }

  /** A numeral without leading zeros is the minimal numeral of its value. */
  lemma {:induction false} MinimalUnique(base: nat, ds: seq<nat>)
    requires base >= 2 && Digits(base, ds)
    requires ds != [] ==> ds[0] != 0
    ensures Minimal(base, Value(base, ds)) == ds
    decreases |ds|
  {
    if ds != [] {
      var init, d := ds[..|ds| - 1], ds[|ds| - 1];
      MinimalUnique(base, init);
      ValuePositive(base, ds);
      DivMod(base, Value(base, init), d);
    }
  }

  lemma {:induction false} LeadingZeros(base: nat, k: nat, ds: seq<nat>)
    ensures Value(base, Zeros(k) + ds) == Value(base, ds)
    decreases |ds|
  {
    if ds == [] {
      assert Zeros(k) + ds == Zeros(k);
      ZerosValue(base, k);
    } else {
      assert (Zeros(k) + ds)[..k + |ds| - 1] == Zeros(k) + ds[..|ds| - 1];
      LeadingZeros(base, k, ds[..|ds| - 1]);
    }
  }

  lemma {:induction false} ZerosValue(base: nat, k: nat)
    ensures Value(base, Zeros(k)) == 0
  {
    if k > 0 {
      assert Zeros(k)[..k - 1] == Zeros(k - 1);
      ZerosValue(base, k - 1);
    }
  }

  // ----- fixed-width numerals -----

  lemma {:induction false} FixedFacts(base: nat, k: nat, n: int)
    requires base >= 2
    ensures |Fixed(base, k, n)| == k && Digits(base, Fixed(base, k, n))
    decreases k
  {
    if k > 0 {
      FixedFacts(base, k - 1, n / base);
    }
  }

  lemma {:induction false} ValueBound(base: nat, ds: seq<nat>)
    requires Digits(base, ds)
    ensures Value(base, ds) < Pow(base, |ds|)
    decreases |ds|
  {
    if ds != [] {
      var init := ds[..|ds| - 1];
      ValueBound(base, init);
      MulMono(base, Value(base, init) + 1, Pow(base, |init|));
      assert ds[|ds| - 1] < base;
      assert Value(base, ds) < base * (Value(base, init) + 1);
    }
  }

  /** Reading k digits back gives n, when n fits in k digits. */
  lemma {:induction false} FixedValue(base: nat, k: nat, n: nat)
    requires base >= 2 && n < Pow(base, k)
    ensures Value(base, Fixed(base, k, n)) == n
    decreases k
  {
    if k > 0 {
      DivFits(base, Pow(base, k - 1), n);
      FixedValue(base, k - 1, n / base);
      hide Value;
      ValueSnoc(base, Fixed(base, k - 1, n / base), n % base);
      DivModSum(base, n);
    }
  }

  /** Writing the value of k digits gives the digits back. */
  lemma Regroup(high: nat, q: nat, p: nat, r: nat, base: nat, d: nat)
    requires high == q * p + r
    ensures high * base + d == q * (p * base) + (r * base + d)
  {
    assert (q * p + r) * base == q * (p * base) + r * base;
  }

  lemma RemainderOf(n: nat, m: nat, q: nat, r: nat)
    requires r < m && n == q * m + r
    ensures n % m == r
  {
    DivMod(m, q, r);
  }

  lemma RemainderFits(r: nat, p: nat, base: nat, d: nat)
    requires r < p && d < base
    ensures r * base + d < p * base
  {
    MulMono(base, r + 1, p);
  }

  /** The remainder by p * base from the remainder of the quotient. */
  lemma ModSplits(base: nat, p: nat, n: nat)
    requires base >= 1 && p >= 1
    ensures p * base >= 1 && n % (p * base) == (n / base % p) * base + n % base
  {
    var high, d := n / base, n % base;
    var q, r := high / p, high % p;
    DivModSum(p, high);
    DivModSum(base, n);
    RemainderFits(r, p, base, d);
    Regroup(high, q, p, r, base, d);
    RemainderOf(n, p * base, q, r * base + d);
  }

  lemma FixedSnoc(base: nat, k: nat, n: nat)
    requires base >= 2 && k > 0
    ensures Value(base, Fixed(base, k, n)) == Value(base, Fixed(base, k - 1, n / base)) * base + n % base
  {
    hide Value;
    ValueSnoc(base, Fixed(base, k - 1, n / base), n % base);
  }

  /** A numeral of fixed width keeps the lowest digits, whatever the number. */
  lemma {:induction false} FixedWraps(base: nat, k: nat, n: nat)
    requires base >= 2
    ensures Pow(base, k) >= 1 && Value(base, Fixed(base, k, n)) == n % Pow(base, k)
    decreases k
  {
    if k > 0 {
      FixedSnoc(base, k, n);
      hide Fixed, Value;
      FixedWraps(base, k - 1, n / base);
      ModSplits(base, Pow(base, k - 1), n);
      assert Pow(base, k) == Pow(base, k - 1) * base;
    }
  }

  lemma {:induction false} ValueFixed(base: nat, ds: seq<nat>)
    requires base >= 2 && Digits(base, ds)
    ensures Fixed(base, |ds|, Value(base, ds)) == ds
    decreases |ds|
  {
    if ds != [] {
      var init, d := ds[..|ds| - 1], ds[|ds| - 1];
      ValueFixed(base, init);
      DivMod(base, Value(base, init), d);
    }
  }

  /** Padding the minimal numeral with zeros to width k gives the fixed numeral. */
  lemma PaddedMinimal(base: nat, k: nat, n: nat)
    requires base >= 2 && n < Pow(base, k)
    ensures |Minimal(base, n)| <= k
    ensures Zeros(k - |Minimal(base, n)|) + Minimal(base, n) == Fixed(base, k, n)
  {
    hide Minimal, Value, Fixed, Pow;
    var ds := Minimal(base, n);
    MinimalLength(base, k, n);
    MinimalFacts(base, n);
    var padded := Zeros(k - |ds|) + ds;
    LeadingZeros(base, k - |ds|, ds);
    ValueFixed(base, padded);
  }

  lemma DivFits(base: nat, p: nat, n: nat)
    requires base >= 1
    ensures n / base < p <==> n < base * p
  {
    assert n == base * (n / base) + n % base;
    if n / base < p {
      MulMono(base, n / base + 1, p);
    } else {
      MulMono(base, p, n / base);
    }
  }

  lemma {:induction false} MinimalLength(base: nat, k: nat, n: nat)
    requires base >= 2
    ensures |Minimal(base, n)| <= k <==> n < Pow(base, k)
    decreases k
  {
    if n == 0 {
      PowPositive(base, k);
    } else if k > 0 {
      Shrinks(base, n);
      MinimalLength(base, k - 1, n / base);
      DivFits(base, Pow(base, k - 1), n);
    }
  }

  lemma {:induction false} PowPositive(base: nat, k: nat)
    requires base >= 1
    ensures Pow(base, k) >= 1
  {
    if k > 0 {
      PowPositive(base, k - 1);
      assert base * Pow(base, k - 1) >= Pow(base, k - 1);
    }
  }

  // ----- pairs of hexadecimal digits -----

  /** Reads hexadecimal digits two at a time. */
  function Pairs(hex: seq<nat>): seq<nat>
    requires |hex| % 2 == 0
  {
    if hex == [] then [] else Pairs(hex[..|hex| - 2]) + [16 * hex[|hex| - 2] + hex[|hex| - 1]]
  }

  lemma {:induction false} PairsFixed(k: nat, n: nat)
    ensures |Fixed(16, 2 * k, n)| == 2 * k
    ensures Pairs(Fixed(16, 2 * k, n)) == Fixed(256, k, n)
  {
    FixedFacts(16, 2 * k, n);
    if k > 0 {
      PairsFixed(k - 1, n / 256);
      var hex := Fixed(16, 2 * k, n);
      assert n / 16 / 16 == n / 256 && 16 * (n / 16 % 16) + n % 16 == n % 256;
      assert hex == Fixed(16, 2 * k - 2, n / 16 / 16) + [n / 16 % 16] + [n % 16];
      assert hex[..2 * k - 2] == Fixed(16, 2 * (k - 1), n / 256);
    }
  }

  lemma {:induction false} PowHex(k: nat)
    ensures Pow(16, 2 * k) == Pow(256, k)
  {
    if k > 0 {
      PowHex(k - 1);
      assert Pow(16, 2 * k) == 16 * (16 * Pow(16, 2 * k - 2));
    }
  }
}
