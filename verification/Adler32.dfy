/** The checksum of every binary record: section 2.2 of RFC 1950, as
    src/adapters/storage/binary_file.rs computes it. */
module Adler32 {
  import opened Core

  const MOD := 65521

  function Sum(data: seq<U8>): nat {
    if data == [] then 0 else Sum(data[..|data| - 1]) + data[|data| - 1]
  }

  /** The sum over all prefixes of one plus the bytes so far. */
  function SumOfSums(data: seq<U8>): nat {
    if data == [] then 0 else SumOfSums(data[..|data| - 1]) + 1 + Sum(data)
  }

  /** The two modular sums, `b` in the high half and `a` in the low half. */
  function Checksum(data: seq<U8>): U32 {
    SumOfSums(data) % MOD * 0x1_0000 + (1 + Sum(data)) % MOD
  }

  /** `u32::wrapping_add`. */
  function WrappingAdd(x: U32, y: U32): U32 {
    (x + y) % 0x1_0000_0000
  }

  lemma ModAdd(x: nat, y: nat)
    ensures (x % MOD + y) % MOD == (x + y) % MOD
    ensures (x % MOD + y % MOD) % MOD == (x + y) % MOD
  {
    var q, r := x / MOD, y / MOD;
    assert x + y == (x % MOD + y) + MOD * q;
    assert x + y == (x % MOD + y % MOD) + MOD * (q + r);
    ModPlusMultiple(x % MOD + y, q);
    ModPlusMultiple(x % MOD + y % MOD, q + r);
  }

  lemma {:induction false} ModPlusMultiple(x: nat, k: nat)
    ensures (x + MOD * k) % MOD == x % MOD
    decreases k
  {
    if k > 0 {
      ModPlusMultiple(x, k - 1);
    }
  }

  lemma StepA(data: seq<U8>, i: nat, a: U32)
    requires i < |data| && a == (1 + Sum(data[..i])) % MOD
    ensures WrappingAdd(a, data[i]) == a + data[i]
    ensures (a + data[i]) % MOD == (1 + Sum(data[..i + 1])) % MOD
  {
    assert data[..i + 1][..i] == data[..i];
    ModAdd(1 + Sum(data[..i]), data[i]);
  }

  lemma StepB(data: seq<U8>, i: nat, a: U32, b: U32)
    requires i < |data| && a == (1 + Sum(data[..i + 1])) % MOD && b == SumOfSums(data[..i]) % MOD
    ensures WrappingAdd(b, a) == b + a
    ensures (b + a) % MOD == SumOfSums(data[..i + 1]) % MOD
  {
    assert data[..i + 1][..i] == data[..i];
    ModAdd(SumOfSums(data[..i]), 1 + Sum(data[..i + 1]));
  }

  /** The loop of wrapping 32-bit additions; none of them ever wraps. */
  method Compute(data: seq<U8>) returns (sum: U32)
    ensures sum == Checksum(data)
  {
    var a: U32, b: U32 := 1, 0;
    for i := 0 to |data|
      invariant a == (1 + Sum(data[..i])) % MOD
      invariant b == SumOfSums(data[..i]) % MOD
    {
      StepA(data, i, a);
      a := WrappingAdd(a, data[i]) % MOD;
      StepB(data, i, a, b);
      b := WrappingAdd(b, a) % MOD;
    }
    assert data[..|data|] == data;
    sum := b * 0x1_0000 + a;
  }

  /** The two halves, told byte by byte: the low one starts at 1 and adds the byte, the high one
      starts at 0 and adds the new low one. */
  lemma ChecksumSteps(data: seq<U8>, c: U8)
    ensures Checksum([]) == 1
    ensures var s, t := Checksum(data), Checksum(data + [c]);
            && t % 0x1_0000 == (s % 0x1_0000 + c) % 65521
            && t / 0x1_0000 == (s / 0x1_0000 + t % 0x1_0000) % 65521
  {
    var more := data + [c];
    assert more[..|data|] == data;
    var a, b := (1 + Sum(data)) % MOD, SumOfSums(data) % MOD;
    var a', b' := (1 + Sum(more)) % MOD, SumOfSums(more) % MOD;
    HighAndLow(b, a);
    HighAndLow(b', a');
    StepA(more, |data|, a);
    assert more[..|data| + 1] == more;
    StepB(more, |data|, a', b);
  }

  lemma HighAndLow(high: nat, low: nat)
    requires low < 0x1_0000
    ensures (high * 0x1_0000 + low) % 0x1_0000 == low && (high * 0x1_0000 + low) / 0x1_0000 == high
  {
  }

  /** `k * d` as a repeated sum, which keeps the sums below linear. */
  function Times(k: nat, d: int): int {
    if k == 0 then 0 else Times(k - 1, d) + d
  }

  lemma {:induction false} TimesIsProduct(k: nat, d: int)
    ensures Times(k, d) == k * d
  {
    if k > 0 {
      TimesIsProduct(k - 1, d);
    }
  }

  lemma {:induction false} TimesCancel(x: nat, y: nat, d: int)
    requires y <= x
    ensures Times(x, d) + Times(y, -d) == Times(x - y, d)
    decreases y
  {
    if y > 0 {
      TimesCancel(x - 1, y - 1, d);
    }
  }

  lemma {:induction false} SubstitutionSums(data: seq<U8>, i: nat, v: U8)
    requires i < |data|
    ensures Sum(data[i := v]) == Sum(data) + v - data[i]
    ensures SumOfSums(data[i := v]) == SumOfSums(data) + Times(|data| - i, v - data[i])
    decreases |data|
  {
    var n := |data| - 1;
    if i == n {
      assert data[i := v][..n] == data[..n];
      assert Times(1, v - data[i]) == Times(0, v - data[i]) + v - data[i];
    } else {
      assert data[i := v][..n] == data[..n][i := v];
      SubstitutionSums(data[..n], i, v);
    }
  }

  lemma SameResidue(x: nat, y: nat)
    ensures x % MOD == y % MOD <==> (x - y) % MOD == 0
  {
    if x % MOD == y % MOD {
      assert x - y == MOD * (x / MOD - y / MOD);
    }
    if (x - y) % MOD == 0 {
      var k := (x - y) / MOD;
      if k >= 0 {
        ModPlusMultiple(y, k);
      } else {
        ModPlusMultiple(x, -k);
      }
    }
  }

  lemma Halves(x: seq<U8>, y: seq<U8>)
    ensures Checksum(x) == Checksum(y) <==>
            (Sum(x) - Sum(y)) % MOD == 0 && (SumOfSums(x) - SumOfSums(y)) % MOD == 0
  {
    SameResidue(1 + Sum(x), 1 + Sum(y));
    SameResidue(SumOfSums(x), SumOfSums(y));
  }

  lemma SmallResidue(d: int)
    requires -65521 < d < 65521
    ensures d % MOD == 0 <==> d == 0
  {
  }

  /** Changing one byte always changes the checksum. */
  lemma SubstitutionDetected(data: seq<U8>, i: nat, v: U8)
    requires i < |data| && v != data[i]
    ensures Checksum(data[i := v]) != Checksum(data)
  {
    assert Sum(data[i := v]) - Sum(data) == v - data[i] by {
      SubstitutionSums(data, i, v);
    }
    Halves(data[i := v], data);
    SmallResidue(v - data[i]);
  }

  function Swap(data: seq<U8>, i: nat, j: nat): seq<U8>
    requires i < j < |data|
  {
    data[i := data[j]][j := data[i]]
  }

  function Gap(data: seq<U8>, i: nat, j: nat): int
    requires i < j < |data|
  {
    var x: int, y: int := data[i], data[j];
    y - x
  }

  lemma SwapSums(data: seq<U8>, i: nat, j: nat)
    requires i < j < |data|
    ensures Sum(Swap(data, i, j)) == Sum(data)
    ensures SumOfSums(Swap(data, i, j)) - SumOfSums(data) == Times(j - i, Gap(data, i, j))
  {
    SubstitutionSums(data, i, data[j]);
    SubstitutionSums(data[i := data[j]], j, data[i]);
    TimesCancel(|data| - i, |data| - j, Gap(data, i, j));
  }

  /** A swap goes unnoticed exactly when 65521 divides distance times byte difference. */
  lemma SwapUndetected(data: seq<U8>, i: nat, j: nat)
    requires i < j < |data|
    ensures Checksum(Swap(data, i, j)) == Checksum(data) <==> (j - i) * Gap(data, i, j) % MOD == 0
  {
    Halves(Swap(data, i, j), data);
    assert
      && SumOfSums(Swap(data, i, j)) - SumOfSums(data) == (j - i) * Gap(data, i, j)
      && Sum(Swap(data, i, j)) == Sum(data)
    by {
      SwapSums(data, i, j);
      TimesIsProduct(j - i, Gap(data, i, j));
    }
  }

  lemma {:induction false} TimesBounds(k: nat, d: int)
    requires 0 < d <= 255
    ensures k <= Times(k, d) <= 255 * k
    ensures Times(k, -d) == -Times(k, d)
  {
    if k > 0 {
      TimesBounds(k - 1, d);
    }
  }

  /** Two different bytes at most 256 positions apart cannot be swapped unnoticed. */
  lemma NearSwapDetected(data: seq<U8>, i: nat, j: nat)
    requires i < j < |data| && j - i <= 256 && data[i] != data[j]
    ensures Checksum(Swap(data, i, j)) != Checksum(data)
  {
    SwapSums(data, i, j);
    Halves(Swap(data, i, j), data);
    var d := Gap(data, i, j);
    TimesBounds(j - i, if d > 0 then d else -d);
    SmallResidue(Times(j - i, d));
  }
}
