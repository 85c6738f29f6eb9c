/** The order of texts that filters and indexes compare by, `str`'s `Ord`, which is that of the
    UTF-8 bytes: src/query/ast.rs and src/adapters/index/property_index.rs. */
module TextOrder {
  import opened Core
  import opened QueryAst
  import Utf8

  /** Alike up to `k`, where the first one ends or has the smaller element. */
  ghost predicate SmallerAt(a: string, b: string, k: nat) {
    k <= |a| && k < |b| && (forall i :: 0 <= i < k ==> a[i] == b[i]) && (k == |a| || a[k] < b[k])
  }

  ghost predicate ByteSmallerAt(a: seq<U8>, b: seq<U8>, k: nat) {
    k <= |a| && k < |b| && (forall i :: 0 <= i < k ==> a[i] == b[i]) && (k == |a| || a[k] < b[k])
  }

  /** Bytes compare at their first difference. */
  ghost predicate BytesLess(a: seq<U8>, b: seq<U8>) {
    exists k: nat :: ByteSmallerAt(a, b, k)
  }

  lemma {:induction false} FoundDifference(a: string, b: string)
    ensures TextLess(a, b) <==> exists k: nat :: SmallerAt(a, b, k)
    decreases |a|
  {
    if a == [] || b == [] || a[0] != b[0] {
      if TextLess(a, b) {
        assert SmallerAt(a, b, 0);
      }
    } else {
      FoundDifference(a[1..], b[1..]);
      if k: nat :| SmallerAt(a, b, k) {
        assert SmallerAt(a[1..], b[1..], k - 1);
      }
      if k: nat :| SmallerAt(a[1..], b[1..], k) {
        assert forall i :: 0 < i < k + 1 ==> a[i] == a[1..][i - 1] && b[i] == b[1..][i - 1];
        assert SmallerAt(a, b, k + 1);
      }
    }
  }

  lemma SameSlice(a: string, b: string, k: nat)
    requires k <= |a| && k <= |b|
    ensures a[..k] == b[..k] <==> forall i :: 0 <= i < k ==> a[i] == b[i]
  {
    if a[..k] == b[..k] {
      forall i | 0 <= i < k ensures a[i] == b[i] {
        assert a[i] == a[..k][i] && b[i] == b[..k][i];
      }
    }
  }

  /** Texts compare at their first difference. */
  lemma FirstDifference(a: string, b: string)
    ensures TextLess(a, b) <==> exists k :: 0 <= k <= |a| && k < |b| && a[..k] == b[..k] && (k == |a| || a[k] < b[k])
  {
    FoundDifference(a, b);
    hide TextLess;
    if k: nat :| SmallerAt(a, b, k) {
      SameSlice(a, b, k);
    }
    if k :| 0 <= k <= |a| && k < |b| && a[..k] == b[..k] && (k == |a| || a[k] < b[k]) {
      SameSlice(a, b, k);
      assert SmallerAt(a, b, k);
    }
  }

  /** Of two texts one is the smaller, or they are the same. */
  lemma {:induction false} TextsOrdered(a: string, b: string)
    ensures TextLess(a, b) ==> a != b && !TextLess(b, a)
    ensures a == b || TextLess(a, b) || TextLess(b, a)
    decreases |a|
  {
    if a != [] && b != [] && a[0] == b[0] {
      TextsOrdered(a[1..], b[1..]);
      assert a == [a[0]] + a[1..] && b == [b[0]] + b[1..];
    }
  }

  // ---- Bytes ----

  lemma BytesAsymmetric(a: seq<U8>, b: seq<U8>)
    requires BytesLess(a, b)
    ensures !BytesLess(b, a)
  {
    var k: nat :| ByteSmallerAt(a, b, k);
    forall j: nat ensures !ByteSmallerAt(b, a, j) {
      if j < k {
        assert j < |a| ==> a[j] == b[j];
      }
    }
  }

  lemma SharedPrefix(p: seq<U8>, a: seq<U8>, b: seq<U8>)
    ensures BytesLess(p + a, p + b) <==> BytesLess(a, b)
  {
    if k: nat :| ByteSmallerAt(a, b, k) {
      assert ByteSmallerAt(p + a, p + b, |p| + k);
    }
    if k: nat :| ByteSmallerAt(p + a, p + b, k) {
      var q := k - |p|;
      assert q >= 0;
      forall i | 0 <= i < q ensures a[i] == b[i] {
        assert (p + a)[|p| + i] == (p + b)[|p| + i];
      }
      assert ByteSmallerAt(a, b, q);
    }
  }

  lemma DifferInside(a: seq<U8>, b: seq<U8>, k: nat, x: seq<U8>, y: seq<U8>)
    requires k < |a| && ByteSmallerAt(a, b, k)
    ensures BytesLess(a + x, b + y)
  {
    assert ByteSmallerAt(a + x, b + y, k);
  }

  /** A smaller character has the smaller bytes, and neither form begins the other. */
  lemma CharOrder(c: char, d: char) returns (k: nat)
    requires c < d
    ensures k < |Utf8.EncodeChar(c)| && ByteSmallerAt(Utf8.EncodeChar(c), Utf8.EncodeChar(d), k)
  {
    var m, n := c as int, d as int;
    var a, b := Utf8.EncodeChar(c), Utf8.EncodeChar(d);
    if a[0] != b[0] {
      k := 0;
      LeadOrder(m, n);
    } else if n < 0x800 {
      k := 1;
    } else if n < 0x1_0000 {
      SameLead3(m, n);
      k := if a[1] != b[1] then 1 else 2;
    } else {
      SameLead4(m, n);
      k := if a[1] != b[1] then 1 else if a[2] != b[2] then 2 else 3;
    }
    assert forall i :: 0 <= i < k ==> a[i] == b[i];
  }

  lemma LeadOrder(m: int, n: int)
    requires 0 <= m < n < 0x11_0000
    ensures m / 0x40 <= n / 0x40 && m / 0x1000 <= n / 0x1000 && m / 0x4_0000 <= n / 0x4_0000
  {
  }

  lemma SameLead3(m: int, n: int)
    requires 0 <= m < n && m / 0x1000 == n / 0x1000
    ensures m / 0x40 % 0x40 <= n / 0x40 % 0x40
    ensures m / 0x40 % 0x40 == n / 0x40 % 0x40 ==> m % 0x40 < n % 0x40
  {
    Utf8.Split3(m);
    Utf8.Split3(n);
  }

  lemma SameLead4(m: int, n: int)
    requires 0 <= m < n && m / 0x4_0000 == n / 0x4_0000
    ensures m / 0x1000 % 0x40 <= n / 0x1000 % 0x40
    ensures m / 0x1000 % 0x40 == n / 0x1000 % 0x40 ==> m / 0x40 % 0x40 <= n / 0x40 % 0x40
    ensures m / 0x1000 % 0x40 == n / 0x1000 % 0x40 && m / 0x40 % 0x40 == n / 0x40 % 0x40 ==> m % 0x40 < n % 0x40
  {
    Utf8.Split4(m);
    Utf8.Split4(n);
  }

  /** The order of texts is the order of their UTF-8 bytes. */
  lemma {:induction false} Utf8Order(a: string, b: string)
    ensures TextLess(a, b) <==> BytesLess(Utf8.Encode(a), Utf8.Encode(b))
    decreases |a|
  {
    hide Utf8.EncodeChar;
    var x, y := Utf8.Encode(a), Utf8.Encode(b);
    if a == [] {
      if b != [] {
        assert ByteSmallerAt(x, y, 0);
      }
    } else if b == [] {
    } else if a[0] == b[0] {
      SharedPrefix(Utf8.EncodeChar(a[0]), Utf8.Encode(a[1..]), Utf8.Encode(b[1..]));
      Utf8Order(a[1..], b[1..]);
    } else if a[0] < b[0] {
      var k := CharOrder(a[0], b[0]);
      DifferInside(Utf8.EncodeChar(a[0]), Utf8.EncodeChar(b[0]), k, Utf8.Encode(a[1..]), Utf8.Encode(b[1..]));
    } else {
      var k := CharOrder(b[0], a[0]);
      DifferInside(Utf8.EncodeChar(b[0]), Utf8.EncodeChar(a[0]), k, Utf8.Encode(b[1..]), Utf8.Encode(a[1..]));
      BytesAsymmetric(y, x);
    }
  }
}
