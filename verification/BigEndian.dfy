/** Fixed-width big-endian numbers, as binary.BigEndian writes and reads them. */
module BigEndian {
  type Byte = x: int | 0 <= x < 256
  type Bytes = seq<Byte>

  const UINT32_SPAN: nat := 0x1_0000_0000
  const UINT64_SPAN: nat := 0x1_0000_0000_0000_0000

  function Span(k: nat): (p: nat)
    ensures p > 0
  {
    if k == 0 then 1 else 256 * Span(k - 1)
  }

  lemma Spans()
    ensures Span(4) == UINT32_SPAN && Span(8) == UINT64_SPAN
  {
    assert Span(4) == 256 * (256 * (256 * (256 * Span(0))));
    assert Span(8) == 256 * (256 * (256 * (256 * Span(4))));
  }

  // The low k bytes of n, most significant first.
  function Put(n: nat, k: nat): (s: Bytes)
    ensures |s| == k
  {
    if k == 0 then [] else Put(n / 256, k - 1) + [n % 256]
  }

  function Get(s: Bytes): nat {
    if s == [] then 0 else 256 * Get(s[..|s| - 1]) + s[|s| - 1]
  }

  lemma ModSplit(n: nat, p: nat)
    requires p > 0
    ensures n % (256 * p) == 256 * (n / 256 % p) + n % 256
  {
    var q, r := n / 256, n % 256;
    var a, b := q / p, q % p;
    assert q == p * a + b;
    assert n == (256 * p) * a + (256 * b + r) by {
      assert 256 * (p * a) == (256 * p) * a;
    }
    ModUnique(n, 256 * p, a, 256 * b + r);
  }

  lemma ModUnique(n: nat, m: nat, a: nat, r: nat)
    requires m > 0 && n == m * a + r && r < m
    ensures n % m == r
  {
    var d := n / m - a;
    assert n == m * (n / m) + n % m;
    assert m * d == r - n % m by {
      assert m * d == m * (n / m) - m * a;
    }
    MulAway(m, d);
    assert d == 0;
  }

  lemma MulAway(m: int, d: int)
    requires m >= 0
    ensures d >= 1 ==> m * d >= m
    ensures d <= -1 ==> m * d <= -m
  {
  }

  /** Reading back what was written gives the number modulo the width. */
  lemma {:induction false} GetPut(n: nat, k: nat)
    ensures Get(Put(n, k)) == n % Span(k)
  {
    if k > 0 {
      GetPut(n / 256, k - 1);
      ModSplit(n, Span(k - 1));
      assert Put(n, k)[..k - 1] == Put(n / 256, k - 1);
    }
  }

  /** Writing what was read gives the same bytes. */
  lemma {:induction false} PutGet(s: Bytes)
    ensures Put(Get(s), |s|) == s
  {
    if s != [] {
      PutGet(s[..|s| - 1]);
      assert Get(s) / 256 == Get(s[..|s| - 1]);
      assert s == s[..|s| - 1] + [s[|s| - 1]];
    }
  }

  /** Two numbers are written alike exactly when they agree modulo the width. */
  lemma {:induction false} PutInjective(m: nat, n: nat, k: nat)
    ensures Put(m, k) == Put(n, k) <==> m % Span(k) == n % Span(k)
  {
    GetPut(m, k);
    GetPut(n, k);
    if m % Span(k) == n % Span(k) {
      PutGet(Put(m, k));
      PutGet(Put(n, k));
    }
  }
}
