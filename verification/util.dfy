/** Small helpers shared by the simulation (util.go): membership, swap-with-last
    removal, integer min/max/distance, the truncating division Go uses, and the
    snake_case to camelCase transform that builds sprite keys. */
module Util {

  /** True iff `s` occurs in `a`; a scan from the front. */
  function Contains<T(==)>(a: seq<T>, s: T): (r: bool)
    ensures r <==> exists i :: 0 <= i < |a| && a[i] == s
  {
    if |a| == 0 then false
    else if a[0] == s then true
    else
      var rest := Contains(a[1..], s);
      assert forall i :: 0 <= i < |a| - 1 ==> a[1..][i] == a[i + 1];
      rest
  }

  /** Swap-with-last removal: position `i` receives the last element and the
      sequence is truncated by one. Order is not preserved. */
  function Remove<T>(p: seq<T>, i: int): (r: seq<T>)
    requires 0 <= i < |p|
    ensures |r| == |p| - 1
    ensures i < |r| ==> r[i] == p[|p| - 1]
    ensures forall j :: 0 <= j < |r| && j != i ==> r[j] == p[j]
  {
    p[i := p[|p| - 1]][..|p| - 1]
  }

  /** Removal drops exactly one copy of the removed element and keeps all others. */
  lemma RemoveMultiset<T>(p: seq<T>, i: int)
    requires 0 <= i < |p|
    ensures multiset(Remove(p, i)) == multiset(p) - multiset{p[i]}
  {
    var n := |p|;
    if i == n - 1 {
      RemoveLast(p);
      assert p == p[..n - 1] + [p[i]];
    } else {
      RemoveInside(p, i);
      SwapLast(p[..i], p[n - 1], p[i], p[i + 1..n - 1]);
    }
  }

  lemma RemoveLast<T>(p: seq<T>)
    requires |p| > 0
    ensures Remove(p, |p| - 1) == p[..|p| - 1]
  {
  }

  lemma RemoveInside<T>(p: seq<T>, i: int)
    requires 0 <= i < |p| - 1
    ensures Remove(p, i) == p[..i] + [p[|p| - 1]] + p[i + 1..|p| - 1]
    ensures p == p[..i] + [p[i]] + p[i + 1..|p| - 1] + [p[|p| - 1]]
  {
  }

  /** Moving the last element into the place of `y` and dropping `y`. */
  lemma SwapLast<T>(front: seq<T>, x: T, y: T, mid: seq<T>)
    ensures multiset(front + [x] + mid) == multiset(front + [y] + mid + [x]) - multiset{y}
  {
    assert multiset(front + [y] + mid + [x]) == multiset(front + [x] + mid) + multiset{y};
  }

  function Min(x: int, y: int): (r: int)
    ensures r == x || r == y
    ensures r <= x && r <= y
  {
    if x < y then x else y
  }

  function Max(x: int, y: int): (r: int)
    ensures r == x || r == y
    ensures r >= x && r >= y
  {
    if x > y then x else y
  }

  /** `Min(Max(v, 0), n - 1)` clamps `v` into the index range of an
      `n`-element slice, leaving in-range values alone. */
  lemma ClampInRange(v: int, n: int)
    requires n >= 1
    ensures 0 <= Min(Max(v, 0), n - 1) <= n - 1
    ensures 0 <= v < n ==> Min(Max(v, 0), n - 1) == v
    ensures v < 0 ==> Min(Max(v, 0), n - 1) == 0
    ensures v >= n ==> Min(Max(v, 0), n - 1) == n - 1
  {
  }

  /** The distance between two integers. */
  function AbsDiff(x: int, y: int): (r: int)
    ensures r >= 0
    ensures r == 0 <==> x == y
    ensures x + r == y || y + r == x
  {
    if x < y then y - x else x - y
  }

  lemma AbsDiffSymmetric(x: int, y: int)
    ensures AbsDiff(x, y) == AbsDiff(y, x)
  {
  }

  /** Go's `n / 2`: division truncating toward zero. */
  function Half(n: int): (r: int)
    ensures n >= 0 ==> 0 <= n - 2 * r <= 1
    ensures n < 0 ==> -1 <= n - 2 * r <= 0
  {
    if n >= 0 then n / 2 else -((-n) / 2)
  }

  /** Go's `a % m` for a positive modulus: the remainder takes the sign of `a`. */
  function Rem(a: int, m: int): (r: int)
    requires m > 0
    ensures a >= 0 ==> 0 <= r < m
    ensures a < 0 ==> -m < r <= 0
    ensures 0 <= a < m ==> r == a
    // `a - r` is a multiple of `m`: with the bounds above this fixes `r` uniquely.
    ensures (a - r) % m == 0
  {
    if a >= 0 then
      ModOfSmall(a, m);
      assert a - a % m == m * (a / m);
      MultipleHasNoRemainder(a / m, m);
      a % m
    else
      var k := (-a) / m;
      assert -a == m * k + (-a) % m;
      assert a - -((-a) % m) == m * -k;
      MultipleHasNoRemainder(-k, m);
      -((-a) % m)
  }

  lemma MultipleHasNoRemainder(k: int, m: int)
    requires m > 0
    ensures (m * k) % m == 0
  {
    var q, s := (m * k) / m, (m * k) % m;
    assert m * k == m * q + s && 0 <= s < m;
    assert m * (k - q) == s;
    SmallMultipleIsZero(m, k - q);
  }

  /** The only multiple of `m` strictly between `-m` and `m` is zero. */
  lemma SmallMultipleIsZero(m: int, k: int)
    requires m > 0 && -m < m * k < m
    ensures k == 0
  {
  }

  /** Two values in the same sign range that differ by a multiple of `m` are
      equal: Go's remainder of `a` is the only one the contract of `Rem` allows. */
  lemma {:induction false} RemIsUnique(a: int, m: int, r: int)
    requires m > 0
    requires a >= 0 ==> 0 <= r < m
    requires a < 0 ==> -m < r <= 0
    requires (a - r) % m == 0
    ensures r == Rem(a, m)
  {
    var r0 := Rem(a, m);
    var d := r - r0;
    assert -m < d < m;
    assert (a - r) == m * ((a - r) / m);
    assert (a - r0) == m * ((a - r0) / m);
    var k := (a - r0) / m - (a - r) / m;
    assert d == m * k;
    SmallMultipleIsZero(m, k);
  }

  lemma ModOfSmall(a: int, m: int)
    requires 0 <= a && m > 0
    ensures 0 <= a % m < m
    ensures a < m ==> a % m == a
  {
  }

  // ---------------------------------------------------------------------------
  // CamelCase

  /** Every character is a single-byte (ASCII) character. */
  predicate IsAscii(s: string)
  {
    forall i :: 0 <= i < |s| ==> s[i] < 128 as char
  }

  /** strings.ToUpper on a one-byte ASCII string. */
  function ToUpper(c: char): char
  {
    if 'a' <= c <= 'z' then (c as int - 32) as char else c
  }

  /** Reference definition of the transform: `pending` records that a run of
      underscores was just skipped, so the next kept character is upper-cased. */
  function CamelFrom(s: string, pending: bool): string
  {
    if |s| == 0 then ""
    else if s[0] == '_' then CamelFrom(s[1..], true)
    else [if pending then ToUpper(s[0]) else s[0]] + CamelFrom(s[1..], false)
  }

  /** The number of underscores in `s`. */
  function Underscores(s: string): nat
  {
    if |s| == 0 then 0
    else (if s[0] == '_' then 1 else 0) + Underscores(s[1..])
  }

  /** Drops every `_` and upper-cases the character after each run of them,
      one character at a time as util.go does. */
  method CamelCase(s: string) returns (camel: string)
    requires IsAscii(s)
    ensures camel == CamelFrom(s, false)
    ensures |camel| == |s| - Underscores(s)
    ensures forall i :: 0 <= i < |camel| ==> camel[i] != '_'
  {
    var snek := false;
    camel := "";
    var i := 0;
    while i < |s|
      invariant 0 <= i <= |s|
      invariant camel + CamelFrom(s[i..], snek) == CamelFrom(s, false)
      decreases |s| - i
    {
      assert s[i..][1..] == s[i + 1..];
      var c := s[i];
      if c == '_' {
        snek := true;
        i := i + 1;
        continue;
      }
      if snek {
        snek := false;
        camel := camel + [ToUpper(c)];
      } else {
        camel := camel + [c];
      }
      i := i + 1;
    }
    assert s[i..] == "";
    CamelLength(s, false);
    CamelHasNoUnderscore(s, false);
  }

  lemma {:induction false} CamelLength(s: string, pending: bool)
    ensures |CamelFrom(s, pending)| == |s| - Underscores(s)
    decreases |s|
  {
    if |s| > 0 {
      CamelLength(s[1..], true);
      CamelLength(s[1..], false);
    }
  }

  lemma {:induction false} CamelHasNoUnderscore(s: string, pending: bool)
    ensures forall i :: 0 <= i < |CamelFrom(s, pending)| ==> CamelFrom(s, pending)[i] != '_'
    decreases |s|
  {
    if |s| > 0 {
      CamelHasNoUnderscore(s[1..], true);
      CamelHasNoUnderscore(s[1..], false);
      if s[0] != '_' {
        var head := if pending then ToUpper(s[0]) else s[0];
        assert head != '_';
        var r := CamelFrom(s, pending);
        assert r == [head] + CamelFrom(s[1..], false);
        forall i | 0 <= i < |r|
          ensures r[i] != '_'
        {
          if i > 0 {
            assert r[i] == CamelFrom(s[1..], false)[i - 1];
          }
        }
      }
    }
  }

  /** A string with no underscore is its own camel case. */
  lemma {:induction false} CamelIdentity(s: string)
    requires forall i :: 0 <= i < |s| ==> s[i] != '_'
    ensures CamelFrom(s, false) == s
    decreases |s|
  {
    if |s| > 0 {
      assert s[0] != '_';
      CamelIdentity(s[1..]);
      assert s == [s[0]] + s[1..];
    }
  }

  /** Camel-casing twice is the same as camel-casing once. */
  lemma CamelIdempotent(s: string)
    ensures CamelFrom(CamelFrom(s, false), false) == CamelFrom(s, false)
  {
    CamelHasNoUnderscore(s, false);
    CamelIdentity(CamelFrom(s, false));
  }
}
