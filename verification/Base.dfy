/** Vocabulary shared by every module: failure-compatible results, machine-integer
    ranges, and the decimal rendering that the source's format strings rely on. */
module Base {

  datatype Option<+T> = None | Some(value: T)

  datatype Result<+T, +E> = Ok(value: T) | Err(error: E) {
    predicate IsFailure() {
      Err?
    }

    function PropagateFailure<U>(): Result<U, E>
      requires Err?
    {
      Err(error)
    }

    function Extract(): T
      requires Ok?
    {
      value
    }
  }

  const U64_SIZE: int := 0x1_0000_0000_0000_0000
  const I64_MAX: int := 0x7FFF_FFFF_FFFF_FFFF
  const I64_MIN: int := -0x8000_0000_0000_0000

  type u64 = n: int | 0 <= n < U64_SIZE
  type i64 = n: int | I64_MIN <= n <= I64_MAX

  // ---------------------------------------------------------------- decimal text

  const DIGITS: string := "0123456789"

  /** Decimal text of a natural number, as Rust's `{}` prints an unsigned integer. */
  function Dec(n: nat): (s: string)
    ensures |s| >= 1
  {
    if n < 10 then [DIGITS[n]] else Dec(n / 10) + [DIGITS[n % 10]]
  }

  lemma {:induction false} DecInjective(m: nat, n: nat)
    requires Dec(m) == Dec(n)
    ensures m == n
  {
    var s, t := Dec(m), Dec(n);
    assert s[|s| - 1] == t[|t| - 1];
    if m >= 10 && n >= 10 {
      assert Dec(m / 10) == s[..|s| - 1] == t[..|t| - 1] == Dec(n / 10);
      DecInjective(m / 10, n / 10);
    }
  }

  lemma {:induction false} DecHasNoBar(n: nat)
    ensures BarFree(Dec(n))
  {
    if n >= 10 {
      DecHasNoBar(n / 10);
    }
  }

  // ---------------------------------------------------------------- sequences

  /** Two equal concatenations whose right parts have the same length have equal parts. */
  lemma SplitFromRight(a: string, x: string, b: string, y: string)
    requires a + x == b + y && |x| == |y|
    ensures a == b && x == y
  {
    assert a == (a + x)[..|a|] && b == (b + y)[..|b|];
    assert x == (a + x)[|a|..] && y == (b + y)[|b|..];
  }

  // ---------------------------------------------------------------- '|'-joined text

  predicate BarFree(s: string) {
    '|' !in s
  }

  /** The fields of `fs` with a bar between neighbours. */
  function Join(fs: seq<string>): string
    requires fs != []
  {
    if |fs| == 1 then fs[0] else fs[0] + "|" + Join(fs[1..])
  }

  lemma BarAfter(x: string, r: string)
    requires BarFree(x)
    ensures (x + "|" + r)[|x|] == '|' && forall i | 0 <= i < |x| :: (x + "|" + r)[i] != '|'
  {
  }

  lemma BarBefore(r: string, x: string)
    requires BarFree(x)
    ensures (r + "|" + x)[|r|] == '|' && forall i | |r| < i < |r + "|" + x| :: (r + "|" + x)[i] != '|'
  {
  }

  lemma FirstBar(x: string, r: string, y: string, s: string)
    requires BarFree(x) && BarFree(y) && x + "|" + r == y + "|" + s
    ensures x == y && r == s
  {
    BarAfter(x, r);
    BarAfter(y, s);
    assert |x| == |y|;
    assert x == (x + "|" + r)[..|x|] && r == (x + "|" + r)[|x| + 1..];
    assert y == (y + "|" + s)[..|y|] && s == (y + "|" + s)[|y| + 1..];
  }

  lemma LastBar(r: string, x: string, s: string, y: string)
    requires BarFree(x) && BarFree(y) && r + "|" + x == s + "|" + y
    ensures r == s && x == y
  {
    BarBefore(r, x);
    BarBefore(s, y);
    assert |r| == |s|;
    assert r == (r + "|" + x)[..|r|] && x == (r + "|" + x)[|r| + 1..];
    assert s == (s + "|" + y)[..|s|] && y == (s + "|" + y)[|s| + 1..];
  }

  lemma {:induction false} JoinSnoc(fs: seq<string>)
    requires |fs| >= 2
    ensures Join(fs) == Join(fs[..|fs| - 1]) + "|" + fs[|fs| - 1]
  {
    var n := |fs| - 1;
    if n > 1 {
      JoinSnoc(fs[1..]);
      assert fs[1..][..n - 1] == fs[..n][1..];
    }
  }

  /** Joining is injective on lists of one length, even if the field at `free` may contain bars. */
  lemma {:induction false} JoinInjective(a: seq<string>, b: seq<string>, free: nat)
    requires |a| == |b| > 0 && free < |a|
    requires forall i | 0 <= i < |a| && i != free :: BarFree(a[i]) && BarFree(b[i])
    requires Join(a) == Join(b)
    ensures a == b
    decreases |a|
  {
    var n := |a| - 1;
    if n > 0 && free == 0 {
      JoinSnoc(a);
      JoinSnoc(b);
      LastBar(Join(a[..n]), a[n], Join(b[..n]), b[n]);
      JoinInjective(a[..n], b[..n], 0);
      assert a == a[..n] + [a[n]] && b == b[..n] + [b[n]];
    } else if n > 0 {
      FirstBar(a[0], Join(a[1..]), b[0], Join(b[1..]));
      JoinInjective(a[1..], b[1..], free - 1);
      assert a == [a[0]] + a[1..] && b == [b[0]] + b[1..];
    }
  }

  /** A bar inside a field reads like a bar between two fields. */
  lemma {:induction false} JoinMerge(fs: seq<string>, i: nat)
    requires i + 1 < |fs|
    ensures Join(fs[..i] + [fs[i] + "|" + fs[i + 1]] + fs[i + 2..]) == Join(fs)
  {
    var merged := fs[..i] + [fs[i] + "|" + fs[i + 1]] + fs[i + 2..];
    if i > 0 {
      JoinMerge(fs[1..], i - 1);
      assert merged[1..] == fs[1..][..i - 1] + [fs[i] + "|" + fs[i + 1]] + fs[1..][i + 1..];
    } else if |fs| > 2 {
      assert merged[1..] == fs[2..] == fs[1..][1..];
      assert merged[0] + "|" + Join(fs[2..]) == fs[0] + "|" + (fs[1] + "|" + Join(fs[2..]));
    }
  }
}
