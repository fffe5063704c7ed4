/** Strings as the harness sees them: the order of the `<` operator and decimal numerals. */
module Text {
  import opened Sorting

  /**
   * JavaScript compares strings by UTF-16 code unit, so a character above U+FFFF (a surrogate pair)
   * sorts below U+E000..U+FFFF. Ranking that block last gives the same order on whole characters.
   */
  function CharRank(c: char): nat {
    if 0xE000 <= c as int <= 0xFFFF then c as int + 0x200000 else c as int
  }

  predicate StrLe(a: string, b: string) {
    if a == [] then true
    else if b == [] then false
    else CharRank(a[0]) < CharRank(b[0]) || (a[0] == b[0] && StrLe(a[1..], b[1..]))
  }

  lemma {:induction false} StrLeTotal(a: string, b: string)
    ensures StrLe(a, b) || StrLe(b, a)
  {
    if a != [] && b != [] && a[0] == b[0] { StrLeTotal(a[1..], b[1..]); }
  }

  lemma {:induction false} StrLeTransitive(a: string, b: string, c: string)
    requires StrLe(a, b) && StrLe(b, c)
    ensures StrLe(a, c)
  {
    if a != [] && a[0] == b[0] == c[0] { StrLeTransitive(a[1..], b[1..], c[1..]); }
  }

  lemma {:induction false} StrLeAntisymmetric(a: string, b: string)
    requires StrLe(a, b) && StrLe(b, a)
    ensures a == b
  {
    if a != [] {
      StrLeAntisymmetric(a[1..], b[1..]);
      assert a == [a[0]] + a[1..] && b == [b[0]] + b[1..];
    }
  }

  lemma {:induction false} StrLePreorder()
    ensures TotalPreorder(StrLe)
  {
    forall a, b ensures StrLe(a, b) || StrLe(b, a) { StrLeTotal(a, b); }
    forall a, b, c | StrLe(a, b) && StrLe(b, c) ensures StrLe(a, c) { StrLeTransitive(a, b, c); }
  }

  predicate IsDigit(c: char) { '0' <= c <= '9' }

  predicate IsLetter(c: char) { 'a' <= c <= 'z' || 'A' <= c <= 'Z' }

  predicate AllDigits(s: string) { forall c :: c in s ==> IsDigit(c) }

  function Digit(n: nat): (c: char)
    requires n < 10
    ensures IsDigit(c) && c as int - '0' as int == n
  {
    ('0' as int + n) as char
  }

  /** `String(n)` for a non-negative integer. */
  function NatText(n: nat): (s: string)
    ensures s != [] && AllDigits(s)
    ensures n > 0 ==> s[0] != '0'
  {
    if n < 10 then [Digit(n)] else NatText(n / 10) + [Digit(n % 10)]
  }

  function NatValue(s: string): nat
    requires AllDigits(s)
  {
    if s == [] then 0
    else
      assert s[|s| - 1] in s;
      NatValue(s[..|s| - 1]) * 10 + (s[|s| - 1] as int - '0' as int)
  }

  /** Decimal numerals read back, so distinct numbers have distinct texts. */
  lemma {:induction false} NatTextValue(n: nat)
    ensures NatValue(NatText(n)) == n
  {
    var s := NatText(n);
    if n < 10 {
      assert s[..|s| - 1] == [];
    } else {
      NatTextValue(n / 10);
      assert s[..|s| - 1] == NatText(n / 10);
    }
  }

  lemma NatTextInjective(m: nat, n: nat)
    requires NatText(m) == NatText(n)
    ensures m == n
  {
    NatTextValue(m);
    NatTextValue(n);
  }

  function Zeros(n: nat): (s: string)
    ensures |s| == n && forall i :: 0 <= i < n ==> s[i] == '0'
  {
    if n == 0 then [] else ['0'] + Zeros(n - 1)
  }

  /** `String(n).padStart(width, "0")` */
  function Padded(n: nat, width: nat): (s: string)
    ensures s != [] && AllDigits(s) && |s| >= width
  {
    var t := NatText(n);
    if |t| >= width then t else Zeros(width - |t|) + t
  }

  lemma {:induction false} LeadingZeros(k: nat, t: string)
    requires AllDigits(t)
    ensures NatValue(Zeros(k) + t) == NatValue(t)
  {
    var s := Zeros(k) + t;
    if t == [] {
      if k > 0 {
        assert s[..|s| - 1] == Zeros(k - 1) + t;
        LeadingZeros(k - 1, t);
      }
    } else {
      assert s[..|s| - 1] == Zeros(k) + t[..|t| - 1];
      LeadingZeros(k, t[..|t| - 1]);
    }
  }

  lemma PaddedValue(n: nat, width: nat)
    ensures NatValue(Padded(n, width)) == n
  {
    NatTextValue(n);
    LeadingZeros(if |NatText(n)| >= width then 0 else width - |NatText(n)|, NatText(n));
    assert Zeros(0) + NatText(n) == NatText(n);
  }

  /** `length`: characters beyond the basic plane count twice. */
  function Length16(s: string): nat {
    if s == [] then 0 else (if s[0] as int > 0xFFFF then 2 else 1) + Length16(s[1..])
  }

  lemma {:induction false} Length16Append(a: string, b: string)
    ensures Length16(a + b) == Length16(a) + Length16(b)
  {
    if a == [] {
      assert a + b == b;
    } else {
      assert (a + b)[1..] == a[1..] + b;
      Length16Append(a[1..], b);
    }
  }

  lemma {:induction false} Length16AtLeast(s: string)
    ensures Length16(s) >= |s|
  {
    if s != [] { Length16AtLeast(s[1..]); }
  }

  // ---------------------------------------------------------------- taking strings apart

  lemma SplitFirst(x: string, y: string, a: string, b: string)
    requires x + a == y + b && |x| == |y|
    ensures x == y && a == b
  {
    assert x == (x + a)[..|x|] && y == (y + b)[..|y|];
    assert a == (x + a)[|x|..] && b == (y + b)[|y|..];
  }

  predicate Free(s: string, c: char) { c !in s }

  lemma CutAtFirst(a: string, b: string, x: string, y: string, c: char)
    requires a + ([c] + x) == b + ([c] + y) && Free(a, c) && Free(b, c)
    ensures a == b && x == y
  {
    var l, r := a + ([c] + x), b + ([c] + y);
    assert l[|a|] == c && r[|b|] == c;
    forall k | 0 <= k < |a| ensures l[k] != c { assert l[k] == a[k]; }
    forall k | 0 <= k < |b| ensures r[k] != c { assert r[k] == b[k]; }
    assert |a| == |b|;
    assert a == l[..|a|] && b == r[..|b|] && x == l[|a| + 1..] && y == r[|b| + 1..];
  }

  lemma CutAtLast(a: string, b: string, x: string, y: string, c: char)
    requires a + ([c] + x) == b + ([c] + y) && Free(x, c) && Free(y, c)
    ensures a == b && x == y
  {
    var l, r := a + ([c] + x), b + ([c] + y);
    assert l[|a|] == c && r[|b|] == c;
    forall k | |a| < k < |l| ensures l[k] != c { assert l[k] == x[k - |a| - 1]; }
    forall k | |b| < k < |r| ensures r[k] != c { assert r[k] == y[k - |b| - 1]; }
    assert |a| == |b|;
    assert a == l[..|a|] && b == r[..|b|] && x == l[|a| + 1..] && y == r[|b| + 1..];
  }
}
