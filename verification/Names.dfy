/** Dotted names and printed keys: the string facts the claim names and the list sort keys rest on. */
module Names {

  predicate NoDot(s: string) {
    '.' !in s
  }

  function Dotted(a: string, b: string): string {
    a + "." + b
  }

  /** Two dotted names with dot-free last parts are equal only part by part. */
  lemma {:induction false} LastDot(a: string, b: string, c: string, d: string)
    requires NoDot(b) && NoDot(d) && Dotted(a, b) == Dotted(c, d)
    ensures a == c && b == d
  {
    var x := Dotted(a, b);
    assert x[|a|] == '.' && x[|c|] == '.';
    assert forall k :: |a| < k < |x| ==> x[k] == b[k - |a| - 1];
    assert forall k :: |c| < k < |x| ==> x[k] == d[k - |c| - 1];
    assert |a| == |c|;
    assert a == x[..|a|] == c;
    assert b == x[|a| + 1..] == d;
  }

  /** Under one prefix, dotted names are equal only when their rests are. */
  lemma DottedInjective(a: string, b: string, c: string)
    requires Dotted(a, b) == Dotted(a, c)
    ensures b == c
  {
    assert b == Dotted(a, b)[|a| + 1..] == Dotted(a, c)[|a| + 1..] == c;
  }

  /** A dotted name can be cut before its last part: what strings.LastIndex(name, ".") finds. */
  function LastPart(s: string): (r: string)
    ensures NoDot(r)
  {
    if s == [] then []
    else if s[|s| - 1] == '.' then []
    else LastPart(s[..|s| - 1]) + [s[|s| - 1]]
  }

  lemma {:induction false} LastPartOfDotted(a: string, b: string)
    requires NoDot(b)
    ensures LastPart(Dotted(a, b)) == b
    decreases |b|
  {
    var s := Dotted(a, b);
    if b == [] {
      assert s[|s| - 1] == '.';
    } else {
      var front := b[..|b| - 1];
      assert s[..|s| - 1] == Dotted(a, front);
      LastPartOfDotted(a, front);
    }
  }

  /** The loop of getNodeName: scan from the end for a dot. */
  method CutAfterLastDot(name: string) returns (r: string)
    ensures r == LastPart(name)
  {
    var k := |name|;
    assert name[..k] == name;
    while k > 0 && name[k - 1] != '.'
      invariant 0 <= k <= |name|
      invariant LastPart(name) == LastPart(name[..k]) + name[k..]
    {
      k := k - 1;
      assert name[..k + 1][..k] == name[..k];
      assert [name[k]] + name[k + 1..] == name[k..];
    }
    assert k > 0 ==> name[..k][|name[..k]| - 1] == '.';
    r := name[k..];
  }

  function Digit(n: nat): char
    requires n < 10
  {
    "0123456789"[n]
  }

  /** The decimal form that "%d" prints. */
  function Decimal(n: nat): (s: string)
    ensures s != [] && NoDot(s)
    ensures |s| == 1 <==> n < 10
  {
    if n < 10 then [Digit(n)] else Decimal(n / 10) + [Digit(n % 10)]
  }

  lemma DigitInjective(m: nat, n: nat)
    requires m < 10 && n < 10 && Digit(m) == Digit(n)
    ensures m == n
  {
  }

  lemma {:induction false} DecimalInjective(m: nat, n: nat)
    requires Decimal(m) == Decimal(n)
    ensures m == n
  {
    var x, y := Decimal(m), Decimal(n);
    assert x[|x| - 1] == Digit(m % 10) && y[|y| - 1] == Digit(n % 10);
    DigitInjective(m % 10, n % 10);
    if m >= 10 {
      assert Decimal(m / 10) == x[..|x| - 1] == y[..|y| - 1] == Decimal(n / 10);
      DecimalInjective(m / 10, n / 10);
    }
  }

  /** The sort key fmt.Sprintf("%s.%d", name, id). */
  function Printed(name: string, id: nat): string {
    Dotted(name, Decimal(id))
  }

  lemma PrintedInjective(a: string, i: nat, b: string, j: nat)
    requires Printed(a, i) == Printed(b, j)
    ensures a == b && i == j
  {
    LastDot(a, Decimal(i), b, Decimal(j));
    DecimalInjective(i, j);
  }

  /** Go's string order: the first differing character decides, a proper prefix is smaller. */
  predicate Less(a: string, b: string) {
    b != [] && (a == [] || a[0] < b[0] || (a[0] == b[0] && Less(a[1..], b[1..])))
  }

  lemma {:induction false} LessIsTotal(a: string, b: string)
    ensures a == b || Less(a, b) || Less(b, a)
    ensures !Less(a, a)
    ensures Less(a, b) ==> !Less(b, a)
    decreases |a| + |b|
  {
    if a != [] && b != [] {
      LessIsTotal(a[1..], b[1..]);
      if a[0] == b[0] && a[1..] == b[1..] {
        assert a == [a[0]] + a[1..] == b;
      }
    }
    if a != [] {
      LessIsTotal(a[1..], []);
    }
  }

  lemma {:induction false} LessIsTransitive(a: string, b: string, c: string)
    requires Less(a, b) && Less(b, c)
    ensures Less(a, c)
  {
    if a != [] && a[0] == b[0] && b[0] == c[0] {
      LessIsTransitive(a[1..], b[1..], c[1..]);
    }
  }

  /** Up to position k the strings are equal, and there a ends or has the smaller character. */
  predicate SmallerAt(a: string, b: string, k: nat) {
    k <= |a| && k < |b| && a[..k] == b[..k] && (k == |a| || a[k] < b[k])
  }

  /** The first position at which the strings differ decides, or the end of a proper prefix. */
  lemma {:induction false} LessExactly(a: string, b: string)
    ensures Less(a, b) <==> exists k: nat :: SmallerAt(a, b, k)
  {
    if a == [] || b == [] {
      assert b != [] ==> SmallerAt(a, b, 0);
    } else if a[0] != b[0] {
      assert SmallerAt(a, b, 0) <==> a[0] < b[0];
      forall k: nat | SmallerAt(a, b, k)
        ensures k == 0
      {
        SameStart(a, b, k);
      }
    } else {
      LessExactly(a[1..], b[1..]);
      forall k: nat
        ensures SmallerAt(a, b, k + 1) <==> SmallerAt(a[1..], b[1..], k)
      {
        LaterPosition(a, b, k);
      }
      assert !SmallerAt(a, b, 0);
      if k: nat :| SmallerAt(a, b, k) {
        assert k > 0 && SmallerAt(a, b, (k - 1) + 1) && SmallerAt(a[1..], b[1..], k - 1);
      }
      if j: nat :| SmallerAt(a[1..], b[1..], j) {
        assert SmallerAt(a, b, j + 1);
      }
    }
  }

  lemma SameStart(a: string, b: string, k: nat)
    requires k <= |a| && k <= |b| && a[..k] == b[..k]
    ensures k > 0 ==> a[0] == b[0]
  {
    if k > 0 {
      assert a[..k][0] == b[..k][0];
    }
  }

  lemma LaterPosition(a: string, b: string, k: nat)
    requires a != [] && b != [] && a[0] == b[0]
    ensures SmallerAt(a, b, k + 1) <==> SmallerAt(a[1..], b[1..], k)
  {
    if k < |a| && k + 1 < |b| {
      assert a[..k + 1] == [a[0]] + a[1..][..k] && b[..k + 1] == [b[0]] + b[1..][..k];
      assert a[1..][..k] == a[..k + 1][1..] && b[1..][..k] == b[..k + 1][1..];
    }
  }

  predicate IsDigit(c: char) {
    '0' <= c <= '9'
  }

  function DigitValue(c: char): nat
    requires IsDigit(c)
  {
    c as int - '0' as int
  }

  /** The number that a string of digits stands for, the most significant first. */
  function Value(s: string): nat
    requires forall c :: c in s ==> IsDigit(c)
  {
    if s == [] then 0
    else
      var front, last := s[..|s| - 1], s[|s| - 1];
      assert last in s && forall c :: c in front ==> c in s;
      10 * Value(front) + DigitValue(last)
  }

  /** "%d": digits that stand for the number, and no leading zero. */
  lemma {:induction false} DecimalExactly(n: nat)
    ensures forall c :: c in Decimal(n) ==> IsDigit(c)
    ensures Value(Decimal(n)) == n && (n > 0 ==> Decimal(n)[0] != '0')
  {
    var s := Decimal(n);
    assert forall d: nat :: d < 10 ==> Digit(d) as int == '0' as int + d;
    if n >= 10 {
      DecimalExactly(n / 10);
      assert s[..|s| - 1] == Decimal(n / 10) && s[|s| - 1] == Digit(n % 10);
    } else {
      assert s[..0] == [];
    }
  }
}
