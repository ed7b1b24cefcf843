/**
 * Strings as the controller uses them: decimal numbers, separators, prefixes and the
 * sorted listings that Go's string sets produce.
 */
module Text {

  datatype Option<+T> = None | Some(value: T)

  // ---------------------------------------------------------------- decimal numbers

  const DIGITS: string := "0123456789"

  function NatToString(n: nat): (s: string)
    ensures |s| > 0
    ensures forall c <- s :: c in DIGITS
  {
    if n < 10 then [DIGITS[n]] else NatToString(n / 10) + [DIGITS[n % 10]]
  }

  /** What "%v" prints for a Go integer. */
  function IntToString(n: int): (s: string) {
    if n < 0 then "-" + NatToString(-n) else NatToString(n)
  }

  function DigitValue(c: char): (d: nat)
  {
    if '0' <= c <= '9' then c as int - '0' as int else 0
  }

  function StringToNat(s: string): nat {
    if s == "" then 0 else 10 * StringToNat(s[..|s| - 1]) + DigitValue(s[|s| - 1])
  }

  lemma {:induction false} NatRoundTrip(n: nat)
    ensures StringToNat(NatToString(n)) == n
  {
    if n < 10 {
      assert NatToString(n)[..0] == "";
      assert DigitValue(DIGITS[n]) == n;
    } else {
      var s := NatToString(n);
      NatRoundTrip(n / 10);
      assert s[..|s| - 1] == NatToString(n / 10);
      assert DigitValue(DIGITS[n % 10]) == n % 10;
    }
  }

  lemma NatToStringInjective(a: nat, b: nat)
    requires NatToString(a) == NatToString(b)
    ensures a == b
  {
    NatRoundTrip(a);
    NatRoundTrip(b);
  }

  /** Decimal printing is injective. */
  lemma IntToStringInjective(a: int, b: int)
    ensures IntToString(a) == IntToString(b) <==> a == b
  {
    if IntToString(a) == IntToString(b) {
      assert IntToString(a)[0] == '-' <==> a < 0 by { FirstChar(a); }
      assert IntToString(b)[0] == '-' <==> b < 0 by { FirstChar(b); }
      if a < 0 {
        CommonPrefix("-", NatToString(-a), NatToString(-b));
        NatToStringInjective(-a, -b);
      } else {
        NatToStringInjective(a, b);
      }
    }
  }

  lemma FirstChar(n: int)
    ensures IntToString(n) != "" && (IntToString(n)[0] == '-' <==> n < 0)
  {
    if n >= 0 {
      assert NatToString(n)[0] in DIGITS;
    }
  }

  // ---------------------------------------------------------------- separators

  /** Splitting at the last separator is unambiguous. */
  lemma LastSeparator(a: string, b: string, c: string, d: string, sep: char)
    requires a + [sep] + b == c + [sep] + d
    requires sep !in b && sep !in d
    ensures a == c && b == d
  {
    var s, t := a + [sep] + b, c + [sep] + d;
    assert s[|a|] == sep && forall k :: |a| < k < |s| ==> s[k] != sep;
    assert t[|c|] == sep && forall k :: |c| < k < |t| ==> t[k] != sep;
    assert |a| == |c|;
    assert a == s[..|a|] && c == t[..|a|];
    assert b == s[|a| + 1..] && d == t[|a| + 1..];
  }

  /** Splitting at the first separator is unambiguous. */
  lemma FirstSeparator(a: string, b: string, c: string, d: string, sep: char)
    requires a + [sep] + b == c + [sep] + d
    requires sep !in a && sep !in c
    ensures a == c && b == d
  {
    var s, t := a + [sep] + b, c + [sep] + d;
    assert s[|a|] == sep && forall k :: 0 <= k < |a| ==> s[k] != sep;
    assert t[|c|] == sep && forall k :: 0 <= k < |c| ==> t[k] != sep;
    assert |a| == |c|;
    assert a == s[..|a|] && c == t[..|a|];
    assert b == s[|a| + 1..] && d == t[|a| + 1..];
  }

  lemma CommonPrefix(p: string, a: string, b: string)
    requires p + a == p + b
    ensures a == b
  {
    assert a == (p + a)[|p|..];
    assert b == (p + b)[|p|..];
  }

  // ---------------------------------------------------------------- order and sorted listings

  /** Go's "<=" on strings. */
  predicate LexLe(a: string, b: string) {
    a == "" || (b != "" && (a[0] < b[0] || (a[0] == b[0] && LexLe(a[1..], b[1..]))))
  }

  /** The strings differ first at i, where a has the smaller character. */
  ghost predicate SmallerAt(a: string, b: string, i: nat) {
    i < |a| && i < |b| && a[..i] == b[..i] && a[i] < b[i]
  }

  /** A prefix comes first; otherwise the first difference decides. */
  lemma {:induction false} LexLeIff(a: string, b: string)
    ensures LexLe(a, b) <==> a <= b || exists i: nat :: SmallerAt(a, b, i)
  {
    if a != "" && b != "" {
      LexLeIff(a[1..], b[1..]);
      assert a == [a[0]] + a[1..] && b == [b[0]] + b[1..];
      if a[0] < b[0] { assert SmallerAt(a, b, 0); }
      if i: nat :| SmallerAt(a[1..], b[1..], i) && a[0] == b[0] {
        assert a[..i + 1] == [a[0]] + a[1..][..i] && b[..i + 1] == [b[0]] + b[1..][..i];
        assert SmallerAt(a, b, i + 1);
      }
      if i: nat :| SmallerAt(a, b, i) && i > 0 {
        assert a[1..][..i - 1] == a[..i][1..] && b[1..][..i - 1] == b[..i][1..];
        assert a[0] == a[..i][0] == b[..i][0] == b[0];
        assert SmallerAt(a[1..], b[1..], i - 1);
      }
    }
  }

  lemma {:induction false} LexLeTotal(a: string, b: string)
    ensures LexLe(a, b) || LexLe(b, a)
  {
    if a != "" && b != "" && a[0] == b[0] {
      LexLeTotal(a[1..], b[1..]);
    }
  }

  lemma {:induction false} LexLeAntisymmetric(a: string, b: string)
    requires LexLe(a, b) && LexLe(b, a)
    ensures a == b
  {
    if a != "" {
      LexLeAntisymmetric(a[1..], b[1..]);
      assert a == [a[0]] + a[1..] && b == [b[0]] + b[1..];
    }
  }

  lemma {:induction false} LexLeTransitive(a: string, b: string, c: string)
    requires LexLe(a, b) && LexLe(b, c)
    ensures LexLe(a, c)
  {
    if a != "" && a[0] == b[0] == c[0] {
      LexLeTransitive(a[1..], b[1..], c[1..]);
    }
  }

  function Elements<T>(s: seq<T>): set<T> { set x | x in s }

  /** The next element of an iteration over a set, in no particular order. */
  method Pick<T>(s: set<T>) returns (x: T)
    requires s != {}
    ensures x in s
  {
    x :| x in s;
  }

  ghost predicate NoDuplicates<T(!new)>(s: seq<T>) {
    forall i, j :: 0 <= i < j < |s| ==> s[i] != s[j]
  }

  lemma NoDuplicatesConcat<T(!new)>(a: seq<T>, b: seq<T>)
    requires NoDuplicates(a) && NoDuplicates(b) && forall x <- a :: x !in b
    ensures NoDuplicates(a + b)
  {
    forall i, j | 0 <= i < |a| && 0 <= j < |b| ensures a[i] != b[j] { assert a[i] in a && b[j] in b; }
  }

  /** The first element with a property. */
  function First<T>(s: seq<T>, p: T -> bool): (r: Option<nat>)
    ensures r.Some? ==> r.value < |s| && p(s[r.value])
    ensures forall k :: 0 <= k < (if r.Some? then r.value else |s|) ==> !p(s[k])
  {
    if s == [] then None
    else
      var n := |s| - 1;
      var earlier := First(s[..n], p);
      if earlier.Some? then earlier else if p(s[n]) then Some(n) else None
  }

  ghost predicate LexSorted(s: seq<string>) {
    forall i, j :: 0 <= i < j < |s| ==> LexLe(s[i], s[j])
  }

  /** sets.String.List: the elements of a set in ascending order. */
  method SortedList(s: set<string>) returns (l: seq<string>)
    ensures Elements(l) == s
    ensures NoDuplicates(l)
    ensures LexSorted(l)
  {
    l := [];
    var rest := s;
    while rest != {}
      invariant Elements(l) + rest == s
      invariant Elements(l) !! rest
      invariant NoDuplicates(l) && LexSorted(l)
      invariant forall x <- l, y <- rest :: LexLe(x, y)
      decreases rest
    {
      var least := Least(rest);
      l := l + [least];
      rest := rest - {least};
    }
  }

  method Least(s: set<string>) returns (least: string)
    requires s != {}
    ensures least in s
    ensures forall x <- s :: LexLe(least, x)
  {
    least :| least in s;
    var rest := s - {least};
    LexLeTotal(least, least);
    while rest != {}
      invariant rest <= s && least in s
      invariant forall x <- s - rest :: LexLe(least, x)
      decreases rest
    {
      var x :| x in rest;
      LexLeTotal(least, x);
      if !LexLe(least, x) {
        forall y | y in s - rest ensures LexLe(x, y) { LexLeTransitive(x, least, y); }
        LexLeTotal(x, x);
        least := x;
      }
      rest := rest - {x};
    }
  }

  // ---------------------------------------------------------------- names given by a service

  ghost function LongerThanAll(s: set<string>): (n: nat)
    ensures forall x <- s :: |x| <= n
  {
    if s == {} then 0
    else
      var x :| x in s;
      var rest := LongerThanAll(s - {x});
      if |x| > rest then |x| else rest
  }

  method FreshName(prefix: string, used: set<string>) returns (name: string)
    ensures name !in used
  {
    ghost var longest := LongerThanAll(used);
    name := prefix;
    while name in used
      decreases longest + 1 - |name|
    {
      name := name + "x";
    }
  }
}
