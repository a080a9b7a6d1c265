/** `str(n)` on non-negative integers and `sep.join(...)`, the string encodings that the source
    uses as dictionary keys and identifiers. */
module Decimal {

  function Digit(d: nat): char
    requires d < 10
  {
    ('0' as int + d) as char
  }

  predicate IsDigit(c: char) { '0' <= c <= '9' }

  function Str(n: nat): string {
    if n < 10 then [Digit(n)] else Str(n / 10) + [Digit(n % 10)]
  }

  /** Reads a decimal back. */
  function Value(s: string): int {
    if s == [] then 0
    else Value(s[..|s| - 1]) * 10 + (s[|s| - 1] as int - '0' as int)
  }

  lemma {:induction false} StrRoundTrip(n: nat)
    ensures Value(Str(n)) == n && Str(n) != []
    ensures forall i :: 0 <= i < |Str(n)| ==> IsDigit(Str(n)[i])
  {
    if n >= 10 {
      StrRoundTrip(n / 10);
      assert Str(n)[..|Str(n)| - 1] == Str(n / 10);
    } else {
      assert Str(n)[..0] == [];
    }
  }

  /** Ten digits, in this order, and base ten. */
  lemma StrOfAllDigits()
    ensures Str(1234567890) == "1234567890"
  {
    assert Str(1) == "1" && Str(12) == "12" && Str(123) == "123" && Str(1234) == "1234" && Str(12345) == "12345";
    assert Str(123456) == "123456" && Str(1234567) == "1234567" && Str(12345678) == "12345678";
    assert Str(123456789) == "123456789";
  }

  lemma StrInjective(m: nat, n: nat)
    requires Str(m) == Str(n)
    ensures m == n
  {
    StrRoundTrip(m);
    StrRoundTrip(n);
  }

  function Join(sep: char, parts: seq<string>): string {
    if parts == [] then ""
    else if |parts| == 1 then parts[0]
    else parts[0] + [sep] + Join(sep, parts[1..])
  }

  /** The text before the first separator. */
  function Head(sep: char, s: string): string {
    if s == [] || s[0] == sep then [] else [s[0]] + Head(sep, s[1..])
  }

  lemma {:induction false} HeadOfPart(sep: char, a: string, rest: string)
    requires sep !in a
    requires rest == [] || rest[0] == sep
    ensures Head(sep, a + rest) == a
  {
    if a == [] {
      assert a + rest == rest;
    } else {
      HeadOfPart(sep, a[1..], rest);
      assert (a + rest)[1..] == a[1..] + rest;
    }
  }

  /** Both texts end where the first separator, if there is one, stands. */
  lemma SplitAtSeparator(sep: char, a: string, s: string, b: string, t: string)
    requires sep !in a && sep !in b && a + s == b + t
    requires (s == [] || s[0] == sep) && (t == [] || t[0] == sep)
    ensures a == b && s == t
  {
    HeadOfPart(sep, a, s);
    HeadOfPart(sep, b, t);
    assert s == (a + s)[|a|..] && t == (b + t)[|b|..];
  }

  ghost predicate NoneContains(sep: char, parts: seq<string>) {
    forall i :: 0 <= i < |parts| ==> sep !in parts[i]
  }

  /** Joining with a separator that occurs in no part loses nothing. */
  lemma {:induction false} JoinInjective(sep: char, xs: seq<string>, ys: seq<string>)
    requires NoneContains(sep, xs) && NoneContains(sep, ys)
    requires xs != [] && ys != []
    requires Join(sep, xs) == Join(sep, ys)
    ensures xs == ys
  {
    var xr := if |xs| == 1 then "" else [sep] + Join(sep, xs[1..]);
    var yr := if |ys| == 1 then "" else [sep] + Join(sep, ys[1..]);
    assert Join(sep, xs) == xs[0] + xr;
    assert Join(sep, ys) == ys[0] + yr;
    SplitAtSeparator(sep, xs[0], xr, ys[0], yr);
    if |xs| > 1 {
      assert Join(sep, xs[1..]) == xr[1..] == yr[1..] == Join(sep, ys[1..]);
      JoinInjective(sep, xs[1..], ys[1..]);
      assert xs == [xs[0]] + xs[1..] && ys == [ys[0]] + ys[1..];
    }
  }

  lemma {:induction false} JoinConcat(sep: char, xs: seq<string>, ys: seq<string>)
    requires xs != [] && ys != []
    ensures Join(sep, xs + ys) == Join(sep, xs) + [sep] + Join(sep, ys)
  {
    assert (xs + ys)[1..] == xs[1..] + ys;
    if |xs| > 1 {
      JoinConcat(sep, xs[1..], ys);
      Associate(xs[0] + [sep], Join(sep, xs[1..]), [sep] + Join(sep, ys));
    }
  }

  lemma Associate(x: string, y: string, z: string)
    ensures (x + y) + z == x + (y + z)
  {
  }

  /** `s.split(sep)`: the parts between the separators. */
  function Split(sep: char, s: string): (parts: seq<string>)
    ensures parts != []
  {
    if s == [] then [""]
    else
      var parts := Split(sep, s[1..]);
      if s[0] == sep then [""] + parts else [[s[0]] + parts[0]] + parts[1..]
  }

  lemma {:induction false} JoinOfSplit(sep: char, s: string)
    ensures Join(sep, Split(sep, s)) == s && NoneContains(sep, Split(sep, s))
  {
    if s != [] {
      JoinOfSplit(sep, s[1..]);
      var parts := Split(sep, s[1..]);
      assert s == [s[0]] + s[1..];
      if s[0] == sep {
        JoinConcat(sep, [""], parts);
      } else {
        assert ([[s[0]] + parts[0]] + parts[1..])[1..] == parts[1..];
      }
    }
  }

  function Strs(ns: seq<nat>): seq<string> {
    seq(|ns|, i requires 0 <= i < |ns| => Str(ns[i]))
  }

  lemma StrsInjective(ms: seq<nat>, ns: seq<nat>)
    requires Strs(ms) == Strs(ns)
    ensures ms == ns
  {
    assert |ms| == |Strs(ms)| == |Strs(ns)| == |ns|;
    forall i | 0 <= i < |ms| ensures ms[i] == ns[i] {
      assert Strs(ms)[i] == Strs(ns)[i];
      StrInjective(ms[i], ns[i]);
    }
  }

  lemma StrsContainNo(sep: char, ns: seq<nat>)
    requires !IsDigit(sep)
    ensures NoneContains(sep, Strs(ns))
  {
    forall i | 0 <= i < |ns| ensures sep !in Strs(ns)[i] {
      StrRoundTrip(ns[i]);
    }
  }
}
