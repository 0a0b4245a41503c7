/** String helpers the statement builder relies on: Python's `sep.join(parts)`,
    an independent splitter that undoes it, counting of a character (used for
    the `?` placeholder token) and the decimal rendering of integers that an
    f-string applies to an `int`. */
module Strings {

  /** Number of occurrences of `c` in `s`. */
  function Occurrences(c: char, s: string): nat
  {
    if s == [] then 0 else (if s[0] == c then 1 else 0) + Occurrences(c, s[1..])
  }

  lemma {:induction false} OccurrencesAppend(c: char, a: string, b: string)
    ensures Occurrences(c, a + b) == Occurrences(c, a) + Occurrences(c, b)
  {
    if a == [] {
      assert a + b == b;
    } else {
      assert (a + b)[1..] == a[1..] + b;
      OccurrencesAppend(c, a[1..], b);
    }
  }

  /** A string counts no `c` exactly when `c` does not appear in it. */
  lemma {:induction false} OccurrencesAbsent(c: char, s: string)
    ensures Occurrences(c, s) == 0 <==> c !in s
  {
    if s != [] {
      OccurrencesAbsent(c, s[1..]);
      assert s == [s[0]] + s[1..];
    }
  }

  /** Python's `sep.join(parts)`. */
  function Join(sep: string, parts: seq<string>): string
  {
    if |parts| == 0 then ""
    else if |parts| == 1 then parts[0]
    else parts[0] + sep + Join(sep, parts[1..])
  }

  /** Joining two non-empty lists is joining each and gluing them with one more
      separator: joining keeps the parts in the order given. */
  lemma {:induction false} JoinAppend(sep: string, a: seq<string>, b: seq<string>)
    requires a != [] && b != []
    ensures Join(sep, a + b) == Join(sep, a) + sep + Join(sep, b)
  {
    assert (a + b)[0] == a[0];
    assert (a + b)[1..] == a[1..] + b;
    if |a| > 1 {
      JoinAppend(sep, a[1..], b);
    }
  }

  /** Splits `s` at every occurrence of `sep`, scanning left to right, like
      Python's `s.split(sep)`. Used only as the inverse of `Join`. */
  function Split(s: string, sep: string): (r: seq<string>)
    requires sep != []
    ensures r != []
    decreases |s|
  {
    if |s| < |sep| then [s]
    else if s[..|sep|] == sep then [""] + Split(s[|sep|..], sep)
    else
      var rest := Split(s[1..], sep);
      [[s[0]] + rest[0]] + rest[1..]
  }

  /** No part contains the character `c`. */
  predicate NoneContains(parts: seq<string>, c: char)
  {
    forall i :: 0 <= i < |parts| ==> c !in parts[i]
  }

  lemma {:induction false} SplitWithoutSeparator(p: string, sep: string)
    requires sep != [] && sep[0] !in p
    ensures Split(p, sep) == [p]
  {
    if |p| >= |sep| {
      assert p[..|sep|][0] == p[0];
      SplitWithoutSeparator(p[1..], sep);
      assert [p[0]] + p[1..] == p;
    }
  }

  lemma {:induction false} SplitAtSeparator(p: string, sep: string, rest: string)
    requires sep != [] && sep[0] !in p
    ensures Split(p + sep + rest, sep) == [p] + Split(rest, sep)
  {
    var s := p + sep + rest;
    if p == [] {
      assert s == sep + rest;
      assert s[..|sep|] == sep;
      assert s[|sep|..] == rest;
    } else {
      assert s[..|sep|][0] == p[0];
      assert s[1..] == p[1..] + sep + rest;
      SplitAtSeparator(p[1..], sep, rest);
      assert [p[0]] + p[1..] == p;
    }
  }

  /** Splitting undoes joining when no part contains the separator's first
      character: the joined text determines the parts, their number and order. */
  lemma {:induction false} SplitJoin(sep: string, parts: seq<string>)
    ensures sep != [] && parts != [] && NoneContains(parts, sep[0])
            ==> Split(Join(sep, parts), sep) == parts
  {
    if sep != [] && parts != [] && NoneContains(parts, sep[0]) {
      if |parts| == 1 {
        SplitWithoutSeparator(parts[0], sep);
      } else {
        SplitJoin(sep, parts[1..]);
        SplitAtSeparator(parts[0], sep, Join(sep, parts[1..]));
        assert [parts[0]] + parts[1..] == parts;
      }
    }
  }

  /** Joining parts and a separator that all lack `c` gives a text without `c`. */
  lemma {:induction false} JoinAbsent(c: char, sep: string, parts: seq<string>)
    requires c !in sep && NoneContains(parts, c)
    ensures c !in Join(sep, parts)
  {
    if |parts| > 1 {
      JoinAbsent(c, sep, parts[1..]);
    }
  }

  /** If the separator holds no `c` and every part holds exactly one, the
      joined text holds exactly one `c` per part. */
  lemma {:induction false} OccurrencesJoin(c: char, sep: string, parts: seq<string>)
    requires c !in sep
    requires forall i :: 0 <= i < |parts| ==> Occurrences(c, parts[i]) == 1
    ensures Occurrences(c, Join(sep, parts)) == |parts|
  {
    if |parts| > 1 {
      OccurrencesJoin(c, sep, parts[1..]);
      OccurrencesAbsent(c, sep);
      OccurrencesAppend(c, parts[0] + sep, Join(sep, parts[1..]));
      OccurrencesAppend(c, parts[0], sep);
    }
  }

  predicate IsDigits(s: string)
  {
    forall i :: 0 <= i < |s| ==> '0' <= s[i] <= '9'
  }

  function DigitChar(d: nat): (c: char)
    requires d < 10
  {
    ('0' as int + d) as char
  }

  /** Decimal digits of `n`, most significant first, without leading zeros. */
  function NatToString(n: nat): (r: string)
    ensures r != [] && IsDigits(r)
    ensures r[0] == '0' ==> n == 0
  {
    if n < 10 then [DigitChar(n)] else NatToString(n / 10) + [DigitChar(n % 10)]
  }

  /** Python's `str(i)` for an `int`: a minus sign before the digits of a negative number. */
  function IntToString(i: int): string
  {
    if i < 0 then "-" + NatToString(-i) else NatToString(i)
  }

  /** Reads decimal digits back. */
  function ParseNat(s: string): nat
    requires IsDigits(s)
  {
    if s == [] then 0 else ParseNat(s[..|s| - 1]) * 10 + (s[|s| - 1] as int - '0' as int)
  }

  predicate IsIntText(s: string)
  {
    IsDigits(s) || (s != [] && s[0] == '-' && IsDigits(s[1..]))
  }

  /** Reads an optional minus sign and decimal digits back. */
  function ParseInt(s: string): int
    requires IsIntText(s)
  {
    if s != [] && s[0] == '-' then -(ParseNat(s[1..]) as int) else ParseNat(s)
  }

  lemma {:induction false} ParseNatToString(n: nat)
    ensures ParseNat(NatToString(n)) == n
  {
    if n >= 10 {
      var s := NatToString(n / 10);
      ParseNatToString(n / 10);
      assert (s + [DigitChar(n % 10)])[..|s|] == s;
    }
  }

  /** The rendering of an integer is well-formed and reads back as the same
      integer, so distinct integers render differently. */
  lemma ParseIntToString(i: int)
    ensures IsIntText(IntToString(i))
    ensures ParseInt(IntToString(i)) == i
  {
    if i < 0 {
      var d := NatToString(-i);
      assert ("-" + d)[1..] == d;
      ParseNatToString(-i);
    } else {
      ParseNatToString(i);
    }
  }
}
