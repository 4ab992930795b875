/**
 * The Ruby string operations the generator relies on, restricted to ASCII:
 * `String#*`, `Array#join`, `String#split`, `String#strip`, `downcase`,
 * `upcase` and `Kernel#format("%d")`.
 */
module Text {
  import opened Wrappers

  // ---------------------------------------------------------------- characters

  predicate IsLower(c: char) { 'a' <= c <= 'z' }

  predicate IsUpper(c: char) { 'A' <= c <= 'Z' }

  /** ASCII upcase of one character; every other character is left alone. */
  function Upcase(c: char): (r: char)
    ensures !IsLower(r)
    ensures IsUpper(c) || IsLower(c) <==> IsUpper(r)
    ensures !IsLower(c) ==> r == c
  {
    if IsLower(c) then (c as int - 32) as char else c
  }

  /** ASCII downcase of one character; every other character is left alone. */
  function Downcase(c: char): (r: char)
    ensures !IsUpper(r)
    ensures IsUpper(c) || IsLower(c) <==> IsLower(r)
    ensures !IsUpper(c) ==> r == c
    ensures Downcase(Upcase(c)) == r
  {
    if IsUpper(c) then (c as int + 32) as char else c
  }

  /** String#downcase. */
  function DowncaseAll(s: string): (r: string)
    ensures |r| == |s|
    ensures forall i :: 0 <= i < |s| ==> r[i] == Downcase(s[i])
  {
    seq(|s|, i requires 0 <= i < |s| => Downcase(s[i]))
  }

  lemma DowncaseAllConcat(a: string, b: string)
    ensures DowncaseAll(a + b) == DowncaseAll(a) + DowncaseAll(b)
  {
  }

  // ---------------------------------------------------------------- indentation

  /** `"  " * d`: two spaces for each level of depth. */
  function Indentation(d: nat): (r: string)
    ensures |r| == 2 * d
    ensures forall i :: 0 <= i < |r| ==> r[i] == ' '
  {
    if d == 0 then "" else "  " + Indentation(d - 1)
  }

  lemma IndentationGrows(d: nat, e: nat)
    requires d <= e
    ensures Indentation(e) == Indentation(d) + Indentation(e - d)
  {
  }

  // ---------------------------------------------------------------- join and split

  /** Array#join(sep). */
  function JoinWith(parts: seq<string>, sep: string): string
  {
    if |parts| == 0 then ""
    else if |parts| == 1 then parts[0]
    else parts[0] + sep + JoinWith(parts[1..], sep)
  }

  /**
   * Every field of `s` between occurrences of `c`, empty ones included
   * (String#split with a negative limit). There is always one more field
   * than there are separators.
   */
  function SplitAll(s: string, c: char): (r: seq<string>)
    ensures |r| >= 1
    ensures forall i :: 0 <= i < |r| ==> c !in r[i]
    decreases |s|
  {
    if s == [] then [""]
    else
      var rest := SplitAll(s[1..], c);
      if s[0] == c then [""] + rest else [[s[0]] + rest[0]] + rest[1..]
  }

  /** Joining the fields with the separator gives the string back. */
  lemma {:induction false} JoinSplitAll(s: string, c: char)
    ensures JoinWith(SplitAll(s, c), [c]) == s
    decreases |s|
  {
    if s != [] {
      var rest := SplitAll(s[1..], c);
      JoinSplitAll(s[1..], c);
      if s[0] == c {
        assert ([""] + rest)[1..] == rest;
      } else {
        var parts := [[s[0]] + rest[0]] + rest[1..];
        if |rest| == 1 {
          assert parts == [[s[0]] + rest[0]];
        } else {
          assert parts[1..] == rest[1..];
          assert JoinWith(rest, [c]) == rest[0] + [c] + JoinWith(rest[1..], [c]);
        }
      }
    }
  }

  /** A separator in the string means at least two fields. */
  lemma {:induction false} SplitAllAtSeparator(s: string, c: char)
    requires c in s
    ensures |SplitAll(s, c)| >= 2
    decreases |s|
  {
    if s[0] != c {
      SplitAllAtSeparator(s[1..], c);
    }
  }

  lemma {:induction false} SplitAllPlainPrefix(p: string, x: string, c: char)
    requires c !in p
    ensures SplitAll(p + x, c) == [p + SplitAll(x, c)[0]] + SplitAll(x, c)[1..]
    decreases |p|
  {
    if p == [] {
      var r := SplitAll(x, c);
      assert p + x == x && p + r[0] == r[0];
      assert [r[0]] + r[1..] == r;
    } else {
      assert (p + x)[0] == p[0];
      assert (p + x)[1..] == p[1..] + x;
      assert p[0] in p;
      assert forall d :: d in p[1..] ==> d in p;
      SplitAllPlainPrefix(p[1..], x, c);
      assert [p[0]] + (p[1..] + SplitAll(x, c)[0]) == p + SplitAll(x, c)[0];
    }
  }

  /** Splitting the join of separator-free parts gives the parts back. */
  lemma {:induction false} SplitAllJoin(parts: seq<string>, c: char)
    requires |parts| >= 1
    requires forall i :: 0 <= i < |parts| ==> c !in parts[i]
    ensures SplitAll(JoinWith(parts, [c]), c) == parts
  {
    if |parts| == 1 {
      SplitAllPlainPrefix(parts[0], [], c);
      assert parts[0] + [] == parts[0];
    } else {
      var rest := JoinWith(parts[1..], [c]);
      SplitAllJoin(parts[1..], c);
      assert JoinWith(parts, [c]) == parts[0] + ([c] + rest);
      SplitAllPlainPrefix(parts[0], [c] + rest, c);
      assert ([c] + rest)[1..] == rest;
      assert SplitAll([c] + rest, c) == [""] + parts[1..];
      assert parts[0] + "" == parts[0];
    }
  }

  /** Splits at the first occurrence of `c`. */
  function SplitAtFirst(s: string, c: char): (r: Option<(string, string)>)
    ensures r.None? <==> c !in s
    ensures r.Some? ==> s == r.value.0 + [c] + r.value.1 && c !in r.value.0
  {
    if s == [] then None
    else if s[0] == c then Some(([], s[1..]))
    else match SplitAtFirst(s[1..], c)
      case None => None
      case Some((a, b)) => Some(([s[0]] + a, b))
  }

  lemma {:induction false} SplitAtFirstOf(a: string, b: string, c: char)
    requires c !in a
    ensures SplitAtFirst(a + [c] + b, c) == Some((a, b))
    decreases |a|
  {
    if a == [] {
      assert a + [c] + b == [c] + b;
    } else {
      assert (a + [c] + b)[1..] == a[1..] + [c] + b;
      assert a[0] in a;
      assert forall d :: d in a[1..] ==> d in a;
      SplitAtFirstOf(a[1..], b, c);
      assert [a[0]] + a[1..] == a;
    }
  }

  /** Drops the empty strings at the end of a list. */
  function DropTrailingEmpty(xs: seq<string>): (r: seq<string>)
    ensures |r| <= |xs| && r == xs[..|r|]
    ensures r == [] || r[|r| - 1] != ""
    ensures forall i :: |r| <= i < |xs| ==> xs[i] == ""
  {
    if xs == [] then []
    else if xs[|xs| - 1] == "" then DropTrailingEmpty(xs[..|xs| - 1])
    else xs
  }

  /** String#split(c) for a one-character separator: the fields, without the trailing empty ones. */
  function Split(s: string, c: char): seq<string>
  {
    DropTrailingEmpty(SplitAll(s, c))
  }

  // ---------------------------------------------------------------- strip

  /** The characters String#strip removes: NUL, tab, line feed, vertical tab, form feed, carriage return, space. */
  predicate IsStripSpace(c: char)
  {
    c == ' ' || c == '\0' || 9 <= c as int <= 13
  }

  /** The trailing half of String#strip. */
  function StripTrailing(s: string): (r: string)
    ensures |r| <= |s| && r == s[..|r|]
    ensures r == [] || !IsStripSpace(r[|r| - 1])
    ensures forall i :: |r| <= i < |s| ==> IsStripSpace(s[i])
  {
    if s == [] || !IsStripSpace(s[|s| - 1]) then s else StripTrailing(s[..|s| - 1])
  }

  // ---------------------------------------------------------------- decimal numbers

  predicate IsDigit(c: char) { '0' <= c <= '9' }

  predicate AllDigits(s: string) { forall i :: 0 <= i < |s| ==> IsDigit(s[i]) }

  /** The number a string of decimal digits denotes. */
  function DecimalValue(s: string): nat
    requires AllDigits(s)
  {
    if s == [] then 0 else 10 * DecimalValue(s[..|s| - 1]) + (s[|s| - 1] as int - '0' as int)
  }

  function DigitChar(d: nat): (c: char)
    requires d < 10
    ensures IsDigit(c) && c as int - '0' as int == d
  {
    ('0' as int + d) as char
  }

  /** The decimal digits of `n`, without leading zeros. */
  function NatToString(n: nat): (r: string)
    ensures |r| >= 1 && AllDigits(r)
    ensures r[0] == '0' ==> r == "0"
    ensures DecimalValue(r) == n
  {
    if n < 10 then [DigitChar(n)]
    else
      var r := NatToString(n / 10) + [DigitChar(n % 10)];
      assert r[..|r| - 1] == NatToString(n / 10);
      r
  }

  /** `"%d" % x`: a minus sign for a negative number, then the digits of its magnitude. */
  function IntToString(x: int): (r: string)
    ensures |r| >= 1
    ensures r[0] == '-' <==> x < 0
  {
    if x < 0 then "-" + NatToString(-x) else NatToString(x)
  }

  /** Reads back what IntToString writes: an optional minus sign and decimal digits. */
  function ParseInt(s: string): int
    requires AllDigits(if |s| > 0 && s[0] == '-' then s[1..] else s)
  {
    if |s| > 0 && s[0] == '-' then -(DecimalValue(s[1..]) as int) else DecimalValue(s)
  }

  lemma IntToStringRoundTrip(x: int)
    ensures var r := IntToString(x);
            AllDigits(if r[0] == '-' then r[1..] else r) && ParseInt(r) == x
  {
    if x < 0 {
      assert IntToString(x)[1..] == NatToString(-x);
    }
  }
}
