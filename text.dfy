/** The string handling the uploader relies on: decimal rendering of
    numbers (as `format!` prints a `u64`), decimal parsing (as
    `str::parse::<u64>` accepts it) and splitting at a character (as
    `str::split` with a `char` pattern does). */
module Text {
  import opened Wrappers

  /** One more than the largest `u64`. */
  const U64Limit: nat := 0x1_0000_0000_0000_0000

  predicate IsDigit(c: char) {
    '0' <= c <= '9'
  }

  predicate AllDigits(s: string) {
    forall i :: 0 <= i < |s| ==> IsDigit(s[i])
  }

  function DigitChar(d: nat): (c: char)
    requires d < 10
    ensures IsDigit(c)
  {
    ['0', '1', '2', '3', '4', '5', '6', '7', '8', '9'][d]
  }

  function DigitValue(c: char): (d: nat)
    requires IsDigit(c)
    ensures d < 10
  {
    (c as int) - ('0' as int)
  }

  /** The number a string of decimal digits denotes, most significant first. */
  function DigitsValue(s: string): nat
    requires AllDigits(s)
  {
    if s == [] then 0 else 10 * DigitsValue(s[..|s| - 1]) + DigitValue(s[|s| - 1])
  }

  /** Decimal rendering without leading zeros. */
  function ShowNat(n: nat): (s: string)
    ensures |s| > 0 && AllDigits(s)
    ensures |s| > 1 ==> s[0] != '0'
  {
    if n < 10 then [DigitChar(n)] else ShowNat(n / 10) + [DigitChar(n % 10)]
  }

  lemma {:induction false} ShowNatValue(n: nat)
    ensures DigitsValue(ShowNat(n)) == n
  {
    if n >= 10 {
      var s := ShowNat(n);
      assert s[..|s| - 1] == ShowNat(n / 10);
      ShowNatValue(n / 10);
    }
  }

  /** Strict decimal: a non-empty run of digits and nothing else. */
  function ParseDecimal(s: string): (r: Option<nat>)
    ensures r.Some? ==> |s| > 0 && AllDigits(s)
  {
    if |s| > 0 && AllDigits(s) then Some(DigitsValue(s)) else None
  }

  lemma ParseDecimalShowNat(n: nat)
    ensures ParseDecimal(ShowNat(n)) == Some(n)
  {
    ShowNatValue(n);
  }

  /** `str::parse::<u64>`: an optional leading '+', then at least one
      digit and only digits, denoting a value below 2^64. */
  function ParseU64(s: string): (r: Option<nat>)
    ensures r.Some? ==> r.value < U64Limit
    ensures r.Some? ==> Count(s, '-') == 0 && |s| > 0
  {
    var digits := if |s| > 0 && s[0] == '+' then s[1..] else s;
    match ParseDecimal(digits)
    case Some(v) =>
      DigitsHaveNoDash(digits);
      assert s == digits || s == ['+'] + digits;
      if v < U64Limit then Some(v) else None
    case None => None
  }

  lemma ParseU64ShowNat(n: nat)
    requires n < U64Limit
    ensures ParseU64(ShowNat(n)) == Some(n)
    ensures ParseU64("+" + ShowNat(n)) == Some(n)
  {
    ShowNatValue(n);
    assert ("+" + ShowNat(n))[1..] == ShowNat(n);
  }

  /** The number of occurrences of `c` in `s`. */
  function Count(s: string, c: char): nat
  {
    if s == [] then 0 else (if s[0] == c then 1 else 0) + Count(s[1..], c)
  }

  lemma {:induction false} CountZero(s: string, c: char)
    ensures Count(s, c) == 0 <==> c !in s
  {
    if s != [] {
      CountZero(s[1..], c);
      assert c in s <==> s[0] == c || c in s[1..];
    }
  }

  lemma {:induction false} CountAppend(a: string, b: string, c: char)
    ensures Count(a + b, c) == Count(a, c) + Count(b, c)
  {
    if a == [] {
      assert a + b == b;
    } else {
      assert (a + b)[1..] == a[1..] + b;
      CountAppend(a[1..], b, c);
    }
  }

  lemma DigitsHaveNoDash(s: string)
    requires AllDigits(s)
    ensures Count(s, '-') == 0 && Count(s, '/') == 0
  {
    CountZero(s, '-');
    CountZero(s, '/');
  }

  /** The pieces of `s` between occurrences of `sep`, as `str::split`
      yields them: empty pieces are kept, and "" gives [""]. */
  function Split(s: string, sep: char): (parts: seq<string>)
    ensures |parts| == Count(s, sep) + 1
    ensures forall i :: 0 <= i < |parts| ==> sep !in parts[i]
  {
    if s == [] then [""]
    else
      var rest := Split(s[1..], sep);
      if s[0] == sep then [""] + rest
      else [[s[0]] + rest[0]] + rest[1..]
  }

  /** The inverse of Split: the pieces glued back with `sep` between them. */
  function Join(parts: seq<string>, sep: char): string
    requires |parts| > 0
  {
    if |parts| == 1 then parts[0] else parts[0] + [sep] + Join(parts[1..], sep)
  }

  lemma {:induction false} JoinSplit(s: string, sep: char)
    ensures Join(Split(s, sep), sep) == s
  {
    if s != [] {
      var rest := Split(s[1..], sep);
      JoinSplit(s[1..], sep);
      if s[0] == sep {
        assert ([""] + rest)[1..] == rest;
      } else {
        var parts := [[s[0]] + rest[0]] + rest[1..];
        if |rest| > 1 {
          assert parts[1..] == rest[1..];
          assert Join(rest, sep) == rest[0] + [sep] + Join(rest[1..], sep);
        }
      }
    }
  }

  lemma {:induction false} SplitJoin(parts: seq<string>, sep: char)
    requires |parts| > 0
    requires forall i :: 0 <= i < |parts| ==> sep !in parts[i]
    ensures Split(Join(parts, sep), sep) == parts
  {
    if |parts| == 1 {
      SplitNoSep(parts[0], sep);
    } else {
      SplitJoin(parts[1..], sep);
      SplitPrefix(parts[0], Join(parts[1..], sep), sep);
      assert parts == [parts[0]] + parts[1..];
    }
  }

  /** A string with a single separator is its two pieces around it. */
  lemma SplitOnce(s: string, sep: char)
    requires Count(s, sep) == 1
    ensures var parts := Split(s, sep);
      |parts| == 2 && s == parts[0] + [sep] + parts[1] && sep !in parts[0] && sep !in parts[1]
  {
    var parts := Split(s, sep);
    JoinSplit(s, sep);
    assert parts[1..] == [parts[1]];
  }

  lemma {:induction false} SplitNoSep(s: string, sep: char)
    requires sep !in s
    ensures Split(s, sep) == [s]
  {
    if s != [] {
      SplitNoSep(s[1..], sep);
      assert [s[0]] + s[1..] == s;
    }
  }

  /** Splitting a separator-free prefix, the separator and a tail. */
  lemma {:induction false} SplitPrefix(a: string, b: string, sep: char)
    requires sep !in a
    ensures Split(a + [sep] + b, sep) == [a] + Split(b, sep)
  {
    if a == [] {
      assert a + [sep] + b == [sep] + b;
      assert ([sep] + b)[1..] == b;
    } else {
      assert (a + [sep] + b)[1..] == a[1..] + [sep] + b;
      SplitPrefix(a[1..], b, sep);
      assert [a[0]] + a[1..] == a;
    }
  }
}
