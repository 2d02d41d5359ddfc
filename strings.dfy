/**
 * The few Python string operations the clock relies on: `str.split` with an
 * explicit separator (and `ure.split` on a one-character class), `int()` on a
 * decimal string, `"{}".format` of an integer and `ure.sub` of one character.
 */
module Strings {
  import opened Wrappers

  /** How many characters of `s` belong to `seps`. */
  function CountOf(s: string, seps: set<char>): (n: nat)
    ensures n <= |s|
  {
    if s == [] then 0
    else (if s[0] in seps then 1 else 0) + CountOf(s[1..], seps)
  }

  /** `s` holds none of the characters in `seps`. */
  predicate NoneOf(s: string, seps: set<char>)
  {
    forall i :: 0 <= i < |s| ==> s[i] !in seps
  }

  /** No separator is counted exactly when there is none. */
  lemma {:induction false} CountOfZero(s: string, seps: set<char>)
    ensures CountOf(s, seps) == 0 <==> NoneOf(s, seps)
  {
    if s != [] {
      CountOfZero(s[1..], seps);
      if NoneOf(s, seps) {
        assert NoneOf(s[1..], seps) by {
          forall i | 0 <= i < |s| - 1 ensures s[1..][i] !in seps {
            assert s[1..][i] == s[i + 1];
          }
        }
      } else if s[0] !in seps {
        assert !NoneOf(s[1..], seps) by {
          var k :| 0 <= k < |s| && s[k] in seps;
          assert s[1..][k - 1] == s[k];
        }
      }
    }
  }

  /**
   * Python's `s.split(sep)` with an explicit separator, generalised to a
   * set of one-character separators as `ure.split('[+-]', s)` uses: every
   * occurrence cuts, and empty pieces (at either end or between two
   * adjacent separators) are kept.
   */
  function Split(s: string, seps: set<char>): (parts: seq<string>)
    ensures |parts| == CountOf(s, seps) + 1
  {
    if s == [] then [""]
    else if s[0] in seps then [""] + Split(s[1..], seps)
    else
      var rest := Split(s[1..], seps);
      [[s[0]] + rest[0]] + rest[1..]
  }

  /** No piece holds a separator. */
  lemma {:induction false} SplitPiecesHaveNoSeparator(s: string, seps: set<char>)
    ensures forall i :: 0 <= i < |Split(s, seps)| ==> NoneOf(Split(s, seps)[i], seps)
  {
    if s != [] {
      SplitPiecesHaveNoSeparator(s[1..], seps);
    }
  }

  /** Cutting a string never brings in a character it did not hold. */
  lemma {:induction false} SplitKeepsNoneOf(s: string, seps: set<char>, absent: set<char>)
    requires NoneOf(s, absent)
    ensures forall i :: 0 <= i < |Split(s, seps)| ==> NoneOf(Split(s, seps)[i], absent)
  {
    if s != [] {
      SplitKeepsNoneOf(s[1..], seps, absent);
    }
  }

  /** A piece without separators is not cut at all. */
  lemma {:induction false} SplitNone(a: string, seps: set<char>)
    requires NoneOf(a, seps)
    ensures Split(a, seps) == [a]
  {
    if a != [] {
      SplitNone(a[1..], seps);
      assert [a[0]] + a[1..] == a;
    }
  }

  /** A separator right after a separator-free piece ends that piece. */
  lemma {:induction false} SplitAt(a: string, c: char, b: string, seps: set<char>)
    requires NoneOf(a, seps) && c in seps
    ensures Split(a + [c] + b, seps) == [a] + Split(b, seps)
  {
    if a == [] {
      assert a + [c] + b == [c] + b;
      assert ([c] + b)[1..] == b;
    } else {
      assert (a + [c] + b)[1..] == a[1..] + [c] + b;
      SplitAt(a[1..], c, b, seps);
      assert [a[0]] + a[1..] == a;
    }
  }

  /** One separator between two separator-free pieces: exactly two pieces. */
  lemma SplitTwo(a: string, c: char, b: string, seps: set<char>)
    requires NoneOf(a, seps) && NoneOf(b, seps) && c in seps
    ensures Split(a + [c] + b, seps) == [a, b]
  {
    SplitAt(a, c, b, seps);
    SplitNone(b, seps);
  }

  /** Two separators between three separator-free pieces: exactly three pieces. */
  lemma SplitThree(a: string, c: char, b: string, d: char, e: string, seps: set<char>)
    requires NoneOf(a, seps) && NoneOf(b, seps) && NoneOf(e, seps) && c in seps && d in seps
    ensures Split(a + [c] + b + [d] + e, seps) == [a, b, e]
  {
    var rest := b + [d] + e;
    assert a + [c] + b + [d] + e == a + [c] + rest;
    SplitAt(a, c, rest, seps);
    SplitTwo(b, d, e, seps);
    assert [a] + [b, e] == [a, b, e];
  }

  /** Python's `sep.join(parts)`. */
  function Join(parts: seq<string>, sep: char): (s: string)
    requires |parts| > 0
  {
    if |parts| == 1 then parts[0] else parts[0] + [sep] + Join(parts[1..], sep)
  }

  /** Splitting a joined list gives the list back when no part holds the separator. */
  lemma {:induction false} SplitJoin(parts: seq<string>, sep: char)
    requires |parts| > 0
    requires forall i :: 0 <= i < |parts| ==> NoneOf(parts[i], {sep})
    ensures Split(Join(parts, sep), {sep}) == parts
  {
    if |parts| == 1 {
      SplitNone(parts[0], {sep});
    } else {
      SplitJoin(parts[1..], sep);
      SplitAt(parts[0], sep, Join(parts[1..], sep), {sep});
      assert [parts[0]] + parts[1..] == parts;
    }
  }

  /** Joining the pieces of a split with the one separator restores the string. */
  lemma {:induction false} JoinSplit(s: string, sep: char)
    ensures Join(Split(s, {sep}), sep) == s
  {
    if s != [] {
      JoinSplit(s[1..], sep);
      var rest := Split(s[1..], {sep});
      if s[0] == sep {
        assert Split(s, {sep})[1..] == rest;
        assert s == [sep] + s[1..];
      } else if |rest| == 1 {
        assert s == [s[0]] + s[1..];
      } else {
        var parts := Split(s, {sep});
        assert parts[1..] == rest[1..];
        assert Join(rest, sep) == rest[0] + [sep] + Join(rest[1..], sep);
        assert s == [s[0]] + s[1..];
      }
    }
  }

  // ---------------------------------------------------------------------
  // Decimal integers, as `int()` reads them and `"{}".format` writes them

  /** The ASCII white space `int()` strips: tab, line feed, vertical tab, form feed, carriage return, space. */
  predicate IsSpace(c: char)
  {
    c == ' ' || 9 <= c as int <= 13
  }

  predicate IsDigit(c: char)
  {
    '0' as int <= c as int <= '9' as int
  }

  /** Every character is a decimal digit. */
  predicate AllDigits(s: string)
  {
    forall i :: 0 <= i < |s| ==> IsDigit(s[i])
  }

  /** A non-empty run of decimal digits. */
  predicate IsDigits(s: string)
  {
    |s| > 0 && AllDigits(s)
  }

  /** `s.lstrip()`: leading white space removed. */
  function StripLeft(s: string): string
  {
    if s != [] && IsSpace(s[0]) then StripLeft(s[1..]) else s
  }

  /** `s.rstrip()`: trailing white space removed. */
  function StripRight(s: string): string
  {
    if s != [] && IsSpace(s[|s| - 1]) then StripRight(s[..|s| - 1]) else s
  }

  /** What `lstrip` keeps is a suffix of the input that starts with no white space. */
  lemma {:induction false} StripLeftIsSuffix(s: string)
    ensures |StripLeft(s)| <= |s| && StripLeft(s) == s[|s| - |StripLeft(s)|..]
    ensures StripLeft(s) == [] || !IsSpace(StripLeft(s)[0])
  {
    if s != [] && IsSpace(s[0]) {
      StripLeftIsSuffix(s[1..]);
    }
  }

  /** What `rstrip` keeps is a prefix of the input that ends with no white space. */
  lemma {:induction false} StripRightIsPrefix(s: string)
    ensures |StripRight(s)| <= |s| && StripRight(s) == s[..|StripRight(s)|]
    ensures StripRight(s) == [] || !IsSpace(StripRight(s)[|StripRight(s)| - 1])
  {
    if s != [] && IsSpace(s[|s| - 1]) {
      StripRightIsPrefix(s[..|s| - 1]);
    }
  }

  /** The value of a string of decimal digits, most significant first (leading zeros allowed). */
  function DigitsValue(s: string): nat
    requires AllDigits(s)
  {
    if s == [] then 0
    else
      assert IsDigit(s[|s| - 1]);
      10 * DigitsValue(s[..|s| - 1]) + (s[|s| - 1] as int - '0' as int)
  }

  /** One more digit on the right: ten times the value, plus that digit. */
  lemma DigitsValueAppend(s: string, c: char)
    requires AllDigits(s) && IsDigit(c)
    ensures AllDigits(s + [c])
    ensures DigitsValue(s + [c]) == 10 * DigitsValue(s) + (c as int - '0' as int)
  {
    assert (s + [c])[..|s|] == s;
  }

  /** A two-digit run: tens, then units. */
  lemma TwoDigits(a: char, b: char)
    requires IsDigit(a) && IsDigit(b)
    ensures IsDigits([a, b])
    ensures DigitsValue([a, b]) == 10 * (a as int - '0' as int) + (b as int - '0' as int)
  {
    DigitsValueAppend([a], b);
    assert [a] + [b] == [a, b];
    assert [a][..0] == [];
  }

  /** The digits of `s` read as a number, or `None` unless `s` is a non-empty run of digits. */
  function ParseDigits(s: string): (r: Option<nat>)
  {
    if IsDigits(s) then Some(DigitsValue(s)) else None
  }

  /**
   * Python's `int(s)` in base 10: optional white space around an optional
   * sign and at least one decimal digit; anything else is a `ValueError`,
   * here `None`.
   */
  function ParseInt(s: string): (r: Option<int>)
  {
    var body := StripRight(StripLeft(s));
    if |body| > 0 && (body[0] == '+' || body[0] == '-') then
      match ParseDigits(body[1..])
      case None => None
      case Some(n) => Some(if body[0] == '-' then 0 - n else n)
    else
      match ParseDigits(body)
      case None => None
      case Some(n) => Some(n)
  }

  /** Without a minus sign, `int()` never gives a negative number. */
  lemma ParseIntWithoutMinus(s: string)
    requires ParseInt(s).Some? && NoneOf(s, {'-'})
    ensures ParseInt(s).value >= 0
  {
    var l := StripLeft(s);
    var body := StripRight(l);
    StripLeftIsSuffix(s);
    StripRightIsPrefix(l);
    if |body| > 0 {
      assert body[0] == l[0] == s[|s| - |l|];
    }
  }

  /** A run of digits reads as its value, leading zeros included. */
  lemma ParseIntDigits(s: string)
    requires IsDigits(s)
    ensures ParseInt(s) == Some(DigitsValue(s))
  {
    assert StripLeft(s) == s;
    assert StripRight(s) == s;
  }

  /** `int()` refuses a string that holds no digit at all. */
  lemma ParseIntNeedsDigit(s: string)
    requires forall i :: 0 <= i < |s| ==> !IsDigit(s[i])
    ensures ParseInt(s) == None
  {
    var l := StripLeft(s);
    var body := StripRight(l);
    StripLeftIsSuffix(s);
    StripRightIsPrefix(l);
    assert forall i :: 0 <= i < |body| ==> !IsDigit(body[i]) by {
      forall i | 0 <= i < |body| ensures !IsDigit(body[i]) {
        assert body[i] == l[i];
        assert l[i] == s[|s| - |l| + i];
      }
    }
  }

  function DigitChar(d: nat): (c: char)
    requires d < 10
    ensures IsDigit(c) && c as int - '0' as int == d
  {
    ('0' as int + d) as char
  }

  /** `"{}".format(n)` for a non-negative `n`: shortest decimal form. */
  function NatToString(n: nat): (s: string)
    ensures IsDigits(s) && DigitsValue(s) == n
    ensures s[0] != '0' || s == "0"
  {
    if n < 10 then [DigitChar(n)]
    else
      var front := NatToString(n / 10);
      var s := front + [DigitChar(n % 10)];
      assert s[..|s| - 1] == front;
      s
  }

  /** `"{}".format(n)` for any Python integer: a minus sign, then the digits. */
  function IntToString(n: int): (s: string)
  {
    if n < 0 then "-" + NatToString(-n) else NatToString(n)
  }

  /** `int()` reads back what `"{}".format` writes. */
  lemma IntToStringRoundTrip(n: int)
    ensures ParseInt(IntToString(n)) == Some(n)
  {
    var s := IntToString(n);
    var digits := NatToString(if n < 0 then -n else n);
    assert !IsSpace(s[0]) && !IsSpace(s[|s| - 1]);
    assert StripLeft(s) == s;
    assert StripRight(s) == s;
    if n < 0 {
      assert s[1..] == digits;
    } else {
      assert s == digits && s[0] != '+' && s[0] != '-';
    }
  }

  /** A formatted integer holds only a sign and digits, so no `/` or `:` of the display lines. */
  lemma IntToStringHasNoSeparator(n: int)
    ensures |IntToString(n)| > 0
    ensures NoneOf(IntToString(n), {'/', ':', '.', 'T', '+'})
  {
  }

  /** `ure.sub(target, replacement, s)` for a single literal character: every `target` becomes `replacement`. */
  function Replace(s: string, target: char, replacement: char): (r: string)
    ensures |r| == |s|
    ensures forall i :: 0 <= i < |s| ==> r[i] == if s[i] == target then replacement else s[i]
  {
    if s == [] then [] else [if s[0] == target then replacement else s[0]] + Replace(s[1..], target, replacement)
  }
}
