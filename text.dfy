/** The Python string operations the scheduler relies on: `str.split` on one
    separator character, `int()` on a decimal literal, `str()` of an integer,
    `str.lower()` and the substring test `w in s`. */
module Text {
  import opened Common

  predicate IsDigit(c: char) {
    '0' <= c <= '9'
  }

  predicate AllDigits(s: string) {
    forall i :: 0 <= i < |s| ==> IsDigit(s[i])
  }

  function DigitValue(c: char): (d: nat)
    requires IsDigit(c)
    ensures d < 10
  {
    c as int - '0' as int
  }

  function DigitChar(d: nat): (c: char)
    requires d < 10
    ensures IsDigit(c) && DigitValue(c) == d
  {
    ('0' as int + d) as char
  }

  /** The value of a string of decimal digits, most significant first. */
  function DigitsValue(s: string): nat
    requires AllDigits(s)
  {
    if |s| == 0 then 0 else DigitsValue(s[..|s| - 1]) * 10 + DigitValue(s[|s| - 1])
  }

  /** `str(n)` for `n >= 0`: the decimal digits without leading zeros. */
  function NatToString(n: nat): (s: string)
    ensures |s| > 0 && AllDigits(s)
    ensures |s| > 1 ==> s[0] != '0'
  {
    if n < 10 then [DigitChar(n)] else NatToString(n / 10) + [DigitChar(n % 10)]
  }

  /** `str(n)`: a minus sign for negative numbers, then the digits. */
  function IntToString(n: int): (s: string)
    ensures |s| > 0 && (s[0] == '-' <==> n < 0)
    ensures AllDigits(s[if n < 0 then 1 else 0..])
    ensures |s| > 1 ==> s[if n < 0 then 1 else 0] != '0'
  {
    if n < 0 then
      var digits := NatToString(-n);
      assert ("-" + digits)[1..] == digits;
      "-" + digits
    else NatToString(n)
  }

  /** The length of the sign `int()` accepts in front of the digits. */
  function SignLength(s: string): nat {
    if |s| > 0 && (s[0] == '-' || s[0] == '+') then 1 else 0
  }

  /** `int(s)` restricted to decimal literals: an optional `+` or `-` followed
      by one or more ASCII digits. `None` stands for the `ValueError`. */
  function ParseInt(s: string): (r: Option<int>)
    ensures r.Some? <==> |s| > SignLength(s) && AllDigits(s[SignLength(s)..])
    ensures r.Some? && r.value < 0 ==> s[0] == '-'
    ensures r.Some? && s[0] == '-' ==> r.value <= 0
  {
    if |s| > 0 && (s[0] == '-' || s[0] == '+') then
      if |s| > 1 && AllDigits(s[1..]) then
        var magnitude: int := DigitsValue(s[1..]);
        Some(if s[0] == '-' then -magnitude else magnitude)
      else None
    else if |s| > 0 && AllDigits(s) then Some(DigitsValue(s))
    else None
  }

  lemma {:induction false} NatToStringValue(n: nat)
    ensures DigitsValue(NatToString(n)) == n
  {
    if n >= 10 {
      var s := NatToString(n);
      NatToStringValue(n / 10);
      assert s[..|s| - 1] == NatToString(n / 10);
    }
  }

  /** A leading zero does not change the value of a digit string. */
  lemma {:induction false} DigitsLeadingZero(d: string)
    requires AllDigits(d)
    ensures AllDigits("0" + d) && DigitsValue("0" + d) == DigitsValue(d)
  {
    var s := "0" + d;
    assert forall i :: 0 < i < |s| ==> s[i] == d[i - 1];
    if |d| > 0 {
      var init := d[..|d| - 1];
      assert forall i :: 0 <= i < |init| ==> init[i] == d[i];
      assert s[..|s| - 1] == "0" + init;
      DigitsLeadingZero(init);
    }
  }

  /** `int(d)` of a plain digit string is its decimal value. */
  lemma ParseIntDigits(d: string)
    requires |d| > 0 && AllDigits(d)
    ensures ParseInt(d) == Some(DigitsValue(d))
  {
    assert IsDigit(d[0]);
  }

  /** `int(sign + d)` for a sign `+` or `-` in front of a digit string. */
  lemma ParseIntSigned(sign: char, d: string)
    requires sign == '+' || sign == '-'
    requires |d| > 0 && AllDigits(d)
    ensures ParseInt([sign] + d) == Some(if sign == '-' then -(DigitsValue(d) as int) else DigitsValue(d))
  {
    var s := [sign] + d;
    assert s[1..] == d;
    assert |s| > 1 && (s[0] == '-' || s[0] == '+') && AllDigits(s[1..]);
    var magnitude: int := DigitsValue(s[1..]);
    assert ParseInt(s) == Some(if s[0] == '-' then -magnitude else magnitude);
  }

  /** `int()` reads a literal with extra leading zeros or a sign as Python
      does: `int("0" + d) == int(d)`, `int("+" + d) == int(d)` and
      `int("-" + d) == -int(d)`. With `ParseIntToString` this fixes the value
      of every literal the model accepts. */
  lemma ParseIntNonCanonical(d: string)
    requires |d| > 0 && AllDigits(d)
    ensures ParseInt("0" + d) == ParseInt(d)
    ensures ParseInt("+" + d) == ParseInt(d)
    ensures ParseInt("-" + d) == Some(-ParseInt(d).value)
  {
    DigitsLeadingZero(d);
    ParseIntDigits(d);
    ParseIntDigits("0" + d);
    ParseIntSigned('+', d);
    ParseIntSigned('-', d);
  }

  /** `int(str(n)) == n` for every integer. */
  lemma ParseIntToString(n: int)
    ensures ParseInt(IntToString(n)) == Some(n)
  {
    if n < 0 {
      var digits := NatToString(-n);
      var s := "-" + digits;
      assert s[0] == '-' && s[1..] == digits;
      NatToStringValue(-n);
      assert ParseInt(s) == Some(n);
    } else {
      var s := NatToString(n);
      assert IsDigit(s[0]);
      NatToStringValue(n);
    }
  }

  /** `s.split(sep)` on a one-character separator: the maximal runs between
      separators, so there is always one more field than there are separators. */
  function Split(s: string, sep: char): (fields: seq<string>)
    ensures |fields| >= 1
    ensures forall k :: 0 <= k < |fields| ==> sep !in fields[k]
  {
    if |s| == 0 then [""]
    else
      var rest := Split(s[1..], sep);
      if s[0] == sep then [""] + rest
      else [[s[0]] + rest[0]] + rest[1..]
  }

  /** `sep.join(fields)`, the inverse of `Split`. */
  function Join(fields: seq<string>, sep: char): string
    requires |fields| >= 1
  {
    if |fields| == 1 then fields[0] else fields[0] + [sep] + Join(fields[1..], sep)
  }

  /** How many times `c` occurs in `s`. */
  function Occurrences(s: string, c: char): nat {
    if |s| == 0 then 0 else (if s[0] == c then 1 else 0) + Occurrences(s[1..], c)
  }

  /** Joining the fields of a split gives back the original string. */
  lemma {:induction false} JoinSplit(s: string, sep: char)
    ensures Join(Split(s, sep), sep) == s
  {
    if |s| > 0 {
      var rest := Split(s[1..], sep);
      JoinSplit(s[1..], sep);
      if s[0] != sep && |rest| > 1 {
        assert Split(s, sep)[1..] == rest[1..];
      }
    }
  }

  /** A split has exactly one field more than the string has separators. */
  lemma {:induction false} SplitFieldCount(s: string, sep: char)
    ensures |Split(s, sep)| == Occurrences(s, sep) + 1
  {
    if |s| > 0 {
      SplitFieldCount(s[1..], sep);
    }
  }

  /** Splitting a join of separator-free fields gives back the fields. */
  lemma {:induction false} SplitJoin(fields: seq<string>, sep: char)
    requires |fields| >= 1
    requires forall k :: 0 <= k < |fields| ==> sep !in fields[k]
    ensures Split(Join(fields, sep), sep) == fields
  {
    if |fields| == 1 {
      SplitWithoutSeparator(fields[0], sep);
    } else {
      SplitJoin(fields[1..], sep);
      SplitAfterField(fields[0], Join(fields[1..], sep), sep);
      assert [fields[0]] + fields[1..] == fields;
    }
  }

  lemma {:induction false} SplitWithoutSeparator(f: string, sep: char)
    requires sep !in f
    ensures Split(f, sep) == [f]
  {
    if |f| > 0 {
      assert sep !in f[1..] by {
        forall k | 0 <= k < |f| - 1 ensures f[1..][k] != sep {
          assert f[1..][k] == f[k + 1];
        }
      }
      SplitWithoutSeparator(f[1..], sep);
      assert [f[0]] + f[1..] == f;
    }
  }

  lemma {:induction false} SplitAfterField(f: string, t: string, sep: char)
    requires sep !in f
    ensures Split(f + [sep] + t, sep) == [f] + Split(t, sep)
  {
    var s := f + [sep] + t;
    if |f| == 0 {
      assert s[1..] == t;
    } else {
      assert sep !in f[1..] by {
        forall k | 0 <= k < |f| - 1 ensures f[1..][k] != sep {
          assert f[1..][k] == f[k + 1];
        }
      }
      assert s[1..] == f[1..] + [sep] + t;
      SplitAfterField(f[1..], t, sep);
      assert [f[0]] + f[1..] == f;
    }
  }

  /** `c.lower()` for one character, on the ASCII letters. */
  function LowerChar(c: char): char {
    if 'A' <= c <= 'Z' then (c as int - 'A' as int + 'a' as int) as char else c
  }

  /** `s.lower()`, lowering ASCII letters and leaving every other character. */
  function Lower(s: string): (r: string)
    ensures |r| == |s|
    ensures forall i :: 0 <= i < |s| ==> r[i] == LowerChar(s[i])
  {
    seq(|s|, i requires 0 <= i < |s| => LowerChar(s[i]))
  }

  /** Lowering is idempotent, and its result holds no upper-case ASCII letter. */
  lemma LowerIdempotent(s: string)
    ensures Lower(Lower(s)) == Lower(s)
    ensures forall i :: 0 <= i < |s| ==> !('A' <= Lower(s)[i] <= 'Z')
  {
  }

  /** Concatenation is associative. */
  lemma AppendAssoc(a: string, b: string, c: string)
    ensures a + b + c == a + (b + c)
  {
  }

  /** `w` occurs in `s` starting at index `i`. */
  predicate OccursAt(s: string, w: string, i: int) {
    0 <= i && i + |w| <= |s| && s[i..i + |w|] == w
  }

  /** The substring test `w in s`. */
  predicate Contains(s: string, w: string) {
    exists i :: 0 <= i <= |s| - |w| && OccursAt(s, w, i)
  }

  /** A string contains every piece it is built from. */
  lemma ContainsPiece(x: string, w: string, y: string)
    ensures Contains(x + w + y, w)
  {
    var s := x + w + y;
    assert s[|x|..|x| + |w|] == w;
    assert OccursAt(s, w, |x|);
  }

  /** A text built by alternating fixed parts `p0..p4` with fields `f1..f5`
      contains each field. */
  lemma ContainsFields(p0: string, f1: string, p1: string, f2: string, p2: string,
                       f3: string, p3: string, f4: string, p4: string, f5: string)
    ensures var s := p0 + f1 + p1 + f2 + p2 + f3 + p3 + f4 + p4 + f5;
      Contains(s, f1) && Contains(s, f2) && Contains(s, f3) && Contains(s, f4) && Contains(s, f5)
  {
    var s := p0 + f1 + p1 + f2 + p2 + f3 + p3 + f4 + p4 + f5;
    var t1 := p1 + f2 + p2 + f3 + p3 + f4 + p4 + f5;
    var t2 := p2 + f3 + p3 + f4 + p4 + f5;
    var t3 := p3 + f4 + p4 + f5;
    var t4 := p4 + f5;
    assert s == p0 + f1 + t1;
    ContainsPiece(p0, f1, t1);
    assert s == p0 + f1 + p1 + f2 + t2;
    ContainsPiece(p0 + f1 + p1, f2, t2);
    assert s == p0 + f1 + p1 + f2 + p2 + f3 + t3;
    ContainsPiece(p0 + f1 + p1 + f2 + p2, f3, t3);
    assert s == p0 + f1 + p1 + f2 + p2 + f3 + p3 + f4 + t4;
    ContainsPiece(p0 + f1 + p1 + f2 + p2 + f3 + p3, f4, t4);
    ContainsPiece(p0 + f1 + p1 + f2 + p2 + f3 + p3 + f4 + p4, f5, "");
    assert s + "" == s;
  }
}
