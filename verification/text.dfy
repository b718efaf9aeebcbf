/**
 The small part of Python's string handling the add-on relies on:
 `str.split(",")`, the `in` substring test, `str.strip()`, and the
 numeric conversions `float(s)` and `int(s)` applied to user-typed fields.

 The numeric grammar covers what a command-line user types: surrounding
 white space, an optional sign, decimal digits with an optional point, and
 an optional exponent. Python also accepts `inf`, `nan`, `infinity` and
 digit-group underscores; those spellings are treated here as not numeric.
 */
module Text {
  import opened Wrappers

  // ---------------------------------------------------------------- split

  /** Number of occurrences of `c` in `s`. */
  function Count(s: string, c: char): nat
  {
    if |s| == 0 then 0 else (if s[0] == c then 1 else 0) + Count(s[1..], c)
  }

  /** Python's `s.split(sep)` for a one-character separator. */
  function Split(s: string, sep: char): (r: seq<string>)
    ensures |r| == Count(s, sep) + 1
    ensures forall i :: 0 <= i < |r| ==> sep !in r[i]
    decreases |s|
  {
    if |s| == 0 then [""]
    else if s[0] == sep then [""] + Split(s[1..], sep)
    else
      var rest := Split(s[1..], sep);
      [[s[0]] + rest[0]] + rest[1..]
  }

  /** Python's `sep.join(fields)`, the inverse of `Split`. */
  function Join(fields: seq<string>, sep: char): string
    requires |fields| >= 1
  {
    if |fields| == 1 then fields[0] else fields[0] + [sep] + Join(fields[1..], sep)
  }

  lemma {:induction false} JoinSplit(s: string, sep: char)
    ensures Join(Split(s, sep), sep) == s
    decreases |s|
  {
    if |s| == 0 {
    } else if s[0] == sep {
      JoinSplit(s[1..], sep);
      var rest := Split(s[1..], sep);
      assert Split(s, sep) == [""] + rest;
      assert Join([""] + rest, sep) == "" + [sep] + Join(rest, sep);
      assert s == [s[0]] + s[1..];
    } else {
      JoinSplit(s[1..], sep);
      var rest := Split(s[1..], sep);
      var r := [[s[0]] + rest[0]] + rest[1..];
      assert Split(s, sep) == r;
      if |rest| == 1 {
        assert Join(r, sep) == [s[0]] + rest[0];
      } else {
        assert r[1..] == rest[1..];
        assert Join(r, sep) == [s[0]] + rest[0] + [sep] + Join(rest[1..], sep);
        assert Join(rest, sep) == rest[0] + [sep] + Join(rest[1..], sep);
      }
      assert s == [s[0]] + s[1..];
    }
  }

  lemma {:induction false} SplitJoin(fields: seq<string>, sep: char)
    requires |fields| >= 1
    requires forall i :: 0 <= i < |fields| ==> sep !in fields[i]
    ensures Split(Join(fields, sep), sep) == fields
    decreases |fields|, |fields[0]|
  {
    if |fields[0]| == 0 {
      if |fields| == 1 {
      } else {
        var j := Join(fields[1..], sep);
        assert Join(fields, sep) == [sep] + j;
        assert ([sep] + j)[1..] == j;
        SplitJoin(fields[1..], sep);
        assert fields == [""] + fields[1..];
      }
    } else {
      var c := fields[0][0];
      assert c != sep by { assert c in fields[0]; }
      var tail := [fields[0][1..]] + fields[1..];
      assert forall i :: 0 <= i < |tail| ==> sep !in tail[i] by {
        forall i | 0 <= i < |tail|
          ensures sep !in tail[i]
        {
          if i == 0 {
            assert forall k :: 0 <= k < |fields[0][1..]| ==> fields[0][1..][k] == fields[0][k + 1];
          } else {
            assert tail[i] == fields[i];
          }
        }
      }
      SplitJoin(tail, sep);
      JoinCons(fields, sep);
      var s := Join(fields, sep);
      assert s == [c] + Join(tail, sep);
      assert s[0] == c;
      assert s[1..] == Join(tail, sep);
      var rest := Split(s[1..], sep);
      assert rest == tail;
      assert [c] + rest[0] == fields[0];
      assert rest[1..] == fields[1..];
      assert Split(s, sep) == [[c] + rest[0]] + rest[1..];
      assert fields == [fields[0]] + fields[1..];
    }
  }

  /** Moving the first character of the first field out of `Join`. */
  lemma JoinCons(fields: seq<string>, sep: char)
    requires |fields| >= 1 && |fields[0]| >= 1
    ensures Join(fields, sep) == [fields[0][0]] + Join([fields[0][1..]] + fields[1..], sep)
  {
    var tail := [fields[0][1..]] + fields[1..];
    assert fields[0] == [fields[0][0]] + fields[0][1..];
    if |fields| == 1 {
    } else {
      assert tail[1..] == fields[1..];
    }
  }

  // ------------------------------------------------------------ substring

  /** `sub` occurs in `s` starting at index `i`. */
  predicate OccursAt(sub: string, s: string, i: int)
  {
    0 <= i && i + |sub| <= |s| && s[i..i + |sub|] == sub
  }

  /** Python's `sub in s`. */
  function Contains(s: string, sub: string): (b: bool)
    ensures b <==> exists i :: OccursAt(sub, s, i)
    decreases |s|
  {
    if |sub| <= |s| && s[..|sub|] == sub then
      assert OccursAt(sub, s, 0);
      true
    else if |s| == 0 then
      assert forall i :: !OccursAt(sub, s, i);
      false
    else
      var r := Contains(s[1..], sub);
      ContainsShift(s, sub);
      r
  }

  /** An occurrence past index 0 is an occurrence in the tail, and back. */
  lemma ContainsShift(s: string, sub: string)
    requires |s| > 0
    requires !(|sub| <= |s| && s[..|sub|] == sub)
    ensures (exists i :: OccursAt(sub, s, i)) <==> (exists i :: OccursAt(sub, s[1..], i))
  {
    if exists i :: OccursAt(sub, s, i) {
      var i :| OccursAt(sub, s, i);
      assert i != 0;
      assert s[1..][i - 1..i - 1 + |sub|] == s[i..i + |sub|];
      assert OccursAt(sub, s[1..], i - 1);
    }
    if exists i :: OccursAt(sub, s[1..], i) {
      var i :| OccursAt(sub, s[1..], i);
      assert s[1..][i..i + |sub|] == s[i + 1..i + 1 + |sub|];
      assert OccursAt(sub, s, i + 1);
    }
  }

  /** The empty string occurs in every string, so `"" in s` is always true. */
  lemma EmptyOccursEverywhere(s: string)
    ensures Contains(s, "")
  {
    assert OccursAt("", s, 0);
  }

  // --------------------------------------------------------- white space

  predicate IsSpace(c: char)
  {
    c == ' ' || c == '\t' || c == '\n' || c == '\r' || c == 11 as char || c == 12 as char
  }

  /** Length of the run of white space at the start of `s`. */
  function LeadingSpace(s: string): (k: nat)
    ensures k <= |s|
    ensures forall i :: 0 <= i < k ==> IsSpace(s[i])
    ensures k < |s| ==> !IsSpace(s[k])
  {
    if |s| > 0 && IsSpace(s[0]) then 1 + LeadingSpace(s[1..]) else 0
  }

  /** Length of the run of white space at the end of `s`. */
  function TrailingSpace(s: string): (k: nat)
    ensures k <= |s|
    ensures forall i :: |s| - k <= i < |s| ==> IsSpace(s[i])
    ensures k < |s| ==> !IsSpace(s[|s| - k - 1])
  {
    if |s| > 0 && IsSpace(s[|s| - 1]) then 1 + TrailingSpace(s[..|s| - 1]) else 0
  }

  /** Python's `s.strip()`: the white space at both ends removed. */
  function Strip(s: string): (t: string)
    ensures |t| <= |s|
    ensures |t| == 0 || (!IsSpace(t[0]) && !IsSpace(t[|t| - 1]))
  {
    var u := s[LeadingSpace(s)..];
    u[..|u| - TrailingSpace(u)]
  }

  // ------------------------------------------------------------- numbers

  predicate IsDigit(c: char)
  {
    '0' <= c <= '9'
  }

  predicate AllDigits(s: string)
  {
    forall i :: 0 <= i < |s| ==> IsDigit(s[i])
  }

  /** The value of a string of decimal digits, most significant first. */
  function DigitsValue(s: string): nat
    requires AllDigits(s)
  {
    if |s| == 0 then 0 else 10 * DigitsValue(s[..|s| - 1]) + (s[|s| - 1] - '0') as nat
  }

  function Pow10(n: nat): (r: nat)
    ensures r >= 1
  {
    if n == 0 then 1 else 10 * Pow10(n - 1)
  }

  /** An optional leading `+` or `-`: the sign factor and the rest. */
  function SignOf(s: string): (int, string)
  {
    if |s| > 0 && s[0] == '-' then (-1, s[1..])
    else if |s| > 0 && s[0] == '+' then (1, s[1..])
    else (1, s)
  }

  /** Python's `int(s)` for base-10 literals; `None` where Python raises `ValueError`. */
  function ParseInt(s: string): (r: Option<int>)
  {
    var (sign, body) := SignOf(Strip(s));
    if |body| > 0 && AllDigits(body) then Some(sign * DigitsValue(body)) else None
  }

  /** Index of the first `e` or `E` in `s`, or `|s|` when there is none. */
  function ExponentMark(s: string): (k: nat)
    ensures k <= |s|
    ensures forall i :: 0 <= i < k ==> s[i] != 'e' && s[i] != 'E'
    ensures k < |s| ==> s[k] == 'e' || s[k] == 'E'
  {
    if |s| == 0 then 0
    else if s[0] == 'e' || s[0] == 'E' then 0
    else 1 + ExponentMark(s[1..])
  }

  /** Index of the first `.` in `s`, or `|s|` when there is none. */
  function PointMark(s: string): (k: nat)
    ensures k <= |s|
    ensures forall i :: 0 <= i < k ==> s[i] != '.'
    ensures k < |s| ==> s[k] == '.'
  {
    if |s| == 0 then 0
    else if s[0] == '.' then 0
    else 1 + PointMark(s[1..])
  }

  /** `n` divided by ten `k` times: the value of `k` digits written after a decimal point. */
  function Decimals(n: nat, k: nat): real
  {
    if k == 0 then n as real else Decimals(n, k - 1) / 10.0
  }

  /** A decimal mantissa `ddd`, `ddd.`, `.ddd` or `ddd.ddd` and its exact value. */
  function ParseMantissa(m: string): Option<real>
  {
    var p := PointMark(m);
    var whole := m[..p];
    var frac := if p < |m| then m[p + 1..] else "";
    if AllDigits(whole) && AllDigits(frac) && |whole| + |frac| > 0 then
      Some(DigitsValue(whole) as real + Decimals(DigitsValue(frac), |frac|))
    else None
  }

  /** `10` raised to an integer power, as an exact real. */
  function Scale10(e: int): (r: real)
    ensures r > 0.0
  {
    if e >= 0 then Pow10(e) as real else 1.0 / Pow10(-e) as real
  }

  /** Python's `float(s)` for decimal literals; `None` where Python raises `ValueError`. */
  function ParseFloat(s: string): (r: Option<real>)
  {
    var (sign, body) := SignOf(Strip(s));
    var k := ExponentMark(body);
    var mant := ParseMantissa(body[..k]);
    if mant.None? then None
    else if k == |body| then Some(sign as real * mant.value)
    else
      var ex := ParseInt(body[k + 1..]);
      var expText := body[k + 1..];
      if ex.Some? && (forall i :: 0 <= i < |expText| ==> !IsSpace(expText[i])) then
        Some(sign as real * mant.value * Scale10(ex.value))
      else None
  }

  /** Every string `int()` accepts, `float()` accepts too, with the same value. */
  lemma IntLiteralIsFloatLiteral(s: string)
    requires ParseInt(s).Some?
    ensures ParseFloat(s) == Some(ParseInt(s).value as real)
  {
    var body := SignOf(Strip(s)).1;
    var sign := SignOf(Strip(s)).0;
    assert |body| > 0 && AllDigits(body);
    NoMarkInDigits(body);
    assert body[..ExponentMark(body)] == body;
    MantissaOfDigits(body);
    var n := DigitsValue(body);
    assert ParseFloat(s) == Some(sign as real * n as real);
    assert ParseInt(s).value == sign * n;
    assert sign == 1 || sign == -1;
    if sign == 1 {
      assert sign as real * n as real == (sign * n) as real;
    } else {
      assert sign as real * n as real == (sign * n) as real;
    }
  }

  lemma MantissaOfDigits(body: string)
    requires |body| > 0 && AllDigits(body)
    ensures ParseMantissa(body) == Some(DigitsValue(body) as real)
  {
    NoMarkInDigits(body);
    var p := PointMark(body);
    assert body[..p] == body;
    assert p == |body|;
    assert DigitsValue("") == 0;
    assert Decimals(0, 0) == 0.0;
  }

  /** A string of digits has neither a point nor an exponent mark. */
  lemma NoMarkInDigits(body: string)
    requires AllDigits(body)
    ensures ExponentMark(body) == |body|
    ensures PointMark(body) == |body|
  {
  }

  /** The decimal spelling of a natural number, as Python's `str(n)`. */
  function NatToString(n: nat): (s: string)
    ensures |s| > 0 && AllDigits(s)
    ensures DigitsValue(s) == n
  {
    if n < 10 then [('0' as int + n) as char]
    else
      var s := NatToString(n / 10) + [('0' as int + n % 10) as char];
      assert s[..|s| - 1] == NatToString(n / 10);
      s
  }

  /** `int(str(n)) == n`: printing then parsing a natural number is the identity. */
  lemma ParseIntOfNatToString(n: nat)
    ensures ParseInt(NatToString(n)) == Some(n)
  {
    var s := NatToString(n);
    assert !IsSpace(s[0]) && !IsSpace(s[|s| - 1]);
    StripOfUnpadded(s);
  }

  lemma StripOfUnpadded(s: string)
    requires |s| > 0 && !IsSpace(s[0]) && !IsSpace(s[|s| - 1])
    ensures Strip(s) == s
  {
    assert LeadingSpace(s) == 0;
    assert s[0..] == s;
    assert TrailingSpace(s) == 0;
  }
}
