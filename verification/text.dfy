/**
 * The few string operations of Python's `str` and `int` that the importer
 * relies on: `strip()`, `split('-')[0]`, and `int()` on a decimal literal.
 */
module Text {
  import opened Wrappers

  /** Whether `c` lies in one of the inclusive code-point ranges. */
  predicate InRanges(c: char, ranges: seq<(char, char)>)
  {
    |ranges| > 0 && ((ranges[0].0 <= c <= ranges[0].1) || InRanges(c, ranges[1..]))
  }

  /** The code points for which Python's `str.isspace()` holds, as ranges;
      `strip()` with no argument removes exactly these. U+3000 (ideographic
      space) matters for spreadsheets written in Chinese. */
  const SpaceRanges: seq<(char, char)> := [
    (' ', ' '), ('\t', '\r'), ('\U{1C}', '\U{1F}'), ('\U{85}', '\U{85}'), ('\U{A0}', '\U{A0}'),
    ('\U{1680}', '\U{1680}'), ('\U{2000}', '\U{200A}'), ('\U{2028}', '\U{2029}'),
    ('\U{202F}', '\U{202F}'), ('\U{205F}', '\U{205F}'), ('\U{3000}', '\U{3000}')]

  predicate IsSpace(c: char)
  {
    InRanges(c, SpaceRanges)
  }

  ghost predicate AllSpace(s: string)
  {
    forall i :: 0 <= i < |s| ==> IsSpace(s[i])
  }

  /** `s.lstrip()`. */
  function TrimStart(s: string): string
  {
    if |s| > 0 && IsSpace(s[0]) then TrimStart(s[1..]) else s
  }

  /** `s.rstrip()`. */
  function TrimEnd(s: string): string
  {
    if |s| > 0 && IsSpace(s[|s| - 1]) then TrimEnd(s[..|s| - 1]) else s
  }

  /** `s.strip()`. Its meaning is stated by StripSpec; the function carries
      no contract so that reasoning about rows does not drag the slices of
      every cell along. */
  function Strip(s: string): string
  {
    TrimEnd(TrimStart(s))
  }

  /** What `lstrip()` leaves: a suffix of `s` that does not start with
      whitespace, everything before it being whitespace. */
  lemma {:induction false} TrimStartSpec(s: string)
    ensures var r := TrimStart(s);
      && |r| <= |s| && r == s[|s| - |r|..]
      && AllSpace(s[..|s| - |r|])
      && (r == [] || !IsSpace(r[0]))
    decreases |s|
  {
    if |s| > 0 && IsSpace(s[0]) {
      TrimStartSpec(s[1..]);
      var r := TrimStart(s[1..]);
      assert s[..|s| - |r|] == [s[0]] + s[1..][..|s| - 1 - |r|];
    }
  }

  /** What `rstrip()` leaves: a prefix of `s` that does not end with
      whitespace, everything after it being whitespace. */
  lemma {:induction false} TrimEndSpec(s: string)
    ensures var r := TrimEnd(s);
      && |r| <= |s| && r == s[..|r|]
      && AllSpace(s[|r|..])
      && (r == [] || !IsSpace(r[|r| - 1]))
    decreases |s|
  {
    if |s| > 0 && IsSpace(s[|s| - 1]) {
      TrimEndSpec(s[..|s| - 1]);
      var r := TrimEnd(s[..|s| - 1]);
      assert s[|r|..] == s[..|s| - 1][|r|..] + [s[|s| - 1]];
    }
  }

  /** What `strip()` leaves: the contiguous part of `s` that remains once
      all leading and trailing whitespace is gone; it neither starts nor
      ends with whitespace. */
  lemma StripSpec(s: string)
    ensures exists i :: 0 <= i <= |s| - |Strip(s)| && Strip(s) == s[i..i + |Strip(s)|]
                        && AllSpace(s[..i]) && AllSpace(s[i + |Strip(s)|..])
    ensures Strip(s) == [] || (!IsSpace(Strip(s)[0]) && !IsSpace(Strip(s)[|Strip(s)| - 1]))
  {
    var t := TrimStart(s);
    TrimStartSpec(s);
    TrimEndSpec(t);
    var r := TrimEnd(t);
    var i := |s| - |t|;
    assert r == s[i..i + |r|];
    assert s[i + |r|..] == t[|r|..];
  }

  /** `s.split('-')[0]`: the text before the first hyphen, or all of `s`
      when it has none. Nothing is trimmed. */
  function BeforeHyphen(s: string): (r: string)
    ensures |r| <= |s| && r == s[..|r|]
    ensures '-' !in r
    ensures |r| < |s| ==> s[|r|] == '-'
  {
    if |s| == 0 || s[0] == '-' then "" else [s[0]] + BeforeHyphen(s[1..])
  }

  predicate IsDigit(c: char)
  {
    '0' <= c <= '9'
  }

  /** One or more ASCII decimal digits. */
  predicate IsDigits(s: string)
  {
    |s| > 0 && forall i :: 0 <= i < |s| ==> IsDigit(s[i])
  }

  /** An optional `+` or `-` sign followed by decimal digits. */
  predicate IsIntLiteral(s: string)
  {
    IsDigits(s) || (|s| > 0 && (s[0] == '+' || s[0] == '-') && IsDigits(s[1..]))
  }

  function DigitValue(c: char): nat
    requires IsDigit(c)
  {
    (c as int) - ('0' as int)
  }

  /** The value of a run of decimal digits, most significant first. */
  function DigitsValue(s: string): nat
    requires forall i :: 0 <= i < |s| ==> IsDigit(s[i])
  {
    if |s| == 0 then 0 else DigitsValue(s[..|s| - 1]) * 10 + DigitValue(s[|s| - 1])
  }

  /** Python's `int(s)` on an already stripped string: the value of a signed
      decimal literal, or None where Python raises ValueError. */
  function ParseInt(s: string): Option<int>
  {
    if IsDigits(s) then Some(DigitsValue(s))
    else if |s| > 0 && s[0] == '+' && IsDigits(s[1..]) then Some(DigitsValue(s[1..]))
    else if |s| > 0 && s[0] == '-' && IsDigits(s[1..]) then Some(0 - DigitsValue(s[1..]) as int)
    else None
  }

  /** The shortest decimal spelling of `n`. */
  function ShowNat(n: nat): string
  {
    var d := [(('0' as int) + n % 10) as char];
    if n < 10 then d else ShowNat(n / 10) + d
  }

  /** The decimal spelling of `n` is a run of digits whose value is `n`. */
  lemma {:induction false} ShowNatSpec(n: nat)
    ensures IsDigits(ShowNat(n)) && DigitsValue(ShowNat(n)) == n
  {
    if n >= 10 {
      ShowNatSpec(n / 10);
      var r := ShowNat(n);
      assert r[..|r| - 1] == ShowNat(n / 10);
    }
  }

  /** `str(i)` for an integer. */
  function ShowInt(i: int): string
  {
    if i < 0 then "-" + ShowNat(-i) else ShowNat(i)
  }

  /** Parsing undoes printing: every integer survives `int(str(i))`. */
  lemma ParseShowInt(i: int)
    ensures ParseInt(ShowInt(i)) == Some(i)
  {
    ShowNatSpec(if i < 0 then -i else i);
    if i < 0 {
      var s := ShowInt(i);
      assert s[1..] == ShowNat(-i);
      assert !IsDigit(s[0]);
    }
  }

  /** A run of digits without its leading zeros, keeping at least one. */
  function DropLeadingZeros(d: string): string
  {
    if |d| > 1 && d[0] == '0' then DropLeadingZeros(d[1..]) else d
  }

  /** The normal spelling of a signed decimal literal: no `+` sign, no
      leading zeros, and no sign on zero. */
  function Canonical(s: string): string
    requires IsIntLiteral(s)
  {
    var m := DropLeadingZeros(if IsDigits(s) then s else s[1..]);
    if s[0] == '-' && m != "0" then "-" + m else m
  }

  /** `int()` accepts exactly the signed decimal literals, the sign of the
      literal is the sign of the value, and printing the value back gives
      the literal's normal spelling: `str(int(s))` drops a `+`, leading
      zeros and the sign of `-0`. */
  lemma {:induction false} ParseIntSpec(s: string)
    ensures ParseInt(s).Some? <==> IsIntLiteral(s)
    ensures ParseInt(s).Some? && |s| > 0 && s[0] == '-' ==> ParseInt(s).value <= 0
    ensures ParseInt(s).Some? && |s| > 0 && s[0] != '-' ==> ParseInt(s).value >= 0
    ensures IsIntLiteral(s) ==> ShowInt(ParseInt(s).value) == Canonical(s)
  {
    if IsIntLiteral(s) {
      ShowCanonical(s);
    }
  }

  lemma {:induction false} ShowCanonical(s: string)
    requires IsIntLiteral(s)
    ensures ShowInt(ParseInt(s).value) == Canonical(s)
  {
    var d := if IsDigits(s) then s else s[1..];
    var m := DropLeadingZeros(d);
    DropLeadingZerosSpec(d);
    ShowNatOfNormal(m);
    var v: int := DigitsValue(d);
    if IsDigits(s) || s[0] == '+' {
      assert ParseInt(s) == Some(v);
    } else {
      assert ParseInt(s) == Some(0 - v);
      if m != "0" {
        LeadingDigitBound(m);
        assert v > 0;
      } else {
        assert v == 0;
      }
    }
  }

  /** Dropping leading zeros keeps a run of digits and its value, and
      leaves no leading zero unless the run is a single digit. */
  lemma {:induction false} DropLeadingZerosSpec(d: string)
    requires IsDigits(d)
    ensures IsDigits(DropLeadingZeros(d))
    ensures DigitsValue(DropLeadingZeros(d)) == DigitsValue(d)
    ensures |DropLeadingZeros(d)| == 1 || DropLeadingZeros(d)[0] != '0'
    decreases |d|
  {
    if |d| > 1 && d[0] == '0' {
      DropLeadingZerosSpec(d[1..]);
      assert d == ['0'] + d[1..];
      LeadingZeroValue(d[1..]);
    }
  }

  /** A leading zero adds nothing to the value. */
  lemma {:induction false} LeadingZeroValue(d: string)
    requires forall i :: 0 <= i < |d| ==> IsDigit(d[i])
    ensures DigitsValue(['0'] + d) == DigitsValue(d)
    decreases |d|
  {
    if |d| > 0 {
      var z := ['0'] + d;
      assert z[..|z| - 1] == ['0'] + d[..|d| - 1];
      LeadingZeroValue(d[..|d| - 1]);
    }
  }

  /** The value of a run of digits is at least its leading digit. */
  lemma {:induction false} LeadingDigitBound(d: string)
    requires IsDigits(d)
    ensures DigitsValue(d) >= DigitValue(d[0])
    decreases |d|
  {
    if |d| > 1 {
      var p := d[..|d| - 1];
      assert p[0] == d[0];
      LeadingDigitBound(p);
    }
  }

  /** A run of digits without a leading zero (or a single digit) is the
      decimal spelling of its value. */
  lemma {:induction false} ShowNatOfNormal(d: string)
    requires IsDigits(d) && (|d| == 1 || d[0] != '0')
    ensures ShowNat(DigitsValue(d)) == d
    decreases |d|
  {
    if |d| > 1 {
      var p := d[..|d| - 1];
      assert p[0] == d[0];
      LeadingDigitBound(p);
      ShowNatOfNormal(p);
      var n := DigitsValue(d);
      assert n / 10 == DigitsValue(p) && n % 10 == DigitValue(d[|d| - 1]);
      assert d == p + [d[|d| - 1]];
    }
  }

  /** Stripping twice removes nothing more than stripping once. */
  lemma StripIdempotent(s: string)
    ensures Strip(Strip(s)) == Strip(s)
  {
    var r := Strip(s);
    StripSpec(s);
    assert TrimStart(r) == r;
    assert TrimEnd(r) == r;
  }

  /** A cell strips to the empty string exactly when it is all whitespace. */
  lemma StripEmptyIff(s: string)
    ensures Strip(s) == "" <==> AllSpace(s)
  {
    var r := Strip(s);
    StripSpec(s);
    var i :| 0 <= i <= |s| - |r| && r == s[i..i + |r|] && AllSpace(s[..i]) && AllSpace(s[i + |r|..]);
    if r != "" {
      assert s[i] == r[0];
    } else {
      forall j | 0 <= j < |s| ensures IsSpace(s[j]) {
        if j < i { assert s[..i][j] == s[j]; } else { assert s[i..][j - i] == s[j]; }
      }
    }
  }
}
