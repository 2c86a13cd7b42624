/** The little string handling the views and webhooks rely on: Python's
    `str.split(",")`, `str.strip()`, `str.isdigit()` and `int()` on a digit
    string, and the coercion of a text id into an integer primary key. Only
    ASCII digits are modelled. */
module Text {
  import opened Domain

  predicate IsDigit(c: char) {
    '0' <= c <= '9'
  }

  /** `s.isdigit()`: non-empty and digits only. */
  predicate IsDigits(s: string) {
    |s| > 0 && forall i | 0 <= i < |s| :: IsDigit(s[i])
  }

  function DigitValue(c: char): nat
    requires IsDigit(c)
  {
    (c - '0') as nat
  }

  function DigitChar(d: nat): (c: char)
    requires d < 10
    ensures IsDigit(c) && DigitValue(c) == d
  {
    ('0' as int + d) as char
  }

  /** The decimal value of a digit string, read from the right: `int(s)`. */
  function DecimalValue(s: string): nat
    requires forall i | 0 <= i < |s| :: IsDigit(s[i])
  {
    if |s| == 0 then 0 else 10 * DecimalValue(s[..|s| - 1]) + DigitValue(s[|s| - 1])
  }

  /** `str(n)`: the canonical decimal text of a natural number. */
  function DecimalText(n: nat): (s: string)
    ensures IsDigits(s)
  {
    if n < 10 then [DigitChar(n)] else DecimalText(n / 10) + [DigitChar(n % 10)]
  }

  lemma {:induction false} DecimalRoundTrip(n: nat)
    ensures DecimalValue(DecimalText(n)) == n
  {
    if n >= 10 {
      var s := DecimalText(n);
      assert s[..|s| - 1] == DecimalText(n / 10);
      DecimalRoundTrip(n / 10);
    }
  }

  /** Coercion of a text primary key in a lookup by id: a digit string names that id;
      the model treats any other text as naming no row. */
  function ParseId(s: string): (r: Option<nat>)
    ensures r.Some? <==> IsDigits(s)
    ensures r.Some? ==> r.value == DecimalValue(s)
  {
    if IsDigits(s) then Some(DecimalValue(s)) else None
  }

  lemma ParseIdOfText(n: nat)
    ensures ParseId(DecimalText(n)) == Some(n)
  {
    DecimalRoundTrip(n);
  }

  lemma {:induction false} ZerosValue(z: string)
    requires forall i | 0 <= i < |z| :: z[i] == '0'
    ensures DecimalValue(z) == 0
  {
    if |z| > 0 {
      ZerosValue(z[..|z| - 1]);
    }
  }

  lemma {:induction false} LeadingZerosValue(z: string, s: string)
    requires forall i | 0 <= i < |z| :: z[i] == '0'
    requires forall i | 0 <= i < |s| :: IsDigit(s[i])
    ensures forall i | 0 <= i < |z + s| :: IsDigit((z + s)[i])
    ensures DecimalValue(z + s) == DecimalValue(s)
    decreases |s|
  {
    assert forall i | 0 <= i < |z + s| :: IsDigit((z + s)[i]) by {
      forall i | 0 <= i < |z + s|
        ensures IsDigit((z + s)[i])
      {
        if i >= |z| {
          assert (z + s)[i] == s[i - |z|];
        }
      }
    }
    if |s| == 0 {
      assert z + s == z;
      ZerosValue(z);
    } else {
      var t := z + s;
      assert t[..|t| - 1] == z + s[..|s| - 1];
      LeadingZerosValue(z, s[..|s| - 1]);
    }
  }

  /** Leading zeros do not change the id a text names: "007" names row 7. */
  lemma ParseIdIgnoresLeadingZeros(zeros: string, n: nat)
    requires forall i | 0 <= i < |zeros| :: zeros[i] == '0'
    ensures ParseId(zeros + DecimalText(n)) == Some(n)
  {
    LeadingZerosValue(zeros, DecimalText(n));
    DecimalRoundTrip(n);
  }

  /** `int(s)` on a query-string value: an optional sign followed by digits. Anything else
      raises `ValueError`, rendered here as `None`. */
  function ParseInt(s: string): (r: Option<int>)
    ensures IsDigits(s) ==> r == Some(DecimalValue(s) as int)
    ensures |s| > 1 && s[0] == '-' && IsDigits(s[1..]) ==> r == Some(-(DecimalValue(s[1..]) as int))
    ensures |s| > 1 && s[0] == '+' && IsDigits(s[1..]) ==> r == Some(DecimalValue(s[1..]) as int)
    ensures r.Some? <==> IsDigits(s) || (|s| > 1 && (s[0] == '-' || s[0] == '+') && IsDigits(s[1..]))
  {
    if IsDigits(s) then Some(DecimalValue(s) as int)
    else if |s| > 1 && s[0] == '-' && IsDigits(s[1..]) then Some(-(DecimalValue(s[1..]) as int))
    else if |s| > 1 && s[0] == '+' && IsDigits(s[1..]) then Some(DecimalValue(s[1..]) as int)
    else None
  }

  /** `str(n)` for any integer. */
  function IntText(n: int): (s: string)
    ensures |s| > 0
  {
    if n < 0 then "-" + DecimalText(-n) else DecimalText(n)
  }

  lemma ParseIntOfText(n: int)
    ensures ParseInt(IntText(n)) == Some(n)
  {
    if n < 0 {
      assert IntText(n)[1..] == DecimalText(-n);
      DecimalRoundTrip(-n);
    } else {
      DecimalRoundTrip(n);
    }
  }

  /** The characters Python's `str.isspace()` accepts, which `str.strip()` removes. */
  predicate IsSpace(c: char) {
    || '\t' <= c <= '\r'
    || '\U{1C}' <= c <= ' '
    || c == '\U{85}' || c == '\U{A0}' || c == '\U{1680}'
    || '\U{2000}' <= c <= '\U{200A}'
    || c == '\U{2028}' || c == '\U{2029}' || c == '\U{202F}' || c == '\U{205F}' || c == '\U{3000}'
  }

  /** `s.lstrip()`: the suffix left after the leading whitespace. */
  function StripLeading(s: string): (r: string)
    ensures |r| <= |s| && r == s[|s| - |r|..]
    ensures forall i | 0 <= i < |s| - |r| :: IsSpace(s[i])
    ensures r == [] || !IsSpace(r[0])
  {
    if |s| > 0 && IsSpace(s[0]) then StripLeading(s[1..]) else s
  }

  /** `s.rstrip()`: the prefix left before the trailing whitespace. */
  function StripTrailing(s: string): (r: string)
    ensures |r| <= |s| && r == s[..|r|]
    ensures forall i | |r| <= i < |s| :: IsSpace(s[i])
    ensures r == [] || !IsSpace(r[|r| - 1])
  {
    if |s| > 0 && IsSpace(s[|s| - 1]) then StripTrailing(s[..|s| - 1]) else s
  }

  /** `s.strip()`: neither end of the result is whitespace, and the result is empty exactly
      when `s` is all whitespace. */
  function Strip(s: string): (r: string)
    ensures r == [] || (!IsSpace(r[0]) && !IsSpace(r[|r| - 1]))
    ensures r == [] <==> forall i | 0 <= i < |s| :: IsSpace(s[i])
  {
    var l := StripLeading(s);
    var r := StripTrailing(l);
    assert r != [] ==> s[|s| - |l|] == r[0];
    AllSpaceWhenStrippedEmpty(s);
    r
  }

  lemma AllSpaceWhenStrippedEmpty(s: string)
    ensures StripTrailing(StripLeading(s)) == [] ==> forall i | 0 <= i < |s| :: IsSpace(s[i])
  {
    var l := StripLeading(s);
    assert StripTrailing(l) == [] ==> l == [];
  }

  lemma StripLeadingPadded(a: string, t: string)
    requires forall i | 0 <= i < |a| :: IsSpace(a[i])
    requires t == [] || !IsSpace(t[0])
    ensures StripLeading(a + t) == t
  {
    var s := a + t;
    var r := StripLeading(s);
    assert forall i | 0 <= i < |a| :: IsSpace(s[i]) by {
      forall i | 0 <= i < |a|
        ensures IsSpace(s[i])
      {
        assert s[i] == a[i];
      }
    }
    assert t != [] ==> !IsSpace(s[|a|]);
    assert r != [] ==> !IsSpace(s[|s| - |r|]);
    assert r == s[|s| - |t|..] == t;
  }

  lemma StripTrailingPadded(t: string, b: string)
    requires forall i | 0 <= i < |b| :: IsSpace(b[i])
    requires t == [] || !IsSpace(t[|t| - 1])
    ensures StripTrailing(t + b) == t
  {
    var s := t + b;
    var r := StripTrailing(s);
    assert forall i | |t| <= i < |s| :: IsSpace(s[i]) by {
      forall i | |t| <= i < |s|
        ensures IsSpace(s[i])
      {
        assert s[i] == b[i - |t|];
      }
    }
    assert t != [] ==> !IsSpace(s[|t| - 1]);
    assert r != [] ==> !IsSpace(s[|r| - 1]);
    assert r == s[..|t|] == t;
  }

  /** Whitespace padding on either side is exactly what `strip()` removes: text with no
      whitespace at its ends comes back unchanged from any padding. */
  lemma StripPadded(a: string, core: string, b: string)
    requires forall i | 0 <= i < |a| :: IsSpace(a[i])
    requires forall i | 0 <= i < |b| :: IsSpace(b[i])
    requires core == [] || (!IsSpace(core[0]) && !IsSpace(core[|core| - 1]))
    ensures Strip(a + core + b) == core
  {
    assert a + core + b == a + (core + b);
    if core == [] {
      assert core + b == b;
      StripLeadingPadded(a + b, []);
      assert a + b + [] == a + (core + b);
    } else {
      StripLeadingPadded(a, core + b);
      StripTrailingPadded(core, b);
    }
  }

  /** `s.split(sep)`: the maximal separator-free pieces, always at least one. */
  function Split(s: string, sep: char): (parts: seq<string>)
    ensures |parts| >= 1
    ensures forall i | 0 <= i < |parts| :: sep !in parts[i]
  {
    if |s| == 0 then [""]
    else
      var rest := Split(s[1..], sep);
      if s[0] == sep then [""] + rest
      else [[s[0]] + rest[0]] + rest[1..]
  }

  /** `sep.join(parts)`. */
  function Join(parts: seq<string>, sep: char): string
    requires |parts| >= 1
  {
    if |parts| == 1 then parts[0] else parts[0] + [sep] + Join(parts[1..], sep)
  }

  lemma {:induction false} JoinSplit(s: string, sep: char)
    ensures Join(Split(s, sep), sep) == s
  {
    if |s| > 0 {
      var rest := Split(s[1..], sep);
      JoinSplit(s[1..], sep);
      if s[0] != sep {
        if |rest| == 1 {
        } else {
          assert Join(rest, sep) == rest[0] + [sep] + Join(rest[1..], sep);
          assert ([[s[0]] + rest[0]] + rest[1..])[1..] == rest[1..];
        }
      }
    }
  }

  lemma {:induction false} SplitJoin(parts: seq<string>, sep: char)
    requires |parts| >= 1
    requires forall i | 0 <= i < |parts| :: sep !in parts[i]
    ensures Split(Join(parts, sep), sep) == parts
    decreases |parts|, |parts[0]|
  {
    if |parts[0]| == 0 {
      if |parts| > 1 {
        var tail := Join(parts[1..], sep);
        assert Join(parts, sep) == [sep] + tail;
        assert ([sep] + tail)[1..] == tail;
        SplitJoin(parts[1..], sep);
        assert [""] + parts[1..] == parts;
      }
    } else {
      var c := parts[0][0];
      var shorter := [parts[0][1..]] + parts[1..];
      assert c != sep by { assert parts[0][0] in parts[0]; }
      forall i | 0 <= i < |shorter|
        ensures sep !in shorter[i]
      {
        if i == 0 {
          assert forall x | x in parts[0][1..] :: x in parts[0];
        } else {
          assert shorter[i] == parts[i];
        }
      }
      JoinHead(parts, sep);
      SplitJoin(shorter, sep);
      var j := Join(parts, sep);
      assert j[0] == c && j[1..] == Join(shorter, sep);
      assert Split(j, sep) == [[c] + shorter[0]] + shorter[1..];
      assert [c] + shorter[0] == parts[0];
      assert shorter[1..] == parts[1..];
      assert [[c] + shorter[0]] + shorter[1..] == parts;
    }
  }

  /** Joining after dropping the first character of the first piece drops the first character of the result. */
  lemma JoinHead(parts: seq<string>, sep: char)
    requires |parts| >= 1 && |parts[0]| >= 1
    ensures Join(parts, sep) == [parts[0][0]] + Join([parts[0][1..]] + parts[1..], sep)
  {
    var shorter := [parts[0][1..]] + parts[1..];
    assert shorter[1..] == parts[1..];
    assert parts[0] == [parts[0][0]] + parts[0][1..];
  }
}
