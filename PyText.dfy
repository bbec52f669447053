/**
 * The parts of Python's text built-ins that the origin parser relies on:
 * `str.split(sep, maxsplit)` and `float(s)` restricted to optionally signed
 * decimal numerals. `float()` first strips whitespace from both ends of its
 * argument; `Strip` is that stripping.
 */
module PyText {
  import opened Wrappers

  // ---------------------------------------------------------------------
  // The whitespace float() strips
  // ---------------------------------------------------------------------

  /** The ASCII whitespace `float()` strips from its argument: the space,
      tab, line feed, vertical tab, form feed and carriage return. This is
      fewer characters than `str.isspace()` accepts: the separators
      0x1C..0x1F are not stripped, and `float()` refuses text holding them. */
  predicate IsSpace(c: char) {
    c == ' ' || ('\t' <= c <= '\r')
  }

  predicate AllSpace(s: string) {
    forall i :: 0 <= i < |s| ==> IsSpace(s[i])
  }

  /** How many whitespace characters `s` starts with: the left stripping is
      `s[LeadingSpace(s)..]`. */
  function LeadingSpace(s: string): (k: nat)
    ensures k <= |s|
    ensures forall i :: 0 <= i < k ==> IsSpace(s[i])
    ensures k == |s| || !IsSpace(s[k])
  {
    if s != [] && IsSpace(s[0]) then 1 + LeadingSpace(s[1..]) else 0
  }

  /** Where the whitespace at the end of `s` begins: the right stripping is
      `s[..TrailingSpaceStart(s)]`. */
  function TrailingSpaceStart(s: string): (m: nat)
    ensures m <= |s|
    ensures forall i :: m <= i < |s| ==> IsSpace(s[i])
    ensures m == 0 || !IsSpace(s[m - 1])
  {
    if s != [] && IsSpace(s[|s| - 1]) then TrailingSpaceStart(s[..|s| - 1]) else |s|
  }

  /** The stripping `float()` does: `s` with whitespace removed at both
      ends and nowhere else. */
  function Strip(s: string): (r: string)
    ensures r == [] || (!IsSpace(r[0]) && !IsSpace(r[|r| - 1]))
  {
    var t := s[LeadingSpace(s)..];
    t[..TrailingSpaceStart(t)]
  }

  /** Stripping removes whitespace only: what it keeps is a slice of `s`,
      with nothing but whitespace before and after it. */
  lemma StripSlice(s: string)
    ensures LeadingSpace(s) + |Strip(s)| <= |s|
    ensures Strip(s) == s[LeadingSpace(s)..LeadingSpace(s) + |Strip(s)|]
    ensures forall i :: LeadingSpace(s) + |Strip(s)| <= i < |s| ==> IsSpace(s[i])
  {
    var k := LeadingSpace(s);
    var t := s[k..];
    var m := TrailingSpaceStart(t);
    assert Strip(s) == t[..m] == s[k..k + m];
    forall i | k + m <= i < |s| ensures IsSpace(s[i]) {
      assert s[i] == t[i - k];
    }
  }

  /** Text that neither starts nor ends with whitespace is left alone. */
  lemma StripUnpadded(x: string)
    requires x != [] && !IsSpace(x[0]) && !IsSpace(x[|x| - 1])
    ensures Strip(x) == x
  {
  }

  /** The blank prefix is determined by its contract: it ends where the
      first non-space begins. */
  lemma LeadingSpaceUnique(p: string, r: string)
    requires AllSpace(p) && (r == [] || !IsSpace(r[0]))
    ensures LeadingSpace(p + r) == |p|
  {
    var x := p + r;
    if r != [] {
      assert x[|p|] == r[0];
    }
  }

  /** The blank suffix is determined by its contract: it starts right after
      the last non-space. */
  lemma TrailingSpaceStartUnique(r: string, q: string)
    requires AllSpace(q) && (r == [] || !IsSpace(r[|r| - 1]))
    ensures TrailingSpaceStart(r + q) == |r|
  {
    var x := r + q;
    if r != [] {
      assert x[|r| - 1] == r[|r| - 1];
    }
  }

  /** Whitespace added around a string does not change what stripping gives. */
  lemma StripPadded(w: string, s: string, w': string)
    requires AllSpace(w) && AllSpace(w')
    ensures Strip(w + s + w') == Strip(s)
  {
    var x := w + s + w';
    var k := LeadingSpace(s);
    var t := s[k..];
    if t == [] {
      assert AllSpace(x) by {
        forall i | 0 <= i < |x| ensures IsSpace(x[i]) {
          if i < |w| { assert x[i] == w[i]; }
          else if i < |w| + |s| { assert x[i] == s[i - |w|]; }
          else { assert x[i] == w'[i - |w| - |s|]; }
        }
      }
      LeadingSpaceUnique(x, []);
      assert x + [] == x;
    } else {
      assert x == (w + s[..k]) + (t + w');
      assert AllSpace(w + s[..k]) by {
        forall i | 0 <= i < |w| + k ensures IsSpace((w + s[..k])[i]) {
          if i >= |w| { assert (w + s[..k])[i] == s[i - |w|]; }
        }
      }
      LeadingSpaceUnique(w + s[..k], t + w');
      assert x[|w| + k..] == t + w';
      var m := TrailingSpaceStart(t);
      assert m > 0;
      assert t + w' == t[..m] + (t[m..] + w');
      assert AllSpace(t[m..] + w') by {
        forall i | 0 <= i < |t| - m + |w'| ensures IsSpace((t[m..] + w')[i]) {
          if i < |t| - m { assert (t[m..] + w')[i] == t[m + i]; }
        }
      }
      TrailingSpaceStartUnique(t[..m], t[m..] + w');
    }
  }

  // ---------------------------------------------------------------------
  // str.split(sep, maxsplit) and its inverse sep.join(parts)
  // ---------------------------------------------------------------------

  /** Index of the first occurrence of `c` in `s`. */
  function IndexOf(s: string, c: char): (i: nat)
    requires c in s
    ensures i < |s| && s[i] == c && c !in s[..i]
  {
    if s[0] == c then 0 else 1 + IndexOf(s[1..], c)
  }

  /** `sep.join(parts)` for a one-character separator. */
  function Join(parts: seq<string>, sep: char): string
  {
    if |parts| == 0 then []
    else if |parts| == 1 then parts[0]
    else parts[0] + [sep] + Join(parts[1..], sep)
  }

  /** `s.split(sep, maxsplit)` for a one-character separator: cut at the
      first `maxsplit` occurrences of `sep`, leaving the rest of the string,
      separators included, in the last field. */
  function Split(s: string, sep: char, maxsplit: nat): (parts: seq<string>)
    ensures 1 <= |parts| <= maxsplit + 1
    ensures Join(parts, sep) == s
    ensures forall i :: 0 <= i < |parts| - 1 ==> sep !in parts[i]
    ensures |parts| <= maxsplit ==> sep !in parts[|parts| - 1]
    decreases maxsplit
  {
    if maxsplit == 0 || sep !in s then [s]
    else
      var i := IndexOf(s, sep);
      assert s == s[..i] + [sep] + s[i + 1..];
      [s[..i]] + Split(s[i + 1..], sep, maxsplit - 1)
  }

  /** With at most two cuts, the split gives exactly two fields precisely
      when the separator occurs exactly once. */
  lemma SplitTwoFields(s: string, sep: char)
    ensures |Split(s, sep, 2)| == 2 <==> multiset(s)[sep] == 1
  {
  }

  /** Splitting `a + [sep] + b`, where neither part holds the separator,
      gives back the two parts. */
  lemma SplitAtOnlySeparator(a: string, b: string, sep: char)
    requires sep !in a && sep !in b
    ensures Split(a + [sep] + b, sep, 2) == [a, b]
  {
    var s := a + [sep] + b;
    assert s[|a|] == sep;
    var i := IndexOf(s, sep);
    assert s[..i] == a && s[i + 1..] == b;
  }

  // ---------------------------------------------------------------------
  // float(s) on decimal numerals
  // ---------------------------------------------------------------------

  predicate IsDigit(c: char) { '0' <= c <= '9' }

  predicate AllDigits(s: string) {
    forall i :: 0 <= i < |s| ==> IsDigit(s[i])
  }

  function Pow10(k: nat): (p: nat)
    ensures p >= 1
  {
    if k == 0 then 1 else 10 * Pow10(k - 1)
  }

  /** The value of a string of decimal digits, most significant first. */
  function DigitsValue(ds: string): (n: nat)
    requires AllDigits(ds)
    ensures n < Pow10(|ds|)
  {
    if ds == [] then 0
    else 10 * DigitsValue(ds[..|ds| - 1]) + (ds[|ds| - 1] - '0') as int
  }

  /** The value of the numeral `whole.frac` whose fractional part has
      `fracDigits` digits. */
  function Decimal(whole: nat, frac: nat, fracDigits: nat): (v: real)
    ensures v >= whole as real
  {
    whole as real + frac as real / Pow10(fracDigits) as real
  }

  /** A character that may appear in a decimal numeral. */
  predicate NumeralChar(c: char) {
    IsDigit(c) || c == '.' || c == '+' || c == '-'
  }

  /** Text made only of whitespace and numeral characters. */
  predicate NumeralText(s: string) {
    forall i :: 0 <= i < |s| ==> IsSpace(s[i]) || NumeralChar(s[i])
  }

  /** An unsigned numeral `digits`, `digits.`, `.digits` or `digits.digits`
      (at least one digit) and its exact value. */
  function ParseUnsigned(t: string): (r: Option<real>)
    ensures r.Some? ==> r.value >= 0.0
    ensures r.Some? ==> t != [] && (IsDigit(t[0]) || t[0] == '.')
    ensures r.Some? ==> NumeralText(t)
  {
    if '.' in t then
      var i := IndexOf(t, '.');
      var whole, frac := t[..i], t[i + 1..];
      assert forall j :: 0 <= j < |t| && j != i ==> t[j] == if j < i then whole[j] else frac[j - i - 1];
      if |whole| + |frac| > 0 && AllDigits(whole) && AllDigits(frac) then
        Some(Decimal(DigitsValue(whole), DigitsValue(frac), |frac|))
      else None
    else if t != [] && AllDigits(t) then Some(DigitsValue(t) as real)
    else None
  }

  /** No digit is a decimal point. */
  lemma NoPointInDigits(ds: string)
    requires AllDigits(ds)
    ensures '.' !in ds
  {
    forall k | 0 <= k < |ds| ensures ds[k] != '.' { assert IsDigit(ds[k]); }
  }

  /** A numeral `whole.frac` has the value `Decimal` gives it. */
  lemma UnsignedValue(whole: string, frac: string)
    requires whole != [] && frac != [] && AllDigits(whole) && AllDigits(frac)
    ensures ParseUnsigned(whole + "." + frac) == Some(Decimal(DigitsValue(whole), DigitsValue(frac), |frac|))
  {
    var t := whole + "." + frac;
    assert t[|whole|] == '.';
    assert t[..|whole|] == whole;
    NoPointInDigits(whole);
    var i := IndexOf(t, '.');
    assert i == |whole|;
    assert t[..i] == whole && t[i + 1..] == frac;
    assert ParseUnsigned(t) == Some(Decimal(DigitsValue(t[..i]), DigitsValue(t[i + 1..]), |t[i + 1..]|));
  }

  /** Whitespace around numeral text keeps it numeral text. */
  lemma StripNumeral(s: string)
    ensures NumeralText(Strip(s)) ==> NumeralText(s)
  {
    var t := Strip(s);
    var k := LeadingSpace(s);
    StripSlice(s);
    if NumeralText(t) {
      forall i | 0 <= i < |s| ensures IsSpace(s[i]) || NumeralChar(s[i]) {
        if k <= i < k + |t| {
          assert s[i] == t[i - k];
        }
      }
    }
  }

  /** `float()` on text with the whitespace already stripped: an optional
      sign, then an unsigned numeral. */
  function ParseNumeral(t: string): (r: Option<real>)
    ensures r.Some? ==> NumeralText(t)
  {
    if t != [] && (t[0] == '+' || t[0] == '-') then
      assert forall i :: 1 <= i < |t| ==> t[i] == t[1..][i - 1];
      match ParseUnsigned(t[1..])
      case None => None
      case Some(v) => Some(if t[0] == '-' then -v else v)
    else ParseUnsigned(t)
  }

  /** The shape of an unsigned numeral: digits and at most one point, with
      at least one digit. */
  predicate UnsignedForm(t: string) {
    && (forall i :: 0 <= i < |t| ==> IsDigit(t[i]) || t[i] == '.')
    && multiset(t)['.'] <= 1
    && (exists i :: 0 <= i < |t| && IsDigit(t[i]))
  }

  /** The shape of a stripped numeral: an optional sign at the front, then
      an unsigned numeral. */
  predicate NumeralForm(t: string) {
    || UnsignedForm(t)
    || (t != [] && (t[0] == '+' || t[0] == '-') && UnsignedForm(t[1..]))
  }

  /** A text with a point splits around its first point into a part with
      no point and the rest. */
  lemma PointSplit(t: string)
    requires '.' in t
    ensures t == t[..IndexOf(t, '.')] + ['.'] + t[IndexOf(t, '.') + 1..]
    ensures '.' !in t[..IndexOf(t, '.')]
    ensures multiset(t)['.'] == 1 + multiset(t[IndexOf(t, '.') + 1..])['.']
  {
    var i := IndexOf(t, '.');
    var whole, frac := t[..i], t[i + 1..];
    assert t == whole + ['.'] + frac;
    assert multiset(t) == multiset(whole) + multiset(['.']) + multiset(frac);
    assert multiset(whole)['.'] == 0;
  }

  /** Every text of numeral shape is accepted. */
  lemma UnsignedFormAccepted(t: string)
    requires UnsignedForm(t)
    ensures ParseUnsigned(t).Some?
  {
    var j :| 0 <= j < |t| && IsDigit(t[j]);
    if '.' in t {
      PointSplit(t);
      var i := IndexOf(t, '.');
      var whole, frac := t[..i], t[i + 1..];
      assert '.' !in frac;
      forall k | 0 <= k < |whole| ensures IsDigit(whole[k]) {
        assert whole[k] == t[k];
      }
      forall k | 0 <= k < |frac| ensures IsDigit(frac[k]) {
        assert frac[k] == t[i + 1 + k];
      }
      assert j != i;
    }
  }

  /** Only text of numeral shape is accepted. */
  lemma UnsignedAcceptedForm(t: string)
    requires ParseUnsigned(t).Some?
    ensures UnsignedForm(t)
  {
    if '.' in t {
      PointSplit(t);
      var i := IndexOf(t, '.');
      var whole, frac := t[..i], t[i + 1..];
      assert '.' !in frac by {
        forall k | 0 <= k < |frac| ensures frac[k] != '.' { assert IsDigit(frac[k]); }
      }
      if whole != [] {
        assert IsDigit(t[0]);
      } else {
        assert IsDigit(t[i + 1]);
      }
      forall k | 0 <= k < |t| ensures IsDigit(t[k]) || t[k] == '.' {
        if k < i { assert t[k] == whole[k]; }
        else if k > i { assert t[k] == frac[k - i - 1]; }
      }
    } else {
      assert IsDigit(t[0]);
      assert multiset(t)['.'] == 0;
    }
  }

  /** An unsigned numeral is accepted exactly when it has numeral shape:
      `1.2.3`, `1 2`, `1-2` and a lone `.` are refused. */
  lemma UnsignedAccepted(t: string)
    ensures ParseUnsigned(t).Some? <==> UnsignedForm(t)
  {
    if UnsignedForm(t) { UnsignedFormAccepted(t); }
    if ParseUnsigned(t).Some? { UnsignedAcceptedForm(t); }
  }

  /** Stripped text is accepted exactly when it has the shape of a signed or
      unsigned numeral: a lone sign, a sign after the digits or two signs
      are refused. */
  lemma NumeralAccepted(t: string)
    ensures ParseNumeral(t).Some? <==> NumeralForm(t)
  {
    UnsignedAccepted(t);
    if t != [] {
      UnsignedAccepted(t[1..]);
    }
  }

  /** `float(s)` on an optionally signed decimal numeral surrounded by any
      whitespace; `None` stands for the `ValueError` it raises otherwise,
      in particular for empty or blank text. */
  function ParseFloat(s: string): (r: Option<real>)
    ensures AllSpace(s) ==> r == None
  {
    ParseNumeral(Strip(s))
  }

  /** `float(s)` succeeds exactly when `s`, stripped, has numeral shape. */
  lemma ParseFloatAccepted(s: string)
    ensures ParseFloat(s).Some? <==> NumeralForm(Strip(s))
  {
    NumeralAccepted(Strip(s));
  }

  /** The separators 0x1C..0x1F are not whitespace to `float()`: text that
      starts with one is refused. */
  lemma ParseFloatRefusesSeparator(c: char, t: string)
    requires '\U{1C}' <= c <= '\U{1F}'
    ensures ParseFloat([c] + t) == None
  {
    var x := [c] + t;
    assert !IsSpace(x[0]);
    var r := Strip(x);
    assert LeadingSpace(x) == 0;
    assert TrailingSpaceStart(x) >= 1;
    assert r[0] == c;
    assert !NumeralText(r);
  }

  /** Text that starts and ends with a digit has no whitespace to strip. */
  lemma StripDigits(t: string)
    requires t != [] && IsDigit(t[0]) && IsDigit(t[|t| - 1])
    ensures Strip(t) == t
  {
  }

  /** Whether `float(s)` succeeds: never for text that is blank once
      stripped. */
  predicate IsNumeric(s: string)
    ensures IsNumeric(s) ==> Strip(s) != []
  {
    ParseFloat(s).Some?
  }

  /** What `float()` accepts is made of whitespace and numeral characters
      only; in particular it never holds a comma. */
  lemma NumericText(s: string)
    requires IsNumeric(s)
    ensures NumeralText(s) && ',' !in s
  {
    StripNumeral(s);
  }

  /** A bare digit string is an integer numeral: `float("75")` is 75. */
  lemma WholeDigits(ds: string)
    requires ds != [] && AllDigits(ds)
    ensures ParseUnsigned(ds) == Some(DigitsValue(ds) as real)
  {
    NoPointInDigits(ds);
  }

  /** A trailing point adds nothing: `float("75.")` is 75. */
  lemma TrailingPoint(ds: string)
    requires ds != [] && AllDigits(ds)
    ensures ParseUnsigned(ds + ".") == Some(Decimal(DigitsValue(ds), 0, 0))
    ensures Decimal(DigitsValue(ds), 0, 0) == DigitsValue(ds) as real
  {
    NoPointInDigits(ds);
    var a := ds + ".";
    assert a[|ds|] == '.' && a[..|ds|] == ds && a[|ds| + 1..] == [];
    assert IndexOf(a, '.') == |ds|;
    assert DigitsValue([]) == 0;
  }

  /** A leading point makes a fraction: `float(".5")` is 0.5. */
  lemma LeadingPoint(ds: string)
    requires ds != [] && AllDigits(ds)
    ensures ParseUnsigned("." + ds) == Some(Decimal(0, DigitsValue(ds), |ds|))
  {
    var b := "." + ds;
    assert b[0] == '.' && b[1..] == ds && b[..0] == [];
    assert DigitsValue([]) == 0;
  }

  /** The value of `-x` for a parsed `x`: a failure stays a failure. */
  function Negated(r: Option<real>): Option<real> {
    match r
    case None => None
    case Some(v) => Some(-v)
  }

  /** `float()` of a sign followed by text with no whitespace at its end. */
  lemma SignBefore(c: char, t: string)
    requires c == '+' || c == '-'
    requires t != [] && !IsSpace(t[|t| - 1])
    ensures ParseFloat([c] + t) == if c == '-' then Negated(ParseUnsigned(t)) else ParseUnsigned(t)
  {
    var x := [c] + t;
    StripUnpadded(x);
    assert x[1..] == t;
  }

  /** An unsigned numeral with no whitespace around it is read as it is. */
  lemma ParseFloatUnsigned(t: string)
    requires t != [] && (IsDigit(t[0]) || t[0] == '.') && !IsSpace(t[|t| - 1])
    ensures ParseFloat(t) == ParseUnsigned(t)
  {
    StripUnpadded(t);
  }

  /** A sign in front of an unsigned numeral: `-` negates its value and `+`
      changes nothing. */
  lemma ParseFloatSigned(t: string)
    requires t != [] && (IsDigit(t[0]) || t[0] == '.') && !IsSpace(t[|t| - 1])
    ensures ParseFloat(['+'] + t) == ParseFloat(t)
    ensures ParseFloat(['-'] + t) == Negated(ParseFloat(t))
  {
    ParseFloatUnsigned(t);
    SignBefore('+', t);
    SignBefore('-', t);
  }

  /** A second sign is refused: `float("--5")` and `float("+-5")` raise. */
  lemma ParseFloatOneSign(c: char, t: string)
    requires c == '+' || c == '-'
    requires t != [] && (t[0] == '+' || t[0] == '-') && !IsSpace(t[|t| - 1])
    ensures ParseFloat([c] + t) == None
  {
    assert ParseUnsigned(t) == None;
    SignBefore(c, t);
  }

  /** `float()` ignores whitespace on either side of the numeral. */
  lemma ParseFloatPadded(w: string, s: string, w': string)
    requires AllSpace(w) && AllSpace(w')
    ensures ParseFloat(w + s + w') == ParseFloat(s)
  {
    StripPadded(w, s, w');
  }
}
