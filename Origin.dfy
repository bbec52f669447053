/**
 * The `origin` search parameter, "lat,lng": app.py's `parse_lat_lng`.
 * Python's `(None, None)` result is `None` here.
 */
module Origin {
  import opened Wrappers
  import opened PyText

  /** A parsed origin point, in degrees. */
  datatype LatLng = LatLng(lat: real, lng: real)

  /** `lat, lng = origin.split(",", 2)` followed by `float(lat)` and
      `float(lng)`; the `ValueError` of a wrong field count or of a
      non-numeric field is caught and gives `None`. */
  function ParseLatLng(origin: string): (r: Option<LatLng>)
    ensures r.Some? ==> multiset(origin)[','] == 1
  {
    var fields := Split(origin, ',', 2);
    SplitTwoFields(origin, ',');
    if |fields| != 2 then None
    else
      match (ParseFloat(fields[0]), ParseFloat(fields[1]))
      case (Some(lat), Some(lng)) => Some(LatLng(lat, lng))
      case _ => None
  }

  /** Anything but exactly one comma (no comma, or three or more fields)
      is rejected, whatever the fields hold. This covers the documentation
      example `parse_lat_lng("so much nope")`, which has no comma. */
  lemma ParseNeedsOneComma(origin: string)
    requires multiset(origin)[','] != 1
    ensures ParseLatLng(origin) == None
  {
  }

  /** Three or more fields are rejected, whatever they hold. */
  lemma ParseRejectsThreeFields(lat: string, lng: string, more: string)
    ensures ParseLatLng(lat + "," + lng + "," + more) == None
  {
  }

  /** With exactly one comma, the origin is accepted exactly when both
      fields are numbers, and then it is the pair of their values. */
  lemma ParseTwoFields(lat: string, lng: string)
    requires ',' !in lat && ',' !in lng
    ensures ParseLatLng(lat + "," + lng).Some? <==> IsNumeric(lat) && IsNumeric(lng)
    ensures ParseLatLng(lat + "," + lng).Some? ==>
      ParseLatLng(lat + "," + lng).value == LatLng(ParseFloat(lat).value, ParseFloat(lng).value)
  {
    SplitAtOnlySeparator(lat, lng, ',');
  }

  /** Padding the two fields with whitespace keeps the only comma between them. */
  lemma PaddedShape(lat: string, lng: string, w1: string, w2: string, w3: string, w4: string)
    requires ',' !in lat && ',' !in lng
    requires AllSpace(w1) && AllSpace(w2) && AllSpace(w3) && AllSpace(w4)
    ensures ',' !in w1 + lat + w2 && ',' !in w3 + lng + w4
    ensures w1 + lat + w2 + "," + w3 + lng + w4 == (w1 + lat + w2) + "," + (w3 + lng + w4)
  {
    assert forall i :: 0 <= i < |w1| ==> w1[i] != ',';
    assert forall i :: 0 <= i < |w2| ==> w2[i] != ',';
    assert forall i :: 0 <= i < |w3| ==> w3[i] != ',';
    assert forall i :: 0 <= i < |w4| ==> w4[i] != ',';
  }

  /** Whitespace around either field, such as a space after the comma, is
      accepted and changes nothing. */
  lemma ParseIgnoresPadding(lat: string, lng: string, w1: string, w2: string, w3: string, w4: string)
    requires ',' !in lat && ',' !in lng
    requires AllSpace(w1) && AllSpace(w2) && AllSpace(w3) && AllSpace(w4)
    ensures ParseLatLng(w1 + lat + w2 + "," + w3 + lng + w4) == ParseLatLng(lat + "," + lng)
  {
    var a, b := w1 + lat + w2, w3 + lng + w4;
    PaddedShape(lat, lng, w1, w2, w3, w4);
    SplitAtOnlySeparator(a, b, ',');
    SplitAtOnlySeparator(lat, lng, ',');
    ParseFloatPadded(w1, lat, w2);
    ParseFloatPadded(w3, lng, w4);
  }

  /** A field that starts with one of the separators 0x1C..0x1F is refused,
      so the origin is: `float()` does not strip them. */
  lemma ParseRefusesSeparatorPadding(c: char, lat: string, lng: string)
    requires '\U{1C}' <= c <= '\U{1F}'
    requires ',' !in lat && ',' !in lng
    ensures ParseLatLng([c] + lat + "," + lng) == None
  {
    assert ',' !in [c] + lat;
    ParseFloatRefusesSeparator(c, lat);
    ParseTwoFields([c] + lat, lng);
  }

  /** `float()` of a numeral `whole.frac` with digits on both sides is its
      exact decimal value. */
  lemma DecimalValue(whole: string, frac: string)
    requires whole != [] && frac != [] && AllDigits(whole) && AllDigits(frac)
    ensures ParseFloat(whole + "." + frac) == Some(Decimal(DigitsValue(whole), DigitsValue(frac), |frac|))
  {
    var t := whole + "." + frac;
    assert t[0] == whole[0] && t[|t| - 1] == frac[|frac| - 1];
    StripDigits(t);
    UnsignedValue(whole, frac);
  }

  lemma DigitValues()
    ensures AllDigits("50") && DigitsValue("50") == 50
    ensures AllDigits("110") && DigitsValue("110") == 110
    ensures AllDigits("5") && DigitsValue("5") == 5
    ensures AllDigits("2") && DigitsValue("2") == 2
  {
  }

  /** `float("50.5")` is 50.5. */
  lemma FiftyPointFive()
    ensures ParseFloat("50.5") == Some(50.5)
  {
    assert "50.5" == "50" + "." + "5";
    DigitValues();
    DecimalValue("50", "5");
    assert Decimal(50, 5, 1) == 50.5;
  }

  /** `float("110.2")` is 110.2. */
  lemma HundredTenPointTwo()
    ensures ParseFloat("110.2") == Some(110.2)
  {
    assert "110.2" == "110" + "." + "2";
    DigitValues();
    DecimalValue("110", "2");
    assert Decimal(110, 2, 1) == 110.2;
  }

  // The examples below take their literal fields as parameters pinned by
  // `requires`: the verifier then reasons about `lat + "," + lng` as a
  // concatenation instead of expanding one long literal character by
  // character, which keeps these proofs small.

  /** Documentation example: `parse_lat_lng("50.5,110.2")` is `(50.5, 110.2)`. */
  lemma ExamplePlain(lat: string, lng: string)
    requires lat == "50.5" && lng == "110.2"
    ensures ParseLatLng(lat + "," + lng) == Some(LatLng(50.5, 110.2))
  {
    FiftyPointFive();
    HundredTenPointTwo();
    assert ',' !in lat && ',' !in lng;
    ParseTwoFields(lat, lng);
  }

  /** `lat + ", " + lng` spelled as padding around the two fields; the
      empty padding and the space are parameters for the same reason as
      the examples' fields. */
  lemma SpaceAfterCommaShape(lat: string, lng: string, none: string, space: string)
    requires none == [] && space == [' ']
    ensures none + lat + none + "," + space + lng + none == lat + ", " + lng
  {
  }

  /** A space after the comma is accepted and changes nothing. */
  lemma ParseSpaceAfterComma(lat: string, lng: string)
    requires ',' !in lat && ',' !in lng
    ensures ParseLatLng(lat + ", " + lng) == ParseLatLng(lat + "," + lng)
  {
    var none: string, space: string := [], [' '];
    assert AllSpace(none) && AllSpace(space);
    ParseIgnoresPadding(lat, lng, none, none, space, none);
    SpaceAfterCommaShape(lat, lng, none, space);
  }

  /** Documentation example: `parse_lat_lng("50.5, 110.2")` is `(50.5, 110.2)` too. */
  lemma ExampleSpaceAfterComma(lat: string, lng: string)
    requires lat == "50.5" && lng == "110.2"
    ensures ParseLatLng(lat + ", " + lng) == Some(LatLng(50.5, 110.2))
  {
    ExamplePlain(lat, lng);
    assert ',' !in lat && ',' !in lng;
    ParseSpaceAfterComma(lat, lng);
  }

  /** `float("-75.0")` is -75.0: a sign in front of a numeral negates it. */
  lemma MinusSeventyFive(ds: string)
    requires ds == "75.0"
    ensures ParseFloat(['-'] + ds) == Some(-75.0)
  {
    assert ds == "75" + "." + "0";
    assert AllDigits("75") && DigitsValue("75") == 75;
    assert AllDigits("0") && DigitsValue("0") == 0;
    DecimalValue("75", "0");
    assert Decimal(75, 0, 1) == 75.0;
    assert ds[0] == '7' && ds[|ds| - 1] == '0';
    ParseFloatSigned(ds);
  }

  /** `float("40.0")` is 40.0. */
  lemma FortyPointZero()
    ensures ParseFloat("40.0") == Some(40.0)
  {
    assert "40.0" == "40" + "." + "0";
    assert AllDigits("40") && DigitsValue("40") == 40;
    assert AllDigits("0") && DigitsValue("0") == 0;
    DecimalValue("40", "0");
    assert Decimal(40, 0, 1) == 40.0;
  }

  /** A negative coordinate: `parse_lat_lng("40.0,-75.0")` is `(40.0, -75.0)`. */
  lemma ExampleNegative(lat: string, lng: string, ds: string)
    requires lat == "40.0" && ds == "75.0" && lng == ['-'] + ds
    ensures ParseLatLng(lat + "," + lng) == Some(LatLng(40.0, -75.0))
  {
    FortyPointZero();
    MinusSeventyFive(ds);
    assert ',' !in ds;
    assert ',' !in lat && ',' !in lng;
    ParseTwoFields(lat, lng);
  }

  /** Documentation example: three fields, as in
      `parse_lat_lng("50.5,110.2,99")`, are rejected. */
  lemma ExampleThreeFields(lat: string, lng: string, more: string)
    requires lat == "50.5" && lng == "110.2" && more == "99"
    ensures ParseLatLng(lat + "," + lng + "," + more) == None
  {
  }
}
