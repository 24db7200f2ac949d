/**
 * The coordinate helpers at the top of the slit preview component: sexagesimal
 * right ascension and declination strings to degrees, arc-minutes to degrees,
 * and the four corners of a rotated slit rectangle.
 *
 * JavaScript numbers are modelled as `Option<real>`, `None` standing for NaN,
 * which every arithmetic operation propagates. The cosine and sine of the
 * slit angle are abstracted as a `Rotation(c, s)`.
 */
module SkyCoords {
  import opened Wrappers
  import opened Text

  /** White space and line terminators as JavaScript's `trim` and `Number` skip them. */
  predicate IsJsSpace(c: char) {
    || c == '\t' || c == '\n' || c == '\U{0B}' || c == '\U{0C}' || c == '\r' || c == ' '
    || c == '\U{A0}' || c == '\U{1680}' || ('\U{2000}' <= c <= '\U{200A}')
    || c == '\U{2028}' || c == '\U{2029}' || c == '\U{202F}' || c == '\U{205F}'
    || c == '\U{3000}' || c == '\U{FEFF}'
  }

  function JsTrim(s: string): string {
    Trim(s, IsJsSpace)
  }

  /**
   * JavaScript's `Number(s)` on a string: blank text is 0, a plain decimal
   * with an optional sign is its value, anything else is NaN.
   */
  function JsNumber(s: string): Option<real> {
    TrimmedNumber(JsTrim(s))
  }

  function TrimmedNumber(t: string): Option<real> {
    if |t| == 0 then Some(0.0) else SignedDecimalValue(t)
  }

  /** `h + m / 60 + s / 3600` on JavaScript numbers. */
  function Sexagesimal(parts: seq<string>): Option<real> {
    if |parts| < 3 then None  // a missing field is `undefined`, so the sum is NaN
    else
      var a, b, c := JsNumber(parts[0]), JsNumber(parts[1]), JsNumber(parts[2]);
      if a.Some? && b.Some? && c.Some? then Some(a.value + b.value / 60.0 + c.value / 3600.0)
      else None
  }

  function Negate(x: Option<real>): (r: Option<real>)
    ensures r.Some? <==> x.Some?
    ensures r.Some? ==> r.value == -x.value
  {
    match x
    case Some(v) => Some(-v)
    case None => None
  }

  /** The `h:m:s` value of a colon-separated text. */
  function Magnitude(body: string): Option<real> {
    Sexagesimal(Split(body, ':'))
  }

  /** `raStringToDeg`: `h:m:s` in hours to degrees; one hour is 15 degrees. */
  function RaStringToDeg(raStr: string): Option<real> {
    var hours := Magnitude(raStr);
    if hours.Some? then Some(hours.value * 15.0) else None
  }

  /** `decStringToDeg`: an optional sign after trimming, applied to the whole `d:m:s` magnitude. */
  function DecStringToDeg(decStr: string): Option<real> {
    var t := JsTrim(decStr);
    if |t| > 0 && t[0] == '-' then Negate(Magnitude(t[1..]))
    else if |t| > 0 && t[0] == '+' then Magnitude(t[1..])
    else Magnitude(t)
  }

  /** `arcminToDeg`: total, sixty arc-minutes to the degree. */
  function ArcminToDeg(v: real): (deg: real)
    ensures deg * 60.0 == v
  {
    v / 60.0
  }

  // ----- properties of the conversions -----

  lemma SplitThree(a: string, b: string, c: string)
    requires ':' !in a && ':' !in b && ':' !in c
    ensures Split(a + ":" + b + ":" + c, ':') == [a, b, c]
  {
    assert a + ":" + b + ":" + c == a + [':'] + (b + [':'] + c);
    SplitConcat(a, ':', b + [':'] + c);
    SplitConcat(b, ':', c);
    SplitNoSep(c, ':');
  }

  /** Three numeric fields give `h + m / 60 + s / 3600`. */
  lemma SexagesimalOfFields(h: string, m: string, s: string, hv: real, mv: real, sv: real)
    requires JsNumber(h) == Some(hv) && JsNumber(m) == Some(mv) && JsNumber(s) == Some(sv)
    ensures Sexagesimal([h, m, s]) == Some(hv + mv / 60.0 + sv / 3600.0)
  {
    var parts := [h, m, s];
    assert parts[0] == h && parts[1] == m && parts[2] == s;
  }

  /** `raStringToDeg("h:m:s") == 15 * (h + m / 60 + s / 3600)`. */
  lemma RaFromFields(h: string, m: string, s: string, hv: real, mv: real, sv: real)
    requires ':' !in h && ':' !in m && ':' !in s
    requires JsNumber(h) == Some(hv) && JsNumber(m) == Some(mv) && JsNumber(s) == Some(sv)
    ensures RaStringToDeg(h + ":" + m + ":" + s) == Some((hv + mv / 60.0 + sv / 3600.0) * 15.0)
  {
    MagnitudeOfFields(h, m, s, hv, mv, sv);
  }

  lemma MagnitudeOfFields(h: string, m: string, s: string, hv: real, mv: real, sv: real)
    requires ':' !in h && ':' !in m && ':' !in s
    requires JsNumber(h) == Some(hv) && JsNumber(m) == Some(mv) && JsNumber(s) == Some(sv)
    ensures Magnitude(h + ":" + m + ":" + s) == Some(hv + mv / 60.0 + sv / 3600.0)
  {
    SplitThree(h, m, s);
    SexagesimalOfFields(h, m, s, hv, mv, sv);
  }

  /** With only two fields the seconds are `undefined` and the result is NaN. */
  lemma RaTwoFieldsIsNaN(h: string, m: string)
    requires ':' !in h && ':' !in m
    ensures RaStringToDeg(h + ":" + m) == None
  {
    SplitConcat(h, ':', m);
    assert h + ":" + m == h + [':'] + m;
    SplitNoSep(m, ':');
  }

  /** Digits alone are read by `Number` as their integer value. */
  lemma JsNumberOfDigits(s: string)
    requires |s| >= 1 && AllDigits(s)
    ensures JsNumber(s) == Some(DigitsValue(s) as real)
  {
    TrimUnpadded(s, IsJsSpace);
    DigitsAreDecimal(s);
  }

  /** A two-digit field, as in the sample coordinates. */
  lemma JsNumberOfTwoDigits(a: char, b: char)
    requires IsDigit(a) && IsDigit(b)
    ensures JsNumber([a, b]) == Some(((a as int - '0' as int) * 10 + (b as int - '0' as int)) as real)
  {
    var s := [a, b];
    assert AllDigits(s);
    JsNumberOfDigits(s);
    assert s[..1] == [a] && [a][..0] == [];
    assert DigitsValue([a]) == a as int - '0' as int;
  }

  lemma RaExample()
    ensures RaStringToDeg("10:00:00") == Some(150.0)
  {
    JsNumberOfTwoDigits('1', '0');
    JsNumberOfTwoDigits('0', '0');
    assert "10:00:00" == "10" + ":" + "00" + ":" + "00";
    RaFromFields("10", "00", "00", 10.0, 0.0, 0.0);
  }

  /** A non-space first character survives trimming and shields what follows it from the left. */
  lemma JsTrimCons(c: char, t: string)
    requires !IsJsSpace(c)
    requires t == [] || !IsJsSpace(t[0])
    ensures JsTrim([c] + t) == [c] + JsTrim(t)
    ensures JsTrim(t) == [] || JsTrim(t)[0] == t[0]
  {
    assert TrimLeft(t, IsJsSpace) == t;
    assert TrimLeft([c] + t, IsJsSpace) == [c] + t;
    TrimRightCons(c, t, IsJsSpace);
    TrimRightRemovesSuffix(t, IsJsSpace);
  }

  /**
   * A leading `-` negates the whole magnitude and a leading `+` changes
   * nothing, for text that does not itself start with a sign or a space.
   */
  lemma DecSigns(t: string)
    requires t == [] || (!IsJsSpace(t[0]) && t[0] != '-' && t[0] != '+')
    ensures DecStringToDeg("-" + t) == Negate(DecStringToDeg(t))
    ensures DecStringToDeg("+" + t) == DecStringToDeg(t)
  {
    DecMinus(t);
    DecPlus(t);
  }

  /** The sign-free parse of `t`: the trimmed text has no sign to strip. */
  lemma DecUnsigned(t: string)
    requires t == [] || (!IsJsSpace(t[0]) && t[0] != '-' && t[0] != '+')
    ensures DecStringToDeg(t) == Magnitude(JsTrim(t))
  {
    JsTrimCons('+', t);
  }

  lemma DecMinus(t: string)
    requires t == [] || (!IsJsSpace(t[0]) && t[0] != '-' && t[0] != '+')
    ensures DecStringToDeg("-" + t) == Negate(DecStringToDeg(t))
  {
    DecSignStripped('-', t);
    DecUnsigned(t);
  }

  /** A sign in front of `t` survives trimming, and stripping it leaves `t` trimmed. */
  lemma DecSignStripped(c: char, t: string)
    requires c == '-' || c == '+'
    requires t == [] || (!IsJsSpace(t[0]) && t[0] != '-' && t[0] != '+')
    ensures var u := JsTrim([c] + t); |u| > 0 && u[0] == c && u[1..] == JsTrim(t)
  {
    JsTrimCons(c, t);
  }

  lemma DecPlus(t: string)
    requires t == [] || (!IsJsSpace(t[0]) && t[0] != '-' && t[0] != '+')
    ensures DecStringToDeg("+" + t) == DecStringToDeg(t)
  {
    DecSignStripped('+', t);
    DecUnsigned(t);
  }

  /** `d:m:s` with no sign is the positive value `d + m / 60 + s / 3600`. */
  lemma DecFromFields(d: string, m: string, s: string, dv: real, mv: real, sv: real)
    requires ':' !in d && ':' !in m && ':' !in s
    requires d != [] && !IsJsSpace(d[0]) && d[0] != '-' && d[0] != '+'
    requires s != [] && !IsJsSpace(s[|s| - 1])
    requires JsNumber(d) == Some(dv) && JsNumber(m) == Some(mv) && JsNumber(s) == Some(sv)
    ensures DecStringToDeg(d + ":" + m + ":" + s) == Some(dv + mv / 60.0 + sv / 3600.0)
  {
    var text := d + ":" + m + ":" + s;
    assert text[0] == d[0] && text[|text| - 1] == s[|s| - 1];
    TrimUnpadded(text, IsJsSpace);
    MagnitudeOfFields(d, m, s, dv, mv, sv);
  }

  /** The sample declination `02:23:00`. */
  lemma DecUnsignedExample()
    ensures DecStringToDeg("02:23:00") == Some(2.0 + 23.0 / 60.0)
  {
    SampleFields();
    assert "02:23:00" == "02" + ":" + "23" + ":" + "00";
    DecFromFields("02", "23", "00", 2.0, 23.0, 0.0);
  }

  lemma SampleFields()
    ensures JsNumber("02") == Some(2.0) && JsNumber("23") == Some(23.0) && JsNumber("00") == Some(0.0)
  {
    JsNumberOfTwoDigits('0', '2');
    JsNumberOfTwoDigits('2', '3');
    JsNumberOfTwoDigits('0', '0');
  }

  /** An explicit `+` reads the same. */
  lemma DecPlusExample()
    ensures DecStringToDeg("+02:23:00") == Some(2.0 + 23.0 / 60.0)
  {
    DecUnsignedExample();
    DecPlusSign();
  }

  lemma DecPlusSign()
    ensures DecStringToDeg("+02:23:00") == DecStringToDeg("02:23:00")
  {
    assert "+02:23:00" == "+" + "02:23:00";
    DecSigns("02:23:00");
  }

  lemma DecHalfDegreeExample()
    ensures DecStringToDeg("00:30:00") == Some(0.5)
  {
    JsNumberOfTwoDigits('0', '0');
    JsNumberOfTwoDigits('3', '0');
    assert "00:30:00" == "00" + ":" + "30" + ":" + "00";
    DecFromFields("00", "30", "00", 0.0, 30.0, 0.0);
  }

  /** A negative declination below one degree keeps its sign: `-00:30:00` is half a degree south. */
  lemma DecNegativeExample()
    ensures DecStringToDeg("-00:30:00") == Some(-0.5)
  {
    DecHalfDegreeExample();
    DecMinusSign();
  }

  lemma DecMinusSign()
    ensures DecStringToDeg("-00:30:00") == Negate(DecStringToDeg("00:30:00"))
  {
    assert "-00:30:00" == "-" + "00:30:00";
    DecSigns("00:30:00");
  }

  // ----- slit rectangles -----

  datatype Point = Point(x: real, y: real)

  /** The cosine and sine of the rotation angle. */
  datatype Rotation = Rotation(c: real, s: real)

  /** Corners of a width-by-height rectangle centred on the origin: bottom-left, bottom-right, top-right, top-left. */
  function BaseCorners(w2: real, h2: real): seq<Point> {
    [Point(-w2, -h2), Point(w2, -h2), Point(w2, h2), Point(-w2, h2)]
  }

  /** Rotate counter-clockwise about the origin, then translate to `(ra, dec)`. */
  function Place(p: Point, ra: real, dec: real, rot: Rotation): Point {
    Point(ra + (p.x * rot.c - p.y * rot.s), dec + (p.x * rot.s + p.y * rot.c))
  }

  /** `computeRectangleCorners`, the angle given by its cosine and sine. */
  function ComputeRectangleCorners(ra: real, dec: real, widthDeg: real, heightDeg: real, rot: Rotation)
    : (corners: seq<Point>)
    ensures |corners| == 4
  {
    var base := BaseCorners(widthDeg / 2.0, heightDeg / 2.0);
    seq(4, i requires 0 <= i < 4 => Place(base[i], ra, dec, rot))
  }

  function Dist2(p: Point, q: Point): real {
    (p.x - q.x) * (p.x - q.x) + (p.y - q.y) * (p.y - q.y)
  }

  /** The four corners average to the centre, for every rotation. */
  lemma CornersCentroid(ra: real, dec: real, w: real, h: real, rot: Rotation)
    ensures var p := ComputeRectangleCorners(ra, dec, w, h, rot);
      && (p[0].x + p[1].x + p[2].x + p[3].x) / 4.0 == ra
      && (p[0].y + p[1].y + p[2].y + p[3].y) / 4.0 == dec
  {
  }

  /** Opposite corners are mirror images through the centre. */
  lemma CornersSymmetric(ra: real, dec: real, w: real, h: real, rot: Rotation)
    ensures var p := ComputeRectangleCorners(ra, dec, w, h, rot);
      && p[0].x + p[2].x == 2.0 * ra && p[0].y + p[2].y == 2.0 * dec
      && p[1].x + p[3].x == 2.0 * ra && p[1].y + p[3].y == 2.0 * dec
  {
  }

  /** At angle 0 the corners are `(ra -/+ w/2, dec -/+ h/2)` in the base order. */
  lemma CornersAxisAligned(ra: real, dec: real, w: real, h: real)
    ensures ComputeRectangleCorners(ra, dec, w, h, Rotation(1.0, 0.0)) ==
      [ Point(ra - w / 2.0, dec - h / 2.0), Point(ra + w / 2.0, dec - h / 2.0),
        Point(ra + w / 2.0, dec + h / 2.0), Point(ra - w / 2.0, dec + h / 2.0) ]
  {
  }

  /**
   * For a genuine rotation (`c * c + s * s == 1`) the bottom and top sides
   * have length `w`, the left and right sides length `h`, and adjacent sides
   * are perpendicular.
   */
  lemma CornersSides(ra: real, dec: real, w: real, h: real, rot: Rotation)
    requires rot.c * rot.c + rot.s * rot.s == 1.0
    ensures var p := ComputeRectangleCorners(ra, dec, w, h, rot);
      && Dist2(p[0], p[1]) == w * w && Dist2(p[2], p[3]) == w * w
      && Dist2(p[1], p[2]) == h * h && Dist2(p[3], p[0]) == h * h
      && (p[1].x - p[0].x) * (p[2].x - p[1].x) + (p[1].y - p[0].y) * (p[2].y - p[1].y) == 0.0
  {
    var p := ComputeRectangleCorners(ra, dec, w, h, rot);
    var c, s := rot.c, rot.s;
    assert p[1].x - p[0].x == w * c && p[1].y - p[0].y == w * s;
    assert p[2].x - p[1].x == -(h * s) && p[2].y - p[1].y == h * c;
    assert p[2].x - p[3].x == w * c && p[2].y - p[3].y == w * s;
    assert p[3].x - p[0].x == -(h * s) && p[3].y - p[0].y == h * c;
    assert (w * c) * (w * c) + (w * s) * (w * s) == w * w * (c * c + s * s);
    assert (h * s) * (h * s) + (h * c) * (h * c) == h * h * (c * c + s * s);
    assert Dist2(p[3], p[0]) == (h * s) * (h * s) + (h * c) * (h * c);
    assert Dist2(p[1], p[2]) == (h * s) * (h * s) + (h * c) * (h * c);
  }
}
