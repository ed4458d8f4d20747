/**
 * The two rules of generar_puntos_cuadrados_FIRMS.py that are the script's
 * own: the conversion of the FIRMS `confidence` column to numbers (letter
 * codes replaced, then the whole column parsed as numeric, failing on any
 * value that is not a number) and the square footprint drawn around each fire
 * point, whose side depends on the instrument that detected it.
 */
module Firms {
  import opened Basics

  /** A `confidence` cell as read from the CSV: text, or a number. */
  datatype Cell = Text(s: string) | Number(x: real)

  /** The replacement table of lines 19-23: high, nominal and low confidence. */
  const ConfidenceCodes: map<string, real> := map["h" := 80.0, "n" := 55.0, "l" := 30.0]

  /** `Series.replace` on one cell: a letter code becomes its number; anything else is kept. */
  function ReplaceCode(c: Cell): (r: Cell)
    ensures c.Text? && c.s in ConfidenceCodes ==> r == Number(ConfidenceCodes[c.s])
    ensures !(c.Text? && c.s in ConfidenceCodes) ==> r == c
  {
    if c.Text? && c.s in ConfidenceCodes then Number(ConfidenceCodes[c.s]) else c
  }

  /** Lines 19-23 on the whole column. */
  function ReplaceConfidence(col: seq<Cell>): (r: seq<Cell>)
    ensures |r| == |col|
    ensures forall k :: 0 <= k < |col| ==> r[k] == ReplaceCode(col[k])
  {
    seq(|col|, k requires 0 <= k < |col| => ReplaceCode(col[k]))
  }

  /** Replacing twice is replacing once: no value the table produces is a code. */
  lemma ReplaceConfidenceIdempotent(col: seq<Cell>)
    ensures ReplaceConfidence(ReplaceConfidence(col)) == ReplaceConfidence(col)
  {
  }

  predicate IsDigit(c: char) {
    '0' <= c <= '9'
  }

  predicate AllDigits(s: string) {
    forall k :: 0 <= k < |s| ==> IsDigit(s[k])
  }

  /** The value of a string of decimal digits, most significant first; 0 for the empty string. */
  function DigitsValue(s: string): (v: nat)
    requires AllDigits(s)
  {
    if |s| == 0 then 0
    else DigitsValue(s[..|s| - 1]) * 10 + (s[|s| - 1] as int - '0' as int)
  }

  function Pow10(n: nat): (p: nat)
    ensures p >= 1
  {
    if n == 0 then 1 else 10 * Pow10(n - 1)
  }

  /** The first position of `c` in `s`, if any. */
  function IndexOf(s: string, c: char): (r: Option<nat>)
    ensures r.Some? ==> r.value < |s| && s[r.value] == c && forall k :: 0 <= k < r.value ==> s[k] != c
    ensures r.None? ==> forall k :: 0 <= k < |s| ==> s[k] != c
  {
    if |s| == 0 then None
    else if s[0] == c then Some(0)
    else match IndexOf(s[1..], c)
      case None => None
      case Some(k) => Some(k + 1)
  }

  /** The value of `whole.fraction`, both digit strings (either may be empty). */
  function DecimalValue(whole: string, fraction: string): (v: real)
    requires AllDigits(whole) && AllDigits(fraction)
    ensures v >= 0.0
  {
    DigitsValue(whole) as real + DigitsValue(fraction) as real / Pow10(|fraction|) as real
  }

  /** An unsigned decimal: digits, optionally followed by a point and more digits, with at least one digit. */
  function ParseUnsigned(s: string): (r: Option<real>)
    ensures r.Some? ==> |s| > 0 && r.value >= 0.0
  {
    match IndexOf(s, '.')
    case None =>
      if |s| > 0 && AllDigits(s) then Some(DigitsValue(s) as real) else None
    case Some(p) =>
      var whole, fraction := s[..p], s[p + 1..];
      if AllDigits(whole) && AllDigits(fraction) && |whole| + |fraction| > 0 then
        Some(DecimalValue(whole, fraction))
      else None
  }

  /**
   * The numbers `pd.to_numeric` accepts in this model: an optional sign, then
   * an unsigned decimal. Anything else is not a number.
   */
  function ParseDecimal(s: string): (r: Option<real>)
    ensures r.Some? ==> |s| > 0
    ensures r.Some? && r.value < 0.0 ==> s[0] == '-'
  {
    if |s| > 0 && s[0] == '-' then
      match ParseUnsigned(s[1..])
      case None => None
      case Some(x) => Some(-x)
    else if |s| > 0 && s[0] == '+' then ParseUnsigned(s[1..])
    else ParseUnsigned(s)
  }

  /**
   * Only a leading sign, digits and at most one point can make up a number:
   * any other character, or a second point, makes the conversion fail.
   */
  lemma ParsedTextIsNumeric(s: string)
    requires ParseDecimal(s).Some?
    ensures forall k :: 0 <= k < |s| ==> IsDigit(s[k]) || s[k] == '.' || (k == 0 && (s[k] == '-' || s[k] == '+'))
    ensures forall k, l :: 0 <= k < l < |s| && s[k] == '.' ==> s[l] != '.'
  {
    var signed := |s| > 0 && (s[0] == '-' || s[0] == '+');
    var body := if signed then s[1..] else s;
    assert ParseUnsigned(body).Some?;
    UnsignedIsNumeric(body);
    forall k | 0 <= k < |s|
      ensures IsDigit(s[k]) || s[k] == '.' || (k == 0 && (s[k] == '-' || s[k] == '+'))
    {
      if signed {
        if k > 0 {
          assert s[k] == body[k - 1];
        }
      } else {
        assert s[k] == body[k];
      }
    }
    forall k, l | 0 <= k < l < |s| && s[k] == '.'
      ensures s[l] != '.'
    {
      if signed {
        assert k > 0;
        assert s[k] == body[k - 1] && s[l] == body[l - 1];
      } else {
        assert s[k] == body[k] && s[l] == body[l];
      }
    }
  }

  lemma UnsignedIsNumeric(s: string)
    requires ParseUnsigned(s).Some?
    ensures forall k :: 0 <= k < |s| ==> IsDigit(s[k]) || s[k] == '.'
    ensures forall k, l :: 0 <= k < l < |s| && s[k] == '.' ==> s[l] != '.'
  {
    match IndexOf(s, '.')
    case None =>
    case Some(p) =>
      forall k | 0 <= k < |s|
        ensures IsDigit(s[k]) || s[k] == '.'
        ensures k != p ==> s[k] != '.'
      {
        if k < p {
          assert s[k] == s[..p][k];
        } else if k > p {
          assert s[k] == s[p + 1..][k - p - 1];
        }
      }
  }

  /** The digits of a natural number, as `str(n)` writes them. */
  function NatToDigits(n: nat): (s: string)
    ensures |s| > 0 && AllDigits(s)
  {
    if n < 10 then [('0' as int + n) as char]
    else NatToDigits(n / 10) + [('0' as int + n % 10) as char]
  }

  lemma {:induction false} DigitsOfNat(n: nat)
    ensures DigitsValue(NatToDigits(n)) == n
  {
    var s := NatToDigits(n);
    if n >= 10 {
      assert s[..|s| - 1] == NatToDigits(n / 10);
      DigitsOfNat(n / 10);
    }
  }

  lemma NoPointInDigits(s: string)
    requires AllDigits(s)
    ensures IndexOf(s, '.') == None
  {
  }

  /** A whole number written out in digits reads back as itself. */
  lemma ParseNatDigits(n: nat)
    ensures ParseDecimal(NatToDigits(n)) == Some(n as real)
  {
    var s := NatToDigits(n);
    NoPointInDigits(s);
    DigitsOfNat(n);
  }

  /** In digits followed by a point, the first point is the one after the digits. */
  lemma PointAfterDigits(whole: string, rest: string)
    requires AllDigits(whole)
    ensures IndexOf(whole + "." + rest, '.') == Some(|whole|)
  {
    var s := whole + "." + rest;
    assert s[|whole|] == '.';
    var r := IndexOf(s, '.');
    assert r.Some?;
  }

  /** Digits, a point and fraction digits: the whole part plus the fraction. */
  lemma ParseUnsignedWithPoint(digits: string, fraction: string)
    requires AllDigits(digits) && AllDigits(fraction) && |digits| + |fraction| > 0
    ensures ParseUnsigned(digits + "." + fraction) == Some(DecimalValue(digits, fraction))
  {
    var s := digits + "." + fraction;
    PointAfterDigits(digits, fraction);
    assert s[..|digits|] == digits;
    assert s[|digits| + 1..] == fraction;
  }

  /** `whole.fraction` written out: the digits of a whole number, a point, fraction digits. */
  function DecimalText(whole: nat, fraction: string): (s: string)
    requires AllDigits(fraction)
  {
    NatToDigits(whole) + "." + fraction
  }

  /**
   * Decimals read back: the digits of a whole number, a point and a string of
   * fraction digits give that number plus the fraction, and the same text
   * after a minus gives its negation.
   */
  lemma ParseSignedDecimal(whole: nat, fraction: string)
    requires AllDigits(fraction)
    ensures ParseDecimal(DecimalText(whole, fraction)) == Some(DecimalValue(NatToDigits(whole), fraction))
    ensures ParseDecimal("-" + DecimalText(whole, fraction)) == Some(-DecimalValue(NatToDigits(whole), fraction))
    ensures DecimalValue(NatToDigits(whole), fraction)
         == whole as real + DigitsValue(fraction) as real / Pow10(|fraction|) as real
  {
    var text := DecimalText(whole, fraction);
    ParseUnsignedWithPoint(NatToDigits(whole), fraction);
    DigitsOfNat(whole);
    SignedDecimal(text);
    UnsignedDecimal(text);
  }

  lemma SignedDecimal(unsigned: string)
    requires ParseUnsigned(unsigned).Some?
    ensures ParseDecimal("-" + unsigned) == Some(-ParseUnsigned(unsigned).value)
  {
    assert ("-" + unsigned)[1..] == unsigned;
  }

  lemma UnsignedDecimal(unsigned: string)
    requires |unsigned| > 0 && IsDigit(unsigned[0])
    ensures ParseDecimal(unsigned) == ParseUnsigned(unsigned)
  {
  }

  /** "-12.5" reads as -12.5. */
  lemma ParseMinusTwelveAndAHalf()
    ensures ParseDecimal("-12.5") == Some(-12.5)
  {
    assert NatToDigits(12) == "12";
    assert DigitsValue("5") == 5;
    ParseSignedDecimal(12, "5");
    assert Pow10(1) == 10;
    assert DecimalValue(NatToDigits(12), "5") == 12.5;
    assert "-" + DecimalText(12, "5") == "-12.5";
  }

  /** `pd.to_numeric` on one cell: a number stays, text is parsed, `None` when it is not a number. */
  function ToNumber(c: Cell): (r: Option<real>)
    ensures c.Number? ==> r == Some(c.x)
  {
    match c
    case Number(x) => Some(x)
    case Text(s) => ParseDecimal(s)
  }

  /**
   * `pd.to_numeric` on a column (line 24): every value converted, or the
   * ValueError it raises at the first value that is not a number (its index).
   */
  function ToNumericColumn(col: seq<Cell>): (r: Result<seq<real>, nat>)
    ensures r.Ok? <==> forall k :: 0 <= k < |col| ==> ToNumber(col[k]).Some?
    ensures r.Ok? ==> |r.value| == |col| && forall k :: 0 <= k < |col| ==> Some(r.value[k]) == ToNumber(col[k])
    ensures r.Err? ==> r.error < |col| && ToNumber(col[r.error]).None? &&
                       forall k :: 0 <= k < r.error ==> ToNumber(col[k]).Some?
  {
    if |col| == 0 then Ok([])
    else
      match ToNumber(col[0])
      case None => Err(0)
      case Some(x) =>
        var rest := ToNumericColumn(col[1..]);
        assert forall k :: 1 <= k < |col| ==> col[k] == col[1..][k - 1];
        match rest
        case Ok(xs) => Ok([x] + xs)
        case Err(k) => Err(k + 1)
  }

  /** Lines 19-24: replace the letter codes, then convert the column. */
  /**
   * Lines 19-24: replace the letter codes, then convert the column. It
   * succeeds exactly when every cell is convertible; each code becomes its
   * table value and every other cell its own numeric value.
   */
  function ConvertConfidence(col: seq<Cell>): (r: Result<seq<real>, nat>)
    ensures r.Ok? <==> forall k :: 0 <= k < |col| ==> Convertible(col[k])
    ensures r.Ok? ==> |r.value| == |col| && forall k :: 0 <= k < |col| ==>
      r.value[k] == (if col[k].Text? && col[k].s in ConfidenceCodes then ConfidenceCodes[col[k].s] else ToNumber(col[k]).value)
  {
    var replaced := ReplaceConfidence(col);
    assert forall k :: 0 <= k < |col| ==> (ToNumber(replaced[k]).Some? <==> Convertible(col[k]));
    ToNumericColumn(replaced)
  }

  /** A cell the conversion accepts: a letter code, a number, or text that is a number. */
  predicate Convertible(c: Cell) {
    (c.Text? && c.s in ConfidenceCodes) || ToNumber(c).Some?
  }

  /**
   * A value that is neither a code nor a number makes the conversion raise,
   * at that value when every earlier one is convertible.
   */
  lemma UnknownCodeRaises(col: seq<Cell>, k: nat)
    requires k < |col| && !Convertible(col[k])
    requires forall j :: 0 <= j < k ==> Convertible(col[j])
    ensures ConvertConfidence(col) == Err(k)
  {
    assert ToNumber(ReplaceConfidence(col)[k]).None?;
  }

  lemma ParseSeventyTwo()
    ensures ToNumber(Text("72")) == Some(72.0)
  {
    assert NatToDigits(72) == "72";
    ParseNatDigits(72);
  }

  /** A FIRMS column that mixes codes and numeric text, as VIIRS and MODIS exports do. */
  lemma MixedColumnConverts()
    ensures ConvertConfidence([Text("h"), Text("n"), Text("l"), Text("72"), Number(100.0)])
         == Ok([80.0, 55.0, 30.0, 72.0, 100.0])
  {
    var replaced := [Number(80.0), Number(55.0), Number(30.0), Text("72"), Number(100.0)];
    assert ReplaceConfidence([Text("h"), Text("n"), Text("l"), Text("72"), Number(100.0)]) == replaced;
    ParseSeventyTwo();
    var r := ToNumericColumn(replaced);
    assert forall k :: 0 <= k < |replaced| ==> ToNumber(replaced[k]).Some?;
    assert r.value == [80.0, 55.0, 30.0, 72.0, 100.0];
  }

  /** A fire detection, with its position in metres (UTM zone 18S) and the detecting instrument. */
  datatype FirePoint = FirePoint(x: real, y: real, instrument: string)

  /** An axis-aligned box, as `shapely.geometry.box(minx, miny, maxx, maxy)`. */
  datatype Box = Box(xmin: real, ymin: real, xmax: real, ymax: real)

  /** The footprint side in metres: 1000 for MODIS, 375 for VIIRS and for every other instrument code. */
  function SideLength(instrument: string): (size: real)
    ensures instrument == "MODIS" ==> size == 1000.0
    ensures instrument != "MODIS" ==> size == 375.0
  {
    if instrument == "MODIS" then 1000.0
    else if instrument == "VIIRS" then 375.0
    else 375.0
  }

  /** `create_dynamic_square` (lines 53-62): the square of that side centred on the point. */
  function CreateDynamicSquare(p: FirePoint): (b: Box)
    ensures (b.xmin + b.xmax) / 2.0 == p.x && (b.ymin + b.ymax) / 2.0 == p.y
    ensures b.xmax - b.xmin == SideLength(p.instrument) && b.ymax - b.ymin == SideLength(p.instrument)
    ensures b.xmin < p.x < b.xmax && b.ymin < p.y < b.ymax
  {
    var halfSize := SideLength(p.instrument) / 2.0;
    Box(p.x - halfSize, p.y - halfSize, p.x + halfSize, p.y + halfSize)
  }

  /**
   * The footprint depends on the position and the instrument only, and moves
   * with the point: two detections by the same instrument get translated
   * copies of the same square.
   */
  lemma SquareFollowsPoint(p: FirePoint, q: FirePoint)
    requires p.instrument == q.instrument
    ensures CreateDynamicSquare(q).xmin - CreateDynamicSquare(p).xmin == q.x - p.x
    ensures CreateDynamicSquare(q).ymin - CreateDynamicSquare(p).ymin == q.y - p.y
    ensures CreateDynamicSquare(q).xmax - CreateDynamicSquare(q).xmin
         == CreateDynamicSquare(p).xmax - CreateDynamicSquare(p).xmin
  {
  }

  /** Line 65: one square per point, in order, each containing its point. */
  function DynamicSquares(points: seq<FirePoint>): (boxes: seq<Box>)
    ensures |boxes| == |points|
    ensures forall k :: 0 <= k < |points| ==>
      boxes[k].xmin < points[k].x < boxes[k].xmax && boxes[k].ymin < points[k].y < boxes[k].ymax &&
      boxes[k].xmax - boxes[k].xmin == SideLength(points[k].instrument)
    ensures forall k :: 0 <= k < |points| ==> boxes[k] == CreateDynamicSquare(points[k])
  {
    seq(|points|, k requires 0 <= k < |points| => CreateDynamicSquare(points[k]))
  }

  /** MODIS and VIIRS detections at the same place: boxes of 1000 m and 375 m around it. */
  lemma ModisAndViirsSquares()
    ensures CreateDynamicSquare(FirePoint(500000.0, 8800000.0, "MODIS"))
         == Box(499500.0, 8799500.0, 500500.0, 8800500.0)
    ensures CreateDynamicSquare(FirePoint(500000.0, 8800000.0, "VIIRS"))
         == Box(499812.5, 8799812.5, 500187.5, 8800187.5)
  {
  }
}
