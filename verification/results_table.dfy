/** The results table of the frontend (frontend/src/components/ResultsTable.jsx):
    the two colour classifiers, returning small enums in place of CSS class
    strings, and the shape of what the component renders. */
module ResultsTable {
  import opened Basics
  import opened JsText
  import opened Json
  import opened Schema

  /** The style of the status pill. */
  datatype StatusStyle = PassStyle | FailStyle

  /** The colour of the confidence bar. */
  datatype Band = Red | Yellow | Green

  /** `getStatusColor`: the pass style exactly for "pass" in any letter case. */
  function StatusStyleOf(status: string): StatusStyle
  {
    if Lower(status) == "pass" then PassStyle else FailStyle
  }

  /** The spellings of "pass" that `toLowerCase` maps to "pass", letter by letter. */
  predicate IsPassWord(s: string)
  {
    && |s| == 4
    && (s[0] == 'p' || s[0] == 'P') && (s[1] == 'a' || s[1] == 'A')
    && (s[2] == 's' || s[2] == 'S') && (s[3] == 's' || s[3] == 'S')
  }

  /** The pass style is given to the sixteen spellings of "pass" and to
      nothing else: "fail", unknown words and the empty string all get the fail style. */
  lemma StatusStyleMeaning(status: string)
    ensures StatusStyleOf(status) == PassStyle <==> IsPassWord(status)
  {
    if IsPassWord(status) {
      assert Lower(status) == "pass";
    }
    if Lower(status) == "pass" {
      var l := Lower(status);
      assert l[0] == 'p' && l[1] == 'a' && l[2] == 's' && l[3] == 's';
      assert LowerChar(status[0]) == 'p' && LowerChar(status[1]) == 'a';
      assert LowerChar(status[2]) == 's' && LowerChar(status[3]) == 's';
    }
  }

  /** Classification ignores letter case: a status, its upper-cased form (the
      pill's label) and its lower-cased form all get the same style. */
  lemma StatusStyleIgnoresCase(status: string)
    ensures StatusStyleOf(Upper(status)) == StatusStyleOf(status)
    ensures StatusStyleOf(Lower(status)) == StatusStyleOf(status)
  {
    LowerForgetsCase(status);
  }

  /** `getConfidenceColor` on a number: green from 80, yellow from 50, red below. */
  function BandOf(value: real): (b: Band)
    ensures b == Green <==> 80.0 <= value
    ensures b == Yellow <==> 50.0 <= value < 80.0
    ensures b == Red <==> value < 50.0
  {
    if value >= 80.0 then Green else if value >= 50.0 then Yellow else Red
  }

  function Rank(b: Band): nat
  {
    match b
    case Red => 0
    case Yellow => 1
    case Green => 2
  }

  /** A higher confidence never gets a lower band. */
  lemma BandMonotone(a: real, b: real)
    requires a <= b
    ensures Rank(BandOf(a)) <= Rank(BandOf(b))
  {
  }

  /** `getConfidenceColor` on whatever the record holds: both comparisons are
      false on NaN, so a value that does not coerce to a number is red. */
  function BandOfValue(v: Value): (b: Band)
    ensures ToNumber(v).None? ==> b == Red
    ensures ToNumber(v).Some? ==> b == BandOf(ToNumber(v).value)
  {
    match ToNumber(v)
    case None => Red
    case Some(n) => BandOf(n)
  }

  /** One table row: the record's fields as rendered, with the two classifications. */
  datatype Row = Row(
    rule: Value, statusLabel: string, style: StatusStyle,
    confidence: Value, band: Band, evidence: Value, reasoning: Value)

  /** The column headers, in order. */
  const Headers: seq<string> := ["Rule", "Status", "Confidence", "Evidence", "Reasoning"]

  /** The row for one result, or `None` when rendering it throws: reading a
      field of `null`/`undefined`, or calling `toLowerCase` on a status that is
      not a string. */
  function RowOf(result: Value): (r: Option<Row>)
    ensures r.Some? <==> result.Obj? && "status" in result.fields && result.fields["status"].Str?
  {
    match Member(result, "status")
    case Some(Str(status)) =>
      Some(Row(Member(result, "rule").value, Upper(status), StatusStyleOf(status),
               Member(result, "confidence").value, BandOfValue(Member(result, "confidence").value),
               Member(result, "evidence").value, Member(result, "reasoning").value))
    case _ => None
  }

  /** What the component renders. */
  datatype View =
    | Nothing
    | Table(headers: seq<string>, rows: seq<Row>)
    | Crash

  /** `results.length === 0`, for the values where the model tracks `length`. */
  predicate LengthIsZero(results: Value)
  {
    match results
    case Arr(items) => |items| == 0
    case Str(s) => s == ""
    case Obj(m) => "length" in m && m["length"] == Num(0.0)
    case _ => false
  }

  /** `ResultTable({ results })`: nothing for a falsy or empty `results`; for an
      array whose every element renders, the fixed headers and one row per
      result in result order; anything else throws while rendering. */
  function ResultTable(results: Value): (view: View)
    ensures view.Nothing? <==> !Truthy(results) || LengthIsZero(results)
    ensures view.Table? ==> view.headers == Headers
    ensures view.Table? <==>
              && results.Arr? && |results.items| > 0
              && forall i :: 0 <= i < |results.items| ==> RowOf(results.items[i]).Some?
    ensures view.Table? ==>
              && |view.rows| == |results.items|
              && forall i :: 0 <= i < |view.rows| ==> Some(view.rows[i]) == RowOf(results.items[i])
  {
    if !Truthy(results) || LengthIsZero(results) then Nothing
    else if results.Arr? && forall i :: 0 <= i < |results.items| ==> RowOf(results.items[i]).Some? then
      Table(Headers, seq(|results.items|, i requires 0 <= i < |results.items| => RowOf(results.items[i]).value))
    else Crash
  }

  /** A non-empty array of valid verdict records, the shape the schema asks the
      model for, always renders as a table, with pass-styled rows exactly for
      the "pass" verdicts and the bar colour of each record's confidence. */
  lemma VerdictsRender(results: Value)
    requires results.Arr? && |results.items| > 0
    requires forall i :: 0 <= i < |results.items| ==> ValidVerdict(results.items[i])
    ensures var view := ResultTable(results);
            && view.Table? && |view.rows| == |results.items|
            && forall i :: 0 <= i < |results.items| ==>
                 && ValidVerdict(results.items[i])
                 && (view.rows[i].style == PassStyle <==> results.items[i].fields["status"] == Str("pass"))
                 && view.rows[i].band == BandOf(results.items[i].fields["confidence"].n)
  {
    var view := ResultTable(results);
    forall i | 0 <= i < |results.items|
      ensures view.rows[i].style == PassStyle <==> results.items[i].fields["status"] == Str("pass")
    {
      var status := results.items[i].fields["status"].s;
      StatusStyleMeaning(status);
      assert view.rows[i].style == StatusStyleOf(status);
    }
  }
}
