/** The helpers of js/utils.js: the boolean-keyword test, dotted-path lookup in
    a JSON object, decimal reading with the Italian comma, the conversion of a
    spreadsheet day fraction into `HH:MM`, and price reading. */
module Utils {
  import opened Collections
  import opened Text
  import opened Values

  // ------------------------------------------------------------ isTruthy

  /** The spellings `isTruthy` accepts after lower-casing and trimming. */
  const TruthyWords: set<string> := {"true", "1", "x", "si", "sì", "yes", "vero"}

  /** A cell text is one of `words` once lower-cased and trimmed; a missing
      or empty cell never is. */
  predicate IsTruthyIn(words: set<string>, v: string) {
    v != [] && Key(v) in words
  }

  /** `isTruthy` on a cell text (a missing cell is ''). */
  predicate IsTruthy(v: string) {
    IsTruthyIn(TruthyWords, v)
  }

  /** `isTruthy` holds exactly for the listed words, in any case and with any
      surrounding white space; the empty text is false. */
  lemma IsTruthyWords(words: set<string>, v: string)
    requires [] !in words
    ensures IsTruthyIn(words, v) <==> Key(v) in words
  {
    if v == [] {
      KeyEmpty();
    }
  }

  /** Case and surrounding white space never change the answer. */
  lemma IsTruthyNormal(words: set<string>, v: string)
    requires [] !in words
    ensures IsTruthyIn(words, Key(v)) == IsTruthyIn(words, v)
  {
    KeyIdempotent(v);
    IsTruthyWords(words, v);
    IsTruthyWords(words, Key(v));
  }

  // ------------------------------------------------------------ getNestedValue

  /** `value?.[key]` on a JSON value: a field of an object, undefined otherwise. */
  function Member(v: Option<Json>, key: string): (r: Option<Json>)
    ensures r.Some? <==> v.Some? && v.value.JObj? && key in v.value.fields
  {
    if v.Some? && v.value.JObj? && key in v.value.fields then Some(v.value.fields[key]) else None
  }

  /** The value reached by following `keys` one after another. */
  function Follow(v: Option<Json>, keys: seq<string>): Option<Json>
    decreases keys
  {
    if |keys| == 0 then v else Follow(Member(v, keys[0]), keys[1..])
  }

  /** What `getNestedValue(obj, path)` returns. */
  function NestedValue(obj: Option<Json>, path: string): Option<Json> {
    if !Truthy(obj) || path == [] then None else Follow(obj, Split(path, '.'))
  }

  lemma {:induction false} FollowNone(keys: seq<string>)
    ensures Follow(None, keys) == None
  {
    if |keys| > 0 {
      FollowNone(keys[1..]);
    }
  }

  /** Following a path in two pieces is following it at once. */
  lemma {:induction false} FollowConcat(v: Option<Json>, a: seq<string>, b: seq<string>)
    ensures Follow(v, a + b) == Follow(Follow(v, a), b)
    decreases a
  {
    if |a| > 0 {
      assert (a + b)[0] == a[0];
      assert (a + b)[1..] == a[1..] + b;
      FollowConcat(Member(v, a[0]), a[1..], b);
      assert Follow(v, a + b) == Follow(Member(v, a[0]), a[1..] + b);
    } else {
      assert a + b == b;
    }
  }

  /** A path leads somewhere only if each of its prefixes does: a missing key
      anywhere along the way gives undefined. */
  lemma FollowPrefixes(v: Option<Json>, keys: seq<string>, i: nat)
    requires i <= |keys| && Follow(v, keys[..i]).None?
    ensures Follow(v, keys).None?
  {
    assert keys == keys[..i] + keys[i..];
    FollowConcat(v, keys[..i], keys[i..]);
    FollowNone(keys[i..]);
  }

  /** `getNestedValue`. */
  method GetNestedValue(obj: Option<Json>, path: string) returns (r: Option<Json>)
    ensures r == NestedValue(obj, path)
  {
    if !Truthy(obj) || path == [] {
      return None;
    }
    var keys := Split(path, '.');
    r := obj;
    var i := 0;
    while i < |keys|
      invariant 0 <= i <= |keys|
      invariant Follow(r, keys[i..]) == Follow(obj, keys)
    {
      assert keys[i..][1..] == keys[i + 1..];
      r := Member(r, keys[i]);
      if r.None? {
        FollowNone(keys[i + 1..]);
        return None;
      }
      i := i + 1;
    }
  }

  /** A path without dots is a single lookup in an object. */
  lemma NestedSingle(fields: map<string, Json>, path: string)
    requires path != [] && '.' !in path
    ensures NestedValue(Some(JObj(fields)), path) == Member(Some(JObj(fields)), path)
  {
    var obj := Some(JObj(fields));
    SplitPlain(path, '.');
    assert [path][1..] == [];
    assert Follow(obj, [path]) == Follow(Member(obj, path), []);
  }

  // ------------------------------------------------------------ numbers

  /** `parseNumber`: None is NaN. The Italian format turns the first comma into
      a decimal point. */
  function ParseNumber(v: string, format: string): Option<real> {
    if v == [] then None
    else
      var s := Trim(v);
      ParseFloat(if format == "it" then ReplaceFirst(s, ",", ".") else s)
  }

  /** Without a comma the two formats read the same number. */
  lemma ParseNumberFormats(v: string)
    requires !Contains(Trim(v), ",")
    ensures ParseNumber(v, "it") == ParseNumber(v, "us")
  {
  }

  /** JavaScript `%` on integers with a positive divisor: the sign follows the
      dividend. */
  function JsRem(a: int, b: int): (r: int)
    requires b > 0
    ensures -b < r < b
    ensures a >= 0 ==> r == a % b
    ensures a < 0 ==> r <= 0
  {
    if a >= 0 then a % b else -((-a) % b)
  }

  /** Math.round: halves go up. */
  function Round(x: real): (r: int)
    ensures r as real - 0.5 <= x < r as real + 0.5
  {
    (x + 0.5).Floor
  }

  /** A fraction of a day in whole minutes, rounded. */
  function DayMinutes(days: real): (m: int)
    ensures days >= 0.0 ==> m >= 0
  {
    var x := days * 1440.0;
    assert days >= 0.0 ==> x >= 0.0;
    Round(x)
  }

  /** `hours:minutes` of a whole number of minutes as `parseTimeValue` prints it. */
  function Clock(total: int): string {
    PadStart2(IntToString(JsRem(total / 60, 24))) + ":" + PadStart2(IntToString(JsRem(total, 60)))
  }

  /** `parseTimeValue`: a fraction of a day (spreadsheet time) becomes `HH:MM`;
      anything already holding a colon, or not numeric, is returned trimmed. */
  function ParseTimeValue(v: string, format: string): string {
    if v == [] then []
    else
      var s := Trim(v);
      if Contains(s, ":") then s
      else
        var s' := if format == "it" then ReplaceFirst(s, ",", ".") else s;
        match ParseFloat(s')
        case None => s'
        case Some(days) => Clock(DayMinutes(days))
  }

  lemma TwoDigits(n: nat)
    requires n < 100
    ensures |PadStart2(IntToString(n))| == 2
    ensures forall i :: 0 <= i < 2 ==> IsDigit(PadStart2(IntToString(n))[i])
    ensures DigitsValue(PadStart2(IntToString(n))) == n
  {
    var p := PadStart2(IntToString(n));
    if n < 10 {
      assert p == ['0', DigitChar(n)];
      assert p[..1] == ['0'];
    } else {
      assert NatToString(n) == NatToString(n / 10) + [DigitChar(n % 10)];
      assert |NatToString(n)| == 2;
    }
  }

  /** For a non-negative number of minutes the clock text is five characters,
      `HH:MM`, whose hours are the whole hours modulo 24 and whose minutes are
      the remaining minutes. */
  lemma ClockShape(total: nat)
    ensures |Clock(total)| == 5 && Clock(total)[2] == ':'
    ensures forall i :: 0 <= i < 5 && i != 2 ==> IsDigit(Clock(total)[i])
    ensures DigitsValue(Clock(total)[..2]) == (total / 60) % 24 < 24
    ensures DigitsValue(Clock(total)[3..]) == total % 60 < 60
  {
    var h := PadStart2(IntToString((total / 60) % 24));
    var m := PadStart2(IntToString(total % 60));
    TwoDigits((total / 60) % 24);
    TwoDigits(total % 60);
    assert Clock(total) == h + ":" + m;
    assert Clock(total)[..2] == h;
    assert Clock(total)[3..] == m;
  }

  /** Empty text gives '', text holding a colon comes back trimmed, and text
      that is not numeric comes back trimmed with (Italian format) its first
      comma turned into a point. */
  lemma ParseTimeValueText(v: string, format: string)
    ensures v == [] ==> ParseTimeValue(v, format) == []
    ensures v != [] && Contains(Trim(v), ":") ==> ParseTimeValue(v, format) == Trim(v)
    ensures v != [] && !Contains(Trim(v), ":") && ParseNumber(v, format).None? ==>
              ParseTimeValue(v, format) ==
                (if format == "it" then ReplaceFirst(Trim(v), ",", ".") else Trim(v))
  {
  }

  /** A numeric value is read exactly as `parseNumber` reads it, and the
      rounded number of minutes is printed as a clock; with `ClockShape`, a
      non-negative day fraction always gives `HH:MM` with hours below 24. */
  lemma ParseTimeValueClock(v: string, format: string)
    requires v != [] && !Contains(Trim(v), ":") && ParseNumber(v, format).Some?
    ensures ParseTimeValue(v, format) == Clock(DayMinutes(ParseNumber(v, format).value))
    ensures ParseNumber(v, format).value >= 0.0 ==> DayMinutes(ParseNumber(v, format).value) >= 0
  {
  }

  /** What `parsePrice` yields: nothing for an empty cell, the trimmed original
      text when it does not read as a number, otherwise the amount (printed by
      `toFixed(2)` with a decimal comma). */
  datatype Price = NoPrice | Unparsed(text: string) | Amount(value: real)

  function ParsePrice(v: string, format: string): (r: Price)
    ensures v == [] <==> r.NoPrice?
    ensures r.Unparsed? ==> r.text == Trim(v) && ParseNumber(v, format).None?
    ensures r.Amount? ==> ParseNumber(v, format) == Some(r.value)
  {
    if v == [] then NoPrice
    else match ParseNumber(v, format)
      case None => Unparsed(Trim(v))
      case Some(n) => Amount(n)
  }
}
