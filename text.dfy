/** JavaScript string primitives the pipeline relies on, stated over `seq<char>`:
    trim, toLowerCase, startsWith/includes, replace (first occurrence) and
    replaceAll, join/split, number-to-string with padStart, and the decimal
    numeral reading done by parseFloat and Number. */
module Text {
  import opened Collections

  /** The characters String.prototype.trim removes: WhiteSpace and LineTerminator. */
  predicate IsSpace(c: char) {
    c == ' ' || ('\t' <= c <= '\r') || c == '\U{A0}' || c == '\U{1680}' || ('\U{2000}' <= c <= '\U{200A}')
    || c == '\U{2028}' || c == '\U{2029}' || c == '\U{202F}' || c == '\U{205F}'
    || c == '\U{3000}' || c == '\U{FEFF}'
  }

  function TrimStart(s: string): (r: string)
    ensures |r| <= |s|
    ensures r == [] || !IsSpace(r[0])
  {
    if |s| > 0 && IsSpace(s[0]) then TrimStart(s[1..]) else s
  }

  /** What TrimStart keeps is the end of the text. */
  lemma {:induction false} TrimStartSuffix(s: string)
    ensures TrimStart(s) == s[|s| - |TrimStart(s)|..]
  {
    if |s| > 0 && IsSpace(s[0]) {
      TrimStartSuffix(s[1..]);
      assert s[1..][|s| - 1 - |TrimStart(s)|..] == s[|s| - |TrimStart(s)|..];
    }
  }

  /** What TrimStart drops is white space. */
  lemma {:induction false} TrimStartDrops(s: string)
    ensures forall i :: 0 <= i < |s| - |TrimStart(s)| ==> IsSpace(s[i])
  {
    if |s| > 0 && IsSpace(s[0]) {
      TrimStartDrops(s[1..]);
      forall i | 1 <= i < |s| - |TrimStart(s)| ensures IsSpace(s[i]) {
        assert s[i] == s[1..][i - 1];
      }
    }
  }

  function TrimEnd(s: string): (r: string)
    ensures |r| <= |s|
    ensures r == [] || !IsSpace(r[|r| - 1])
  {
    if |s| > 0 && IsSpace(s[|s| - 1]) then TrimEnd(s[..|s| - 1]) else s
  }

  /** What TrimEnd keeps is the start of the text. */
  lemma {:induction false} TrimEndPrefix(s: string)
    ensures TrimEnd(s) == s[..|TrimEnd(s)|]
  {
    if |s| > 0 && IsSpace(s[|s| - 1]) {
      TrimEndPrefix(s[..|s| - 1]);
      assert s[..|s| - 1][..|TrimEnd(s)|] == s[..|TrimEnd(s)|];
    }
  }

  /** What TrimEnd drops is white space. */
  lemma {:induction false} TrimEndDrops(s: string)
    ensures forall i :: |TrimEnd(s)| <= i < |s| ==> IsSpace(s[i])
  {
    if |s| > 0 && IsSpace(s[|s| - 1]) {
      TrimEndDrops(s[..|s| - 1]);
      forall i | |TrimEnd(s)| <= i < |s| - 1 ensures IsSpace(s[i]) {
        assert s[i] == s[..|s| - 1][i];
      }
    }
  }

  /** Neither starting nor ending with white space. */
  predicate Trimmed(v: string) {
    v == [] || (!IsSpace(v[0]) && !IsSpace(v[|v| - 1]))
  }

  /** String.prototype.trim. */
  function Trim(s: string): (r: string)
    ensures Trimmed(r)
  {
    TrimEndPrefix(TrimStart(s));
    TrimEnd(TrimStart(s))
  }

  /** A trimmed text is made of characters of the text. */
  lemma TrimChars(s: string)
    ensures forall c :: c in Trim(s) ==> c in s
  {
    var a := TrimStart(s);
    TrimStartSuffix(s);
    TrimEndPrefix(a);
    forall c | c in Trim(s) ensures c in s {
      var k :| 0 <= k < |Trim(s)| && Trim(s)[k] == c;
      assert c == a[k] == s[|s| - |a| + k];
    }
  }

  /** One space in front of a trimmed text is trimmed away. */
  lemma TrimLeadingSpace(v: string)
    requires Trimmed(v)
    ensures Trim([' '] + v) == v
  {
    var s := [' '] + v;
    assert IsSpace(s[0]) && s[1..] == v;
    assert TrimStart(s) == TrimStart(v);
    TrimNoop(v);
  }

  lemma TrimStartNoop(s: string)
    requires s == [] || !IsSpace(s[0])
    ensures TrimStart(s) == s
  {
  }

  lemma TrimEndNoop(s: string)
    requires s == [] || !IsSpace(s[|s| - 1])
    ensures TrimEnd(s) == s
  {
  }

  /** A string without surrounding white space is its own trim. */
  lemma TrimNoop(s: string)
    requires Trimmed(s)
    ensures Trim(s) == s
  {
    TrimStartNoop(s);
    TrimEndNoop(s);
  }

  /** Trimming twice is trimming once. */
  lemma TrimIdempotent(s: string)
    ensures Trim(Trim(s)) == Trim(s)
  {
    TrimNoop(Trim(s));
  }

  /** String.prototype.toLowerCase on one character: Basic Latin and Latin-1 capitals. */
  function LowerChar(c: char): char {
    if 'A' <= c <= 'Z' || ('\U{C0}' <= c <= '\U{DE}' && c != '\U{D7}') then (c as int + 32) as char else c
  }

  function Lower(s: string): (r: string)
    ensures |r| == |s|
    ensures forall i :: 0 <= i < |s| ==> r[i] == LowerChar(s[i])
  {
    seq(|s|, i requires 0 <= i < |s| => LowerChar(s[i]))
  }

  lemma LowerConcat(a: string, b: string)
    ensures Lower(a + b) == Lower(a) + Lower(b)
  {
  }

  lemma LowerCharSpace(c: char)
    ensures IsSpace(LowerChar(c)) == IsSpace(c)
  {
  }

  lemma {:induction false} LowerTrimStart(s: string)
    ensures Lower(TrimStart(s)) == TrimStart(Lower(s))
  {
    if |s| > 0 {
      LowerCharSpace(s[0]);
      if IsSpace(s[0]) {
        LowerTrimStart(s[1..]);
        var ls := Lower(s);
        assert ls[0] == LowerChar(s[0]);
        assert IsSpace(ls[0]);
        assert TrimStart(ls) == TrimStart(ls[1..]);
        assert ls[1..] == Lower(s[1..]);
        assert TrimStart(s) == TrimStart(s[1..]);
      } else {
        TrimStartNoop(Lower(s));
      }
    }
  }

  lemma {:induction false} LowerTrimEnd(s: string)
    ensures Lower(TrimEnd(s)) == TrimEnd(Lower(s))
  {
    if |s| > 0 {
      LowerCharSpace(s[|s| - 1]);
      if IsSpace(s[|s| - 1]) {
        LowerTrimEnd(s[..|s| - 1]);
        assert Lower(s)[..|s| - 1] == Lower(s[..|s| - 1]);
      } else {
        TrimEndNoop(Lower(s));
      }
    }
  }

  /** Lower-casing and trimming commute (neither creates nor removes white space). */
  lemma LowerTrim(s: string)
    ensures Lower(Trim(s)) == Trim(Lower(s))
  {
    LowerTrimStart(s);
    LowerTrimEnd(TrimStart(s));
  }

  lemma LowerIdempotent(s: string)
    ensures Lower(Lower(s)) == Lower(s)
  {
  }

  /** `s.toLowerCase().trim()`: the normal form of headers, keys and keywords. */
  function Key(s: string): string {
    Trim(Lower(s))
  }

  lemma KeyEmpty()
    ensures Key([]) == []
  {
    assert Lower([]) == [];
  }

  /** Normalising twice is normalising once. */
  lemma KeyIdempotent(s: string)
    ensures Key(Key(s)) == Key(s)
  {
    LowerTrim(Lower(s));
    LowerIdempotent(s);
    TrimIdempotent(Lower(s));
  }

  predicate StartsWith(s: string, p: string) {
    |p| <= |s| && s[..|p|] == p
  }

  predicate EndsWith(s: string, p: string) {
    |p| <= |s| && s[|s| - |p|..] == p
  }

  /** The index of the first occurrence of `p` in `s` at or after `from`. */
  function IndexOfFrom(s: string, p: string, from: nat): (r: Option<nat>)
    decreases |s| - from
    ensures r.Some? ==> from <= r.value && r.value + |p| <= |s| && StartsWith(s[r.value..], p)
    ensures r.Some? ==> forall k :: from <= k < r.value ==> !StartsWith(s[k..], p)
    ensures r.None? ==> forall k :: from <= k <= |s| ==> !StartsWith(s[k..], p)
  {
    if from > |s| then None
    else if StartsWith(s[from..], p) then Some(from)
    else IndexOfFrom(s, p, from + 1)
  }

  function IndexOf(s: string, p: string): Option<nat> {
    IndexOfFrom(s, p, 0)
  }

  /** String.prototype.includes. */
  predicate Contains(s: string, p: string) {
    IndexOf(s, p).Some?
  }

  /** String.prototype.replace with a string pattern: only the first occurrence. */
  function ReplaceFirst(s: string, p: string, v: string): (r: string)
    ensures IndexOf(s, p).None? ==> r == s
    ensures IndexOf(s, p).Some? ==>
      var i := IndexOf(s, p).value; r == s[..i] + v + s[i + |p|..]
  {
    match IndexOf(s, p)
    case None => s
    case Some(i) => s[..i] + v + s[i + |p|..]
  }

  /** A global replace of a non-empty pattern, scanning left to right without rescanning output. */
  function ReplaceAll(s: string, p: string, v: string): (r: string)
    requires |p| > 0
  {
    if |s| == 0 then []
    else if StartsWith(s, p) then v + ReplaceAll(s[|p|..], p, v)
    else [s[0]] + ReplaceAll(s[1..], p, v)
  }

  /** Text without the pattern is left unchanged by a global replace. */
  lemma {:induction false} ReplaceAllAbsent(s: string, p: string, v: string)
    requires |p| > 0
    requires !Contains(s, p)
    ensures ReplaceAll(s, p, v) == s
  {
    if |s| > 0 {
      assert !StartsWith(s[0..], p);
      assert s[0..] == s;
      assert !Contains(s[1..], p) by {
        forall k | 0 <= k <= |s[1..]| ensures !StartsWith(s[1..][k..], p) {
          assert s[1..][k..] == s[k + 1..];
        }
      }
      ReplaceAllAbsent(s[1..], p, v);
    }
  }

  /** Replacing a pattern by itself changes nothing. */
  lemma {:induction false} ReplaceAllSelf(s: string, p: string)
    requires |p| > 0
    ensures ReplaceAll(s, p, p) == s
  {
    if |s| > 0 {
      if StartsWith(s, p) {
        ReplaceAllSelf(s[|p|..], p);
        assert s == p + s[|p|..];
      } else {
        ReplaceAllSelf(s[1..], p);
        assert s == [s[0]] + s[1..];
      }
    }
  }

  /** `t.includes(p)` fails exactly when `p` starts at no position of `t`. */
  lemma NotContains(t: string, p: string)
    ensures !Contains(t, p) <==> forall k :: 0 <= k <= |t| ==> !StartsWith(t[k..], p)
  {
  }

  /** String.prototype.split with a non-empty string separator: the texts
      between the leftmost non-overlapping occurrences of `p`. */
  function SplitOn(s: string, p: string): (r: seq<string>)
    requires |p| > 0
    ensures |r| > 0 && r[0] <= s
    decreases |s|
  {
    if |s| == 0 then [[]]
    else if StartsWith(s, p) then [[]] + SplitOn(s[|p|..], p)
    else
      var rest := SplitOn(s[1..], p);
      [[s[0]] + rest[0]] + rest[1..]
  }

  /** A global replace is a split on the pattern joined with the replacement:
      every occurrence is replaced and the text between them is kept. */
  lemma {:induction false} ReplaceAllSplit(s: string, p: string, v: string)
    requires |p| > 0
    ensures ReplaceAll(s, p, v) == Join(SplitOn(s, p), v)
    decreases |s|
  {
    if |s| > 0 {
      if StartsWith(s, p) {
        var rest := SplitOn(s[|p|..], p);
        ReplaceAllSplit(s[|p|..], p, v);
        assert ([[]] + rest)[1..] == rest;
      } else {
        var rest := SplitOn(s[1..], p);
        ReplaceAllSplit(s[1..], p, v);
        JoinPrepend([s[0]], rest, v);
      }
    }
  }

  /** Joining the pieces with the pattern gives the text back. */
  lemma SplitOnJoin(s: string, p: string)
    requires |p| > 0
    ensures Join(SplitOn(s, p), p) == s
  {
    ReplaceAllSplit(s, p, p);
    ReplaceAllSelf(s, p);
  }

  /** No piece between the occurrences contains the pattern. */
  lemma {:induction false} SplitOnPieces(s: string, p: string)
    requires |p| > 0
    ensures forall i :: 0 <= i < |SplitOn(s, p)| ==> !Contains(SplitOn(s, p)[i], p)
    decreases |s|
  {
    if |s| == 0 {
      NotContains([], p);
    } else if StartsWith(s, p) {
      var rest := SplitOn(s[|p|..], p);
      SplitOnPieces(s[|p|..], p);
      NotContains([], p);
      assert SplitOn(s, p) == [[]] + rest;
    } else {
      var rest := SplitOn(s[1..], p);
      SplitOnPieces(s[1..], p);
      var h := [s[0]] + rest[0];
      NotContains(rest[0], p);
      forall k | 0 <= k <= |h| ensures !StartsWith(h[k..], p) {
        if k == 0 {
          PrefixStartsWith(h, s, p);
        } else {
          assert h[k..] == rest[0][k - 1..];
        }
      }
      NotContains(h, p);
      assert SplitOn(s, p) == [h] + rest[1..];
    }
  }

  /** A text that starts with `p` passes that on to every extension. */
  lemma PrefixStartsWith(h: string, s: string, p: string)
    requires h <= s
    ensures StartsWith(h, p) ==> StartsWith(s, p)
  {
    if StartsWith(h, p) {
      assert s[..|p|] == h[..|p|];
    }
  }

  /** Glueing a text to the first part glues it to the join. */
  lemma JoinPrepend(x: string, parts: seq<string>, sep: string)
    requires |parts| > 0
    ensures Join([x + parts[0]] + parts[1..], sep) == x + Join(parts, sep)
  {
    if |parts| > 1 {
      assert ([x + parts[0]] + parts[1..])[1..] == parts[1..];
    }
  }

  /** The lines of a split never contain the separator. */
  lemma {:induction false} SplitNoSeparator(s: string, c: char)
    ensures forall i :: 0 <= i < |Split(s, c)| ==> c !in Split(s, c)[i]
  {
    if |s| > 0 {
      SplitNoSeparator(s[1..], c);
    }
  }

  /** Array.prototype.join. */
  function Join(parts: seq<string>, sep: string): string {
    if |parts| == 0 then []
    else if |parts| == 1 then parts[0]
    else parts[0] + sep + Join(parts[1..], sep)
  }

  /** String.prototype.split with a one-character separator. */
  function Split(s: string, c: char): (r: seq<string>)
    ensures |r| > 0
  {
    if |s| == 0 then [[]]
    else
      var rest := Split(s[1..], c);
      if s[0] == c then [[]] + rest else [[s[0]] + rest[0]] + rest[1..]
  }

  lemma {:induction false} SplitPlain(s: string, c: char)
    requires c !in s
    ensures Split(s, c) == [s]
  {
    if |s| > 0 {
      SplitPlain(s[1..], c);
      assert s == [s[0]] + s[1..];
    }
  }

  lemma {:induction false} SplitAt(x: string, c: char, y: string)
    requires c !in x
    ensures Split(x + [c] + y, c) == [x] + Split(y, c)
  {
    if |x| == 0 {
      assert x + [c] + y == [c] + y;
      assert ([c] + y)[1..] == y;
    } else {
      assert (x + [c] + y)[1..] == x[1..] + [c] + y;
      SplitAt(x[1..], c, y);
      assert x == [x[0]] + x[1..];
    }
  }

  /** Joining lines that do not contain the separator and splitting again gives the lines back. */
  lemma {:induction false} SplitJoin(parts: seq<string>, c: char)
    requires |parts| > 0
    requires forall i :: 0 <= i < |parts| ==> c !in parts[i]
    ensures Split(Join(parts, [c]), c) == parts
  {
    if |parts| == 1 {
      SplitPlain(parts[0], c);
    } else {
      SplitJoin(parts[1..], c);
      SplitAt(parts[0], c, Join(parts[1..], [c]));
      assert parts == [parts[0]] + parts[1..];
    }
  }

  lemma {:induction false} JoinLast(parts: seq<string>, sep: string)
    requires |parts| > 0
    ensures EndsWith(Join(parts, sep), parts[|parts| - 1])
  {
    if |parts| > 1 {
      JoinLast(parts[1..], sep);
    }
  }

  /** Joining one more part adds the separator and that part. */
  lemma {:induction false} JoinSnoc(parts: seq<string>, x: string, sep: string)
    requires |parts| > 0
    ensures Join(parts + [x], sep) == Join(parts, sep) + sep + x
  {
    if |parts| == 1 {
      assert (parts + [x])[1..] == [x];
    } else {
      assert (parts + [x])[1..] == parts[1..] + [x];
      JoinSnoc(parts[1..], x, sep);
    }
  }

  /** With no separator, joining is concatenation: one more part is appended as it is. */
  lemma JoinEmptySnoc(parts: seq<string>, x: string)
    ensures Join(parts + [x], "") == Join(parts, "") + x
  {
    if |parts| == 0 {
      assert parts + [x] == [x];
    } else {
      JoinSnoc(parts, x, "");
    }
  }

  /** With no separator, joining distributes over concatenation of the parts. */
  lemma {:induction false} JoinEmptyAppend(a: seq<string>, b: seq<string>)
    ensures Join(a + b, "") == Join(a, "") + Join(b, "")
    decreases |b|
  {
    if |b| == 0 {
      assert a + b == a;
    } else {
      var n := |b| - 1;
      assert a + b == (a + b[..n]) + [b[n]];
      assert b == b[..n] + [b[n]];
      JoinEmptyAppend(a, b[..n]);
      JoinEmptySnoc(a + b[..n], b[n]);
      JoinEmptySnoc(b[..n], b[n]);
    }
  }

  // ---------------------------------------------------------------- numbers

  predicate IsDigit(c: char) {
    '0' <= c <= '9'
  }

  function DigitValue(c: char): nat
    requires IsDigit(c)
  {
    c as int - '0' as int
  }

  function DigitChar(d: nat): (c: char)
    requires d < 10
    ensures IsDigit(c) && DigitValue(c) == d
  {
    ('0' as int + d) as char
  }

  function DigitsValue(ds: string): nat
    requires forall i :: 0 <= i < |ds| ==> IsDigit(ds[i])
  {
    if |ds| == 0 then 0 else DigitsValue(ds[..|ds| - 1]) * 10 + DigitValue(ds[|ds| - 1])
  }

  function Pow10(k: nat): (r: nat)
    ensures r > 0
  {
    if k == 0 then 1 else 10 * Pow10(k - 1)
  }

  /** Number.prototype.toString for a non-negative integer. */
  function NatToString(n: nat): (r: string)
    ensures |r| > 0
    ensures forall i :: 0 <= i < |r| ==> IsDigit(r[i])
    ensures DigitsValue(r) == n
  {
    if n < 10 then [DigitChar(n)]
    else
      var r := NatToString(n / 10) + [DigitChar(n % 10)];
      assert r[..|r| - 1] == NatToString(n / 10);
      r
  }

  /** Number.prototype.toString for an integer. */
  function IntToString(n: int): string {
    if n < 0 then "-" + NatToString(-n) else NatToString(n)
  }

  /** String.prototype.padStart(2, '0'). */
  function PadStart2(s: string): (r: string)
    ensures |s| >= 2 ==> r == s
  {
    if |s| >= 2 then s else seq(2 - |s|, _ => '0') + s
  }

  /** The number of leading decimal digits of `s`. */
  function DigitRun(s: string): (n: nat)
    ensures n <= |s|
    ensures forall i :: 0 <= i < n ==> IsDigit(s[i])
    ensures n < |s| ==> !IsDigit(s[n])
  {
    if |s| > 0 && IsDigit(s[0]) then 1 + DigitRun(s[1..]) else 0
  }

  /** A decimal numeral: optional sign, integer digits, optional '.' and fraction digits. */
  datatype Numeral = Numeral(negative: bool, whole: string, fraction: string, length: nat)

  /** The longest prefix of `s` that reads as a decimal numeral, as parseFloat reads it
      (exponents and "Infinity" are not modelled). */
  function ScanNumeral(s: string): (r: Option<Numeral>)
    ensures r.Some? ==> 0 < r.value.length <= |s|
    ensures r.Some? ==> |r.value.whole| + |r.value.fraction| > 0
    ensures r.Some? ==> forall i :: 0 <= i < |r.value.whole| ==> IsDigit(r.value.whole[i])
    ensures r.Some? ==> forall i :: 0 <= i < |r.value.fraction| ==> IsDigit(r.value.fraction[i])
  {
    var sign := if |s| > 0 && (s[0] == '+' || s[0] == '-') then 1 else 0;
    var w := DigitRun(s[sign..]);
    var afterWhole := sign + w;
    var dot := afterWhole < |s| && s[afterWhole] == '.';
    var f := if dot then DigitRun(s[afterWhole + 1..]) else 0;
    if w + f == 0 then None
    else
      Some(Numeral(sign == 1 && s[0] == '-', s[sign..afterWhole],
                   if dot then s[afterWhole + 1..afterWhole + 1 + f] else [],
                   afterWhole + (if dot then 1 + f else 0)))
  }

  function NumeralValue(n: Numeral): real
    requires forall i :: 0 <= i < |n.whole| ==> IsDigit(n.whole[i])
    requires forall i :: 0 <= i < |n.fraction| ==> IsDigit(n.fraction[i])
  {
    var magnitude := DigitsValue(n.whole) as real
                     + DigitsValue(n.fraction) as real / Pow10(|n.fraction|) as real;
    if n.negative then -magnitude else magnitude
  }

  /** parseFloat: leading white space skipped, then the longest numeral prefix; None is NaN. */
  function ParseFloat(s: string): Option<real> {
    var t := TrimStart(s);
    match ScanNumeral(t)
    case None => None
    case Some(n) => Some(NumeralValue(n))
  }

  /** Number(s) for a string: blank is 0, otherwise the whole trimmed text must be a numeral. */
  function ToNumber(s: string): Option<real> {
    NumberOfTrimmed(Trim(s))
  }

  /** Number() once the surrounding white space is gone: the empty text is
      zero, otherwise the text must be one numeral. */
  function NumberOfTrimmed(t: string): Option<real> {
    if t == [] then Some(0.0)
    else match ScanNumeral(t)
      case Some(n) => if n.length == |t| then Some(NumeralValue(n)) else None
      case None => None
  }

  /** A run made only of digits is read to its end. */
  lemma {:induction false} DigitRunAll(ds: string)
    requires forall i :: 0 <= i < |ds| ==> IsDigit(ds[i])
    ensures DigitRun(ds) == |ds|
  {
    if |ds| > 0 {
      DigitRunAll(ds[1..]);
    }
  }

  lemma ScanDigits(ds: string)
    requires |ds| > 0 && forall i :: 0 <= i < |ds| ==> IsDigit(ds[i])
    ensures ScanNumeral(ds) == Some(Numeral(false, ds, [], |ds|))
  {
    assert !(ds[0] == '+' || ds[0] == '-');
    assert ds[0..] == ds && ds[0..|ds|] == ds;
    DigitRunAll(ds);
  }

  lemma TrimDigits(ds: string)
    requires |ds| > 0 && IsDigit(ds[0]) && IsDigit(ds[|ds| - 1])
    ensures Trim(ds) == ds
  {
    TrimNoop(ds);
  }

  /** Number() of a non-empty string of digits is its decimal value. */
  lemma ToNumberDigits(ds: string)
    requires |ds| > 0 && AllDigits(ds)
    ensures ToNumber(ds) == Some(DigitsValue(ds) as real)
  {
    TrimDigits(ds);
    DigitsNumber(ds);
  }

  predicate AllDigits(ds: string) {
    forall i :: 0 <= i < |ds| ==> IsDigit(ds[i])
  }

  /** A run of digits is one whole numeral worth its decimal value. */
  lemma DigitsNumber(ds: string)
    requires |ds| > 0 && AllDigits(ds)
    ensures NumberOfTrimmed(ds) == Some(DigitsValue(ds) as real)
  {
    ScanDigits(ds);
    NumeralWhole(Numeral(false, ds, [], |ds|));
  }

  lemma NumeralWhole(n: Numeral)
    requires forall i :: 0 <= i < |n.whole| ==> IsDigit(n.whole[i])
    requires n.fraction == [] && !n.negative
    ensures NumeralValue(n) == DigitsValue(n.whole) as real
  {
    assert DigitsValue(n.fraction) == 0 && Pow10(0) == 1;
  }
}
