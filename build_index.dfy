/** The pure parts of scripts/build-index.js: reading the `--name: value;`
    declarations of a style sheet into a name-to-value table, resolving a
    variable through its `var(--other)` references with a depth bound, and
    the canonical/alternate link lines written into index.html. The same two
    CSS functions appear, character for character, in scripts/build-pages.js;
    this module models both copies. */
module BuildIndex {
  import opened Collections
  import opened Text

  // ------------------------------------------------------------ parseCSSVariables

  /** `[\w-]`: the characters of a variable name. */
  predicate IsNameChar(c: char) {
    ('a' <= c <= 'z') || ('A' <= c <= 'Z') || ('0' <= c <= '9') || c == '_' || c == '-'
  }

  /** The end of the run of name characters that starts at `j`. */
  function NameEnd(s: string, j: nat): (r: nat)
    requires j <= |s|
    decreases |s| - j
    ensures j <= r <= |s|
  {
    if j < |s| && IsNameChar(s[j]) then NameEnd(s, j + 1) else j
  }

  /** The run `NameEnd` finds is made of name characters and stops at the
      first other character. */
  lemma {:induction false} NameEndSpec(s: string, j: nat)
    requires j <= |s|
    decreases |s| - j
    ensures forall k :: j <= k < NameEnd(s, j) ==> IsNameChar(s[k])
    ensures NameEnd(s, j) < |s| ==> !IsNameChar(s[NameEnd(s, j)])
  {
    if j < |s| && IsNameChar(s[j]) {
      NameEndSpec(s, j + 1);
    }
  }

  /** The index of the first `c` at or after `j`. */
  function IndexFrom(s: string, c: char, j: nat): (r: Option<nat>)
    requires j <= |s|
    decreases |s| - j
    ensures r.Some? ==> j <= r.value < |s|
  {
    if j == |s| then None
    else if s[j] == c then Some(j)
    else IndexFrom(s, c, j + 1)
  }

  /** `IndexFrom` finds the first occurrence, and none when there is none. */
  lemma {:induction false} IndexFromSpec(s: string, c: char, j: nat)
    requires j <= |s|
    decreases |s| - j
    ensures IndexFrom(s, c, j).Some? ==>
              s[IndexFrom(s, c, j).value] == c && forall k :: j <= k < IndexFrom(s, c, j).value ==> s[k] != c
    ensures IndexFrom(s, c, j).None? ==> forall k :: j <= k < |s| ==> s[k] != c
  {
    if j < |s| && s[j] != c {
      IndexFromSpec(s, c, j + 1);
    }
  }

  /** A match of the declaration pattern: the captured name, the captured
      value text, and the index just behind the match. */
  datatype Declaration = Declaration(name: string, text: string, end: nat)

  /** The entry a match makes: its name and its trimmed value. */
  function Entry(d: Declaration): (string, string) {
    (d.name, Trim(d.text))
  }

  /** One attempt of `/--([\w-]+):\s*([^;]+);/` at index `i`: `--`, a
      non-empty run of name characters, `:`, then at least one character
      before the next `;`. Because `\s*` gives characters back when it has
      to, the value text is taken here from the `:` to that `;`; the spaces
      `\s*` would have taken are removed by `trim()` all the same. */
  function MatchAt(css: string, i: nat): (r: Option<Declaration>)
    requires i <= |css|
    ensures r.Some? ==> i < r.value.end <= |css|
  {
    if i + 2 > |css| || css[i] != '-' || css[i + 1] != '-' then None
    else
      var n := NameEnd(css, i + 2);
      if n == i + 2 || n == |css| || css[n] != ':' then None
      else
        match IndexFrom(css, ';', n + 1)
        case None => None
        case Some(k) =>
          if k == n + 1 then None
          else Some(Declaration(css[i + 2..n], css[n + 1..k], k + 1))
  }

  /** The matches the global `regex.exec` loop finds from index `i` on, in
      order: after a match the search resumes behind it, otherwise one
      character on. */
  function Matches(css: string, i: nat): seq<Declaration>
    requires i <= |css|
    decreases |css| - i
  {
    if i == |css| then []
    else
      match MatchAt(css, i)
      case Some(d) => [d] + Matches(css, d.end)
      case None => Matches(css, i + 1)
  }

  /** The (name, value) pairs the loop assigns, in order. */
  function Declarations(css: string): seq<(string, string)> {
    Map(Matches(css, 0), Entry)
  }

  /** The table `parseCSSVariables` returns: a later declaration of a name
      overwrites an earlier one. */
  function CssVariables(css: string): map<string, string> {
    LastWins(Declarations(css))
  }

  /** `parseCSSVariables`: the scan, assigning `variables[name] = value` for
      each match in turn. */
  method ParseCssVariables(css: string) returns (variables: map<string, string>)
    ensures variables == CssVariables(css)
  {
    variables := map[];
    ghost var found: seq<Declaration> := [];
    var i := 0;
    while i < |css|
      invariant 0 <= i <= |css|
      invariant found + Matches(css, i) == Matches(css, 0)
      invariant variables == LastWins(Map(found, Entry))
      decreases |css| - i
    {
      var m, next := NextMatch(css, i);
      if m.Some? {
        var e := Entry(m.value);
        MoveFound(found, m.value, Matches(css, next), Matches(css, 0));
        MapSnoc(found, m.value, Entry);
        LastWinsSnoc(Map(found, Entry), e);
        variables := variables[e.0 := e.1];
        found := found + [m.value];
      }
      i := next;
    }
    assert found + [] == found;
  }

  /** One `regex.exec` attempt at index `i`: the match and the index behind
      it, or nothing and the next index. */
  method NextMatch(css: string, i: nat) returns (m: Option<Declaration>, next: nat)
    requires i < |css|
    ensures i < next <= |css|
    ensures m.Some? ==> Matches(css, i) == [m.value] + Matches(css, next)
    ensures m.None? ==> Matches(css, i) == Matches(css, next)
  {
    m := MatchAt(css, i);
    next := if m.Some? then m.value.end else i + 1;
  }

  lemma MoveFound<T>(found: seq<T>, e: T, rest: seq<T>, all: seq<T>)
    requires found + ([e] + rest) == all
    ensures (found + [e]) + rest == all
  {
    assert (found + [e]) + rest == found + ([e] + rest);
  }

  /** What a declaration the scan reports looks like: a non-empty name of
      name characters and a trimmed value without `;`. */
  ghost predicate WellFormed(decl: (string, string)) {
    decl.0 != [] && (forall k :: 0 <= k < |decl.0| ==> IsNameChar(decl.0[k]))
    && Trimmed(decl.1) && ';' !in decl.1
  }

  lemma MatchWellFormed(css: string, i: nat)
    requires i <= |css| && MatchAt(css, i).Some?
    ensures WellFormed(Entry(MatchAt(css, i).value))
  {
    var n := NameEnd(css, i + 2);
    var k := IndexFrom(css, ';', n + 1).value;
    NameEndSpec(css, i + 2);
    IndexFromSpec(css, ';', n + 1);
    TrimChars(css[n + 1..k]);
  }

  /** Every match the scan finds makes a well-formed entry. */
  lemma {:induction false} MatchesWellFormed(css: string, i: nat)
    requires i <= |css|
    decreases |css| - i
    ensures forall j :: 0 <= j < |Matches(css, i)| ==> WellFormed(Entry(Matches(css, i)[j]))
  {
    if i < |css| {
      match MatchAt(css, i)
      case Some(d) =>
        MatchesWellFormed(css, d.end);
        MatchWellFormed(css, i);
      case None =>
        MatchesWellFormed(css, i + 1);
    }
  }

  /** Every reported declaration is well formed. */
  lemma DeclarationsWellFormed(css: string)
    ensures forall j :: 0 <= j < |Declarations(css)| ==> WellFormed(Declarations(css)[j])
  {
    MatchesWellFormed(css, 0);
    forall j | 0 <= j < |Declarations(css)| ensures WellFormed(Declarations(css)[j]) {
      MapAt(Matches(css, 0), Entry, j);
    }
  }

  /** A name is defined exactly when some declaration names it, and its value
      is the one of the last such declaration. */
  lemma LastDeclarationWins(css: string, j: nat)
    requires j < |Declarations(css)|
    requires forall k :: j < k < |Declarations(css)| ==> Declarations(css)[k].0 != Declarations(css)[j].0
    ensures Declarations(css)[j].0 in CssVariables(css)
    ensures CssVariables(css)[Declarations(css)[j].0] == Declarations(css)[j].1
  {
    LastWinsValue(Declarations(css), j);
  }

  /** The style-sheet text `--name: value;`. */
  function DeclText(decl: (string, string)): string {
    "--" + decl.0 + ": " + decl.1 + ";"
  }

  /** The text of each declaration in turn. */
  function Declare(decls: seq<(string, string)>): string {
    if |decls| == 0 then []
    else DeclText(decls[0]) + Declare(decls[1..])
  }

  lemma {:induction false} NameEndOf(s: string, j: nat, e: nat)
    requires j <= e < |s|
    requires forall k :: j <= k < e ==> IsNameChar(s[k])
    requires !IsNameChar(s[e])
    decreases e - j
    ensures NameEnd(s, j) == e
  {
    if j < e {
      NameEndOf(s, j + 1, e);
    }
  }

  lemma {:induction false} IndexFromOf(s: string, c: char, j: nat, k: nat)
    requires j <= k < |s| && s[k] == c
    requires forall m :: j <= m < k ==> s[m] != c
    decreases k - j
    ensures IndexFrom(s, c, j) == Some(k)
  {
    if j < k {
      IndexFromOf(s, c, j + 1, k);
    }
  }

  /** Where the parts of a written declaration stand in its text. */
  lemma DeclTextLayout(decl: (string, string))
    ensures |DeclText(decl)| == |decl.0| + |decl.1| + 5
    ensures DeclText(decl)[0] == '-' && DeclText(decl)[1] == '-'
    ensures DeclText(decl)[2..2 + |decl.0|] == decl.0
    ensures DeclText(decl)[2 + |decl.0|] == ':'
    ensures DeclText(decl)[3 + |decl.0|..4 + |decl.0| + |decl.1|] == [' '] + decl.1
    ensures DeclText(decl)[4 + |decl.0| + |decl.1|] == ';'
  {
    var (name, value) := decl;
    assert DeclText(decl) == "--" + name + ":" + ([' '] + value) + ";";
  }

  /** The pattern matches a written declaration as a whole, wherever it
      stands. */
  lemma MatchDeclText(css: string, i: nat, decl: (string, string))
    requires WellFormed(decl)
    requires i + |DeclText(decl)| <= |css| && css[i..i + |DeclText(decl)|] == DeclText(decl)
    ensures MatchAt(css, i) == Some(Declaration(decl.0, [' '] + decl.1, i + |DeclText(decl)|))
  {
    var (name, value) := decl;
    var n := i + 2 + |name|;
    var k := n + 2 + |value|;
    DeclTextParts(css, i, decl);
    NameEndAfter(css, i + 2, n, name);
    IndexAfter(css, n + 1, k, [' '] + value);
    MatchAtOf(css, i, n, k);
  }

  /** Where the parts of a declaration written at `i` stand in the text. */
  lemma DeclTextParts(css: string, i: nat, decl: (string, string))
    requires i + |DeclText(decl)| <= |css| && css[i..i + |DeclText(decl)|] == DeclText(decl)
    ensures i + |DeclText(decl)| == i + |decl.0| + |decl.1| + 5
    ensures css[i] == '-' && css[i + 1] == '-'
    ensures css[i + 2..i + 2 + |decl.0|] == decl.0
    ensures css[i + 2 + |decl.0|] == ':'
    ensures css[i + 3 + |decl.0|..i + 4 + |decl.0| + |decl.1|] == [' '] + decl.1
    ensures css[i + 4 + |decl.0| + |decl.1|] == ';'
  {
    var (name, value) := decl;
    var t := DeclText(decl);
    DeclTextLayout(decl);
    var n := i + 2 + |name|;
    var k := n + 2 + |value|;
    assert css[i] == '-' && css[i + 1] == '-' by {
      SubSlice(css, i, t, 0, 2);
      assert css[i] == css[i..i + 2][0] && css[i + 1] == css[i..i + 2][1];
    }
    SubSlice(css, i, t, 2, 2 + |name|);
    SubSlice(css, i, t, 3 + |name|, 4 + |name| + |value|);
    assert css[n] == ':' && css[k] == ';' by {
      SubSlice(css, i, t, 2 + |name|, 5 + |name| + |value|);
      assert css[n] == css[n..i + |t|][0] && css[k] == css[n..i + |t|][k - n];
    }
  }

  /** A name followed by `:` ends where the name does. */
  lemma NameEndAfter(css: string, j: nat, n: nat, name: string)
    requires j <= n < |css| && css[j..n] == name && css[n] == ':'
    requires forall m :: 0 <= m < |name| ==> IsNameChar(name[m])
    ensures NameEnd(css, j) == n
  {
    forall m | j <= m < n ensures IsNameChar(css[m]) {
      assert css[m] == css[j..n][m - j];
    }
    NameEndOf(css, j, n);
  }

  /** A text without `;` followed by `;` is searched through to that `;`. */
  lemma IndexAfter(css: string, j: nat, k: nat, text: string)
    requires j <= k < |css| && css[j..k] == text && css[k] == ';' && ';' !in text
    ensures IndexFrom(css, ';', j) == Some(k)
  {
    forall m | j <= m < k ensures css[m] != ';' {
      assert css[m] == css[j..k][m - j];
    }
    IndexFromOf(css, ';', j, k);
  }

  /** A window of the text that equals `t` agrees with `t` on each part. */
  lemma SubSlice(css: string, i: nat, t: string, a: nat, b: nat)
    requires i + |t| <= |css| && css[i..i + |t|] == t
    requires a <= b <= |t|
    ensures css[i + a..i + b] == t[a..b]
  {
    forall j | 0 <= j < b - a ensures css[i + a..i + b][j] == t[a..b][j] {
      assert t[a..b][j] == t[a + j] == css[i..i + |t|][a + j];
    }
  }

  /** The match `MatchAt` reports once its parts are found. */
  lemma MatchAtOf(css: string, i: nat, n: nat, k: nat)
    requires i + 2 < n < k < |css|
    requires css[i] == '-' && css[i + 1] == '-' && NameEnd(css, i + 2) == n && css[n] == ':'
    requires IndexFrom(css, ';', n + 1) == Some(k) && k > n + 1
    ensures MatchAt(css, i) == Some(Declaration(css[i + 2..n], css[n + 1..k], k + 1))
  {
  }

  /** The scan reads back the declarations written from index `i` on, in
      order. */
  lemma {:induction false} DeclareRoundTrip(css: string, i: nat, decls: seq<(string, string)>)
    requires forall j :: 0 <= j < |decls| ==> WellFormed(decls[j])
    requires i <= |css| && css[i..] == Declare(decls)
    decreases |decls|
    ensures Map(Matches(css, i), Entry) == decls
  {
    if |decls| > 0 {
      SliceParts(css, i, DeclText(decls[0]), Declare(decls[1..]));
      var d := ScanDeclText(css, i, decls[0]);
      DeclareRoundTrip(css, d.end, decls[1..]);
      MapCons(d, Matches(css, d.end), Entry);
      ConsSplit(decls);
    }
  }

  /** Cutting a text that ends in `a + b` behind `a`. */
  lemma SliceParts(css: string, i: nat, a: string, b: string)
    requires i <= |css| && css[i..] == a + b
    ensures i + |a| <= |css|
    ensures css[i..i + |a|] == a && css[i + |a|..] == b
  {
    assert css[i..i + |a|] == css[i..][..|a|];
    assert css[i + |a|..] == css[i..][|a|..];
  }

  lemma ConsSplit<T>(s: seq<T>)
    requires |s| > 0
    ensures s == [s[0]] + s[1..]
  {
  }

  /** A written declaration is matched, its entry is the declaration itself,
      and the scan resumes behind it. */
  lemma ScanDeclText(css: string, i: nat, decl: (string, string)) returns (d: Declaration)
    requires WellFormed(decl)
    requires i + |DeclText(decl)| <= |css| && css[i..i + |DeclText(decl)|] == DeclText(decl)
    ensures d.end == i + |DeclText(decl)|
    ensures Matches(css, i) == [d] + Matches(css, d.end)
    ensures Entry(d) == decl
  {
    d := Declaration(decl.0, [' '] + decl.1, i + |DeclText(decl)|);
    MatchDeclText(css, i, decl);
    ScanMatch(css, i, d);
    EntryOfWritten(decl, d);
  }

  /** The entry of the match on a written declaration is that declaration. */
  lemma EntryOfWritten(decl: (string, string), d: Declaration)
    requires Trimmed(decl.1)
    requires d.name == decl.0 && d.text == [' '] + decl.1
    ensures Entry(d) == decl
  {
    TrimLeadingSpace(decl.1);
  }

  lemma ScanMatch(css: string, i: nat, d: Declaration)
    requires i < |css| && MatchAt(css, i) == Some(d)
    ensures Matches(css, i) == [d] + Matches(css, d.end)
  {
  }

  /** Reading the declarations of a written style sheet gives them back, and
      the table of their last values. */
  lemma DeclareTable(decls: seq<(string, string)>)
    requires forall j :: 0 <= j < |decls| ==> WellFormed(decls[j])
    ensures Declarations(Declare(decls)) == decls
    ensures CssVariables(Declare(decls)) == LastWins(decls)
  {
    DeclareRoundTrip(Declare(decls), 0, decls);
  }

  // ------------------------------------------------------------ resolveCSSVariable

  /** `value.match(/var\(--([^)]+)\)/)`: the leftmost `var(--` followed by a
      non-empty run of characters other than `)` and then `)`; the captured
      name. */
  function VarRef(v: string): (r: Option<string>)
    ensures r.Some? ==> r.value != [] && ')' !in r.value
  {
    VarRefFrom(v, 0)
  }

  /** The same search started at index `i`. */
  function VarRefFrom(v: string, i: nat): (r: Option<string>)
    requires i <= |v|
    decreases |v| - i
    ensures r.Some? ==> r.value != [] && ')' !in r.value
  {
    if i + 6 > |v| then None
    else if v[i..i + 6] == "var(--" then
      match IndexFrom(v, ')', i + 6)
      case Some(k) =>
        if k > i + 6 then
          IndexFromSpec(v, ')', i + 6);
          NotInSlice(v, ')', i + 6, k);
          Some(v[i + 6..k])
        else VarRefFrom(v, i + 1)
      case None => VarRefFrom(v, i + 1)
    else VarRefFrom(v, i + 1)
  }

  lemma NotInSlice(s: string, c: char, a: nat, b: nat)
    requires a <= b <= |s|
    requires forall m :: a <= m < b ==> s[m] != c
    ensures c !in s[a..b]
  {
  }

  /** The value `var(--name)` refers to `name`. */
  lemma VarRefOf(name: string)
    requires name != [] && ')' !in name
    ensures VarRef("var(--" + name + ")") == Some(name)
  {
    var v := "var(--" + name + ")";
    assert v[0..6] == "var(--";
    assert v[6..6 + |name|] == name;
    forall m | 6 <= m < 6 + |name| ensures v[m] != ')' {
      assert v[m] == name[m - 6];
    }
    IndexFromOf(v, ')', 6, 6 + |name|);
  }

  /** The deepest `depth` at which a lookup is still made. */
  const MaxDepth: nat := 10

  /** `resolveCSSVariable(name, variables, depth)`: null beyond the depth
      bound and for a missing or empty variable; a value referring to another
      variable resolves that one a level deeper; any other value is the
      answer. An answer is always a non-empty value of the table that refers
      to nothing. */
  function ResolveCssVariable(name: string, vars: map<string, string>, depth: nat): (r: Option<string>)
    decreases if depth <= MaxDepth then MaxDepth + 1 - depth else 0
    ensures depth > MaxDepth ==> r.None?
    ensures (name !in vars || vars[name] == []) ==> r.None?
    ensures r.Some? ==> r.value != [] && VarRef(r.value).None? && r.value in vars.Values
  {
    if depth > MaxDepth then None
    else if name !in vars || vars[name] == [] then None
    else
      match VarRef(vars[name])
      case Some(ref) => ResolveCssVariable(ref, vars, depth + 1)
      case None => Some(vars[name])
  }

  /** A set of names each of which is defined as a reference to another of
      the set: a cycle of `var()` references, or a chain into one. */
  ghost predicate ReferencesWithin(vars: map<string, string>, names: set<string>) {
    forall n :: n in names ==>
      n in vars && vars[n] != [] && VarRef(vars[n]).Some? && VarRef(vars[n]).value in names
  }

  /** A name caught in such a set resolves to null: the depth bound stops the
      recursion. */
  lemma {:induction false} ResolveCycle(vars: map<string, string>, names: set<string>, name: string, depth: nat)
    requires ReferencesWithin(vars, names) && name in names
    ensures ResolveCssVariable(name, vars, depth) == None
    decreases if depth <= MaxDepth then MaxDepth + 1 - depth else 0
  {
    if depth <= MaxDepth {
      ResolveCycle(vars, names, VarRef(vars[name]).value, depth + 1);
    }
  }

  /** A variable defined as a reference to itself resolves to null. */
  lemma ResolveSelfReference(vars: map<string, string>, name: string, depth: nat)
    requires name != [] && ')' !in name
    requires name in vars && vars[name] == "var(--" + name + ")"
    ensures ResolveCssVariable(name, vars, depth) == None
  {
    VarRefOf(name);
    ResolveCycle(vars, {name}, name, depth);
  }

  /** Starting higher up never loses an answer: what resolves with less
      depth left also resolves, to the same value, with more. */
  lemma {:induction false} ResolveDeeper(name: string, vars: map<string, string>, depth: nat)
    requires ResolveCssVariable(name, vars, depth + 1).Some?
    ensures ResolveCssVariable(name, vars, depth) == ResolveCssVariable(name, vars, depth + 1)
    decreases if depth <= MaxDepth then MaxDepth + 1 - depth else 0
  {
    match VarRef(vars[name])
    case Some(ref) => ResolveDeeper(ref, vars, depth + 1);
    case None =>
  }

  // ------------------------------------------------------------ generateHreflangTags

  /** The URL of a language's version of the page: the site root for the
      default language, `/?lang=<lang>` for the others. */
  function LangUrl(baseUrl: string, defaultLanguage: string, lang: string): string {
    if lang == defaultLanguage then baseUrl + "/" else baseUrl + "/?lang=" + lang
  }

  function CanonicalLine(baseUrl: string): string {
    "    <link rel=\"canonical\" href=\"" + baseUrl + "/\">"
  }

  function AlternateLine(lang: string, url: string): string {
    "    <link rel=\"alternate\" hreflang=\"" + lang + "\" href=\"" + url + "\">"
  }

  /** One alternate line per supported language, in list order. */
  function AlternateLines(baseUrl: string, defaultLanguage: string, langs: seq<string>): (r: seq<string>)
    ensures |r| == |langs|
    ensures forall i :: 0 <= i < |langs| ==>
              r[i] == AlternateLine(langs[i], LangUrl(baseUrl, defaultLanguage, langs[i]))
  {
    if |langs| == 0 then []
    else
      var n := |langs| - 1;
      AlternateLines(baseUrl, defaultLanguage, langs[..n])
        + [AlternateLine(langs[n], LangUrl(baseUrl, defaultLanguage, langs[n]))]
  }

  /** The lines of the link block: canonical first, then the alternates, then
      x-default. */
  function HreflangLines(baseUrl: string, defaultLanguage: string, langs: seq<string>): seq<string> {
    [CanonicalLine(baseUrl)] + AlternateLines(baseUrl, defaultLanguage, langs)
      + [AlternateLine("x-default", baseUrl + "/")]
  }

  /** `generateHreflangTags`: the lines pushed one by one, joined with `\n`. */
  method GenerateHreflangTags(baseUrl: string, defaultLanguage: string, langs: seq<string>)
    returns (tags: string)
    ensures tags == Join(HreflangLines(baseUrl, defaultLanguage, langs), "\n")
  {
    var lines := [CanonicalLine(baseUrl)];
    var i := 0;
    while i < |langs|
      invariant 0 <= i <= |langs|
      invariant lines == [CanonicalLine(baseUrl)] + AlternateLines(baseUrl, defaultLanguage, langs[..i])
    {
      var url := if langs[i] == defaultLanguage then baseUrl + "/" else baseUrl + "/?lang=" + langs[i];
      PrefixSnoc(langs, i);
      lines := lines + [AlternateLine(langs[i], url)];
      i := i + 1;
    }
    assert langs[..i] == langs;
    lines := lines + [AlternateLine("x-default", baseUrl + "/")];
    tags := Join(lines, "\n");
  }

  /** The block has one line per language plus two: canonical first and
      x-default last, both at the site root, and the alternates in list
      order between them. */
  lemma HreflangShape(baseUrl: string, defaultLanguage: string, langs: seq<string>)
    ensures var lines := HreflangLines(baseUrl, defaultLanguage, langs);
            |lines| == |langs| + 2
            && lines[0] == CanonicalLine(baseUrl)
            && lines[|langs| + 1] == AlternateLine("x-default", baseUrl + "/")
            && forall i :: 0 <= i < |langs| ==>
                 lines[i + 1] == AlternateLine(langs[i], LangUrl(baseUrl, defaultLanguage, langs[i]))
  {
  }

  /** Only the default language is sent to the site root. */
  lemma RootIsDefault(baseUrl: string, defaultLanguage: string, lang: string)
    ensures LangUrl(baseUrl, defaultLanguage, lang) == baseUrl + "/" <==> lang == defaultLanguage
  {
    if lang != defaultLanguage {
      assert |LangUrl(baseUrl, defaultLanguage, lang)| > |baseUrl + "/"|;
    }
  }

  lemma CanonicalNoBreak(baseUrl: string)
    requires '\n' !in baseUrl
    ensures '\n' !in CanonicalLine(baseUrl)
  {
  }

  lemma AlternateNoBreak(lang: string, url: string)
    requires '\n' !in lang && '\n' !in url
    ensures '\n' !in AlternateLine(lang, url)
  {
  }

  lemma LangUrlNoBreak(baseUrl: string, defaultLanguage: string, lang: string)
    requires '\n' !in baseUrl && '\n' !in lang
    ensures '\n' !in LangUrl(baseUrl, defaultLanguage, lang)
  {
  }

  /** With no line break in the base URL or the language codes, splitting the
      block at `\n` gives back its lines. */
  lemma HreflangSplit(baseUrl: string, defaultLanguage: string, langs: seq<string>)
    requires '\n' !in baseUrl
    requires forall i :: 0 <= i < |langs| ==> '\n' !in langs[i]
    ensures Split(Join(HreflangLines(baseUrl, defaultLanguage, langs), "\n"), '\n')
              == HreflangLines(baseUrl, defaultLanguage, langs)
  {
    var first, last := CanonicalLine(baseUrl), AlternateLine("x-default", baseUrl + "/");
    var alts := AlternateLines(baseUrl, defaultLanguage, langs);
    CanonicalNoBreak(baseUrl);
    AlternateNoBreak("x-default", baseUrl + "/");
    forall j | 0 <= j < |alts| ensures '\n' !in alts[j] {
      LangUrlNoBreak(baseUrl, defaultLanguage, langs[j]);
      AlternateNoBreak(langs[j], LangUrl(baseUrl, defaultLanguage, langs[j]));
    }
    var lines := [first] + alts + [last];
    assert lines == HreflangLines(baseUrl, defaultLanguage, langs);
    forall i | 0 <= i < |lines| ensures '\n' !in lines[i] {
      if 0 < i <= |alts| {
        assert lines[i] == alts[i - 1];
      }
    }
    SplitJoin(lines, '\n');
  }
}
