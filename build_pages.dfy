/** scripts/build-pages.js: the parts of the static-page build that compute
    text. The CSS variable lookup is the one of build-index.js (module
    BuildIndex); the file reading and the HTML page template are not part of
    this model. */
module BuildPages {
  import opened Collections
  import opened Text
  import opened Values

  // ---------------------------------------------------------------- template placeholders

  /** The sections of config.json the placeholders read: `legal`, `branding`
      and `contact`, each a map from field to text. A missing section is the
      empty map; a missing field reads as the empty string. */
  datatype TemplateConfig = TemplateConfig(legal: Record, branding: Record, contact: Record)

  /** The six placeholders, in the order `replaceTemplateVars` replaces them. */
  const Placeholders: seq<string> :=
    ["{{companyName}}", "{{address}}", "{{email}}", "{{phone}}", "{{vatNumber}}", "{{lastUpdated}}"]

  /** The value of each placeholder: the `legal` field, else the `branding`
      or `contact` field, else a fixed default. `today` is the current date
      as `YYYY-MM-DD`, read from the clock by the build. */
  function TemplateValues(config: TemplateConfig, today: string): seq<string> {
    [ Or(Get(config.legal, "companyName"), Or(Get(config.branding, "barName"), "Company Name")),
      Or(Get(config.legal, "address"), Or(Get(config.contact, "address"), "Address")),
      Or(Get(config.legal, "email"), Or(Get(config.contact, "email"), "email@example.com")),
      Or(Get(config.legal, "phone"), Or(Get(config.contact, "phone"), "")),
      Or(Get(config.legal, "vatNumber"), ""),
      Or(Get(config.legal, "lastUpdated"), today) ]
  }

  /** The placeholder/value pairs, in order. */
  function Replacements(config: TemplateConfig, today: string): (r: seq<(string, string)>)
    ensures |r| == 6 && Patterns(r)
    ensures forall i :: 0 <= i < 6 ==> r[i].0 == Placeholders[i] && r[i].1 == TemplateValues(config, today)[i]
  {
    var v := TemplateValues(config, today);
    [ (Placeholders[0], v[0]), (Placeholders[1], v[1]), (Placeholders[2], v[2]),
      (Placeholders[3], v[3]), (Placeholders[4], v[4]), (Placeholders[5], v[5]) ]
  }

  /** Every pattern is non-empty. */
  predicate Patterns(rs: seq<(string, string)>) {
    forall i :: 0 <= i < |rs| ==> |rs[i].0| > 0
  }

  /** Each pair in turn replaces every occurrence of its placeholder in the
      text the previous pairs left. */
  function ApplyAll(s: string, rs: seq<(string, string)>): string
    requires Patterns(rs)
  {
    if |rs| == 0 then s
    else
      var n := |rs| - 1;
      ReplaceAll(ApplyAll(s, rs[..n]), rs[n].0, rs[n].1)
  }

  /** `replaceTemplateVars`: a global replace of each placeholder by its
      value. A brace-escaped placeholder as a regular expression matches
      exactly the placeholder text. */
  method ReplaceTemplateVars(content: string, config: TemplateConfig, today: string) returns (result: string)
    ensures result == ApplyAll(content, Replacements(config, today))
  {
    var replacements := Replacements(config, today);
    result := content;
    for i := 0 to |replacements|
      invariant result == ApplyAll(content, replacements[..i])
    {
      var (placeholder, value) := replacements[i];
      assert replacements[..i + 1][..i] == replacements[..i];
      result := ReplaceAll(result, placeholder, value);
    }
    assert replacements[..|replacements|] == replacements;
  }

  /** Text in which none of the patterns occurs passes through unchanged. */
  lemma {:induction false} ApplyAllAbsent(s: string, rs: seq<(string, string)>)
    requires Patterns(rs)
    requires forall i :: 0 <= i < |rs| ==> !Contains(s, rs[i].0)
    ensures ApplyAll(s, rs) == s
  {
    if |rs| > 0 {
      var n := |rs| - 1;
      ApplyAllAbsent(s, rs[..n]);
      ReplaceAllAbsent(s, rs[n].0, rs[n].1);
    }
  }

  /** A page without placeholders is left as it is. */
  lemma TemplateWithoutPlaceholders(content: string, config: TemplateConfig, today: string)
    requires forall i :: 0 <= i < |Placeholders| ==> !Contains(content, Placeholders[i])
    ensures ApplyAll(content, Replacements(config, today)) == content
  {
    ApplyAllAbsent(content, Replacements(config, today));
  }

  /** Each step of the replacement cuts the text at every occurrence of the
      placeholder and puts the value in each cut: the pieces between hold no
      placeholder and, glued back with the placeholder, give the text the
      step started from. */
  lemma TemplateStep(content: string, config: TemplateConfig, today: string, k: nat)
    requires k < 6
    ensures var before := ApplyAll(content, Replacements(config, today)[..k]);
            var pieces := SplitOn(before, Placeholders[k]);
            && ApplyAll(content, Replacements(config, today)[..k + 1])
                 == Join(pieces, TemplateValues(config, today)[k])
            && Join(pieces, Placeholders[k]) == before
            && forall i :: 0 <= i < |pieces| ==> !Contains(pieces[i], Placeholders[k])
  {
    var rs := Replacements(config, today);
    var before := ApplyAll(content, rs[..k]);
    assert rs[..k + 1][..k] == rs[..k];
    ReplaceAllSplit(before, Placeholders[k], TemplateValues(config, today)[k]);
    SplitOnJoin(before, Placeholders[k]);
    SplitOnPieces(before, Placeholders[k]);
  }

  /** With nothing configured, every placeholder takes its default. */
  lemma TemplateDefaults(today: string)
    ensures TemplateValues(TemplateConfig(map[], map[], map[]), today)
              == ["Company Name", "Address", "email@example.com", "", "", today]
  {
  }

  /** The `legal` section wins wherever it gives a value. */
  lemma LegalWins(config: TemplateConfig, today: string, fields: seq<string>)
    requires fields == ["companyName", "address", "email", "phone", "vatNumber", "lastUpdated"]
    requires forall i :: 0 <= i < 6 ==> Get(config.legal, fields[i]) != []
    ensures forall i :: 0 <= i < 6 ==> TemplateValues(config, today)[i] == config.legal[fields[i]]
  {
  }

  /** Without a `legal` section the bar name and the contact details are
      used, and the empty ones give way to the defaults. */
  lemma WithoutLegal(config: TemplateConfig, today: string)
    requires config.legal == map[]
    ensures TemplateValues(config, today)
              == [ Or(Get(config.branding, "barName"), "Company Name"),
                   Or(Get(config.contact, "address"), "Address"),
                   Or(Get(config.contact, "email"), "email@example.com"),
                   Get(config.contact, "phone"),
                   "",
                   today ]
  {
  }

  // ---------------------------------------------------------------- language switch

  /** Array.prototype.indexOf: the first position of `x`, or -1. */
  function IndexIn(s: seq<string>, x: string): (r: int)
    ensures -1 <= r < |s|
    ensures r >= 0 ==> s[r] == x && forall j :: 0 <= j < r ==> s[j] != x
    ensures r < 0 ==> x !in s
  {
    if |s| == 0 then -1
    else if s[0] == x then 0
    else
      var k := IndexIn(s[1..], x);
      if k < 0 then -1 else k + 1
  }

  /** `settings.languages.supported || ['en', 'it']`: a configured list is
      used even when empty. */
  function SupportedLanguages(configured: Option<seq<string>>): (r: seq<string>)
    ensures configured.Some? ==> r == configured.value
    ensures configured.None? ==> r == ["en", "it"]
  {
    match configured
    case None => ["en", "it"]
    case Some(langs) => langs
  }

  /** The language the switch button leads to: the one after the page's
      language in the supported list, wrapping around. An empty list gives
      `undefined`. Both operands of `%` are non-negative here, so the
      remainder agrees with JavaScript's. */
  function NextLanguage(supported: seq<string>, lang: string): (r: Option<string>)
    ensures r.None? <==> |supported| == 0
    ensures r.Some? ==> r.value in supported
  {
    if |supported| == 0 then None
    else Some(supported[(IndexIn(supported, lang) + 1) % |supported|])
  }

  /** From the first occurrence of a language the switch moves one step on,
      from the last position back to the first. */
  lemma NextAfter(supported: seq<string>, i: nat)
    requires i < |supported|
    requires forall j :: 0 <= j < i ==> supported[j] != supported[i]
    ensures NextLanguage(supported, supported[i])
              == Some(if i + 1 < |supported| then supported[i + 1] else supported[0])
  {
    var r := IndexIn(supported, supported[i]);
    assert supported[i] in supported;
    assert r >= 0 && supported[r] == supported[i];
    assert r == i;
    if i + 1 < |supported| {
      assert (r + 1) % |supported| == i + 1;
    } else {
      assert (r + 1) % |supported| == 0;
    }
  }

  /** A language not in the list switches to the first one. */
  lemma NextUnlisted(supported: seq<string>, lang: string)
    requires |supported| > 0 && lang !in supported
    ensures NextLanguage(supported, lang) == Some(supported[0])
  {
  }

  /** In a list without repeats and with at least two languages, the switch
      always leads to another language. */
  lemma NextDiffers(supported: seq<string>, lang: string)
    requires |supported| >= 2
    requires forall i, j :: 0 <= i < j < |supported| ==> supported[i] != supported[j]
    requires lang in supported
    ensures NextLanguage(supported, lang) != Some(lang)
  {
    var i := IndexIn(supported, lang);
    assert i >= 0;
    var n := (i + 1) % |supported|;
    WrapMoves(i, |supported|);
    assert NextLanguage(supported, lang) == Some(supported[n]);
    if n < i {
      assert supported[n] != supported[i];
    } else {
      assert supported[i] != supported[n];
    }
  }

  /** One step on a cycle of at least two positions moves. */
  lemma WrapMoves(i: int, m: int)
    requires 0 <= i < m && m >= 2
    ensures 0 <= (i + 1) % m < m && (i + 1) % m != i
  {
    if i + 1 < m {
      assert (i + 1) % m == i + 1;
    } else {
      assert (i + 1) % m == 0;
    }
  }

  /** With the default list the switch toggles English and Italian. */
  lemma DefaultToggle()
    ensures NextLanguage(SupportedLanguages(None), "en") == Some("it")
    ensures NextLanguage(SupportedLanguages(None), "it") == Some("en")
  {
    NextAfter(["en", "it"], 0);
    NextAfter(["en", "it"], 1);
  }

  // ---------------------------------------------------------------- canonical and hreflang URLs

  /** The address of a static page in one language. */
  function PageUrl(baseUrl: string, lang: string, slug: string): string {
    baseUrl + "/pages/" + lang + "/" + slug
  }

  /** The canonical URL: the English page for `en`, the Italian one for any
      other language. */
  function CanonicalUrl(baseUrl: string, lang: string, slug: string): string {
    if lang == "en" then PageUrl(baseUrl, "en", slug) else PageUrl(baseUrl, "it", slug)
  }

  /** The alternate links of the page head: Italian, English, and English
      again as x-default. */
  function PageAlternates(baseUrl: string, slug: string): seq<(string, string)> {
    [("it", PageUrl(baseUrl, "it", slug)), ("en", PageUrl(baseUrl, "en", slug)),
     ("x-default", PageUrl(baseUrl, "en", slug))]
  }

  /** An English or Italian page is its own canonical page, and the canonical
      URL is always one of the alternates. */
  lemma CanonicalOwnPage(baseUrl: string, lang: string, slug: string)
    ensures lang == "en" || lang == "it" ==> CanonicalUrl(baseUrl, lang, slug) == PageUrl(baseUrl, lang, slug)
    ensures exists i :: 0 <= i < 3 && PageAlternates(baseUrl, slug)[i].1 == CanonicalUrl(baseUrl, lang, slug)
  {
    if lang == "en" {
      assert PageAlternates(baseUrl, slug)[1].1 == CanonicalUrl(baseUrl, lang, slug);
    } else {
      assert PageAlternates(baseUrl, slug)[0].1 == CanonicalUrl(baseUrl, lang, slug);
    }
  }

  /** Any language other than English falls back to the Italian page. */
  lemma CanonicalFallback(baseUrl: string, lang: string, slug: string)
    requires lang != "en"
    ensures CanonicalUrl(baseUrl, lang, slug) == CanonicalUrl(baseUrl, "it", slug)
  {
  }

  /** The English and the Italian page have different canonical URLs. */
  lemma CanonicalDistinct(baseUrl: string, slug: string)
    ensures CanonicalUrl(baseUrl, "en", slug) != CanonicalUrl(baseUrl, "it", slug)
  {
    var k := |baseUrl| + 7;
    assert CanonicalUrl(baseUrl, "en", slug)[k] == 'e';
    assert CanonicalUrl(baseUrl, "it", slug)[k] == 'i';
  }

  // ---------------------------------------------------------------- paragraph pass

  /** The openings of a line the pass leaves as it is. */
  predicate IsBlockTag(t: string) {
    StartsWith(t, "<h") || StartsWith(t, "<ul") || StartsWith(t, "</ul") || StartsWith(t, "<li")
    || StartsWith(t, "<hr") || StartsWith(t, "<blockquote")
  }

  /** One line of the paragraph pass: a blank line becomes empty, a line
      opening with a tag is kept untrimmed, other text is wrapped, trimmed,
      in a paragraph. */
  function ProcessLine(line: string): string {
    var t := Trim(line);
    if t == [] then []
    else if IsBlockTag(t) then line
    else if !StartsWith(t, "<") then "<p>" + t + "</p>"
    else line
  }

  /** The paragraph pass over the lines of a text. */
  function Paragraphs(html: string): string {
    Join(Map(Split(html, '\n'), ProcessLine), "\n")
  }

  /** The paragraph-wrapping pass of `markdownToHtml`, after the regular
      expression rewrites. */
  method ParagraphPass(html: string) returns (out: string)
    ensures out == Paragraphs(html)
  {
    var lines := Split(html, '\n');
    var processedLines: seq<string> := [];
    for i := 0 to |lines|
      invariant processedLines == Map(lines[..i], ProcessLine)
    {
      var line := Trim(lines[i]);
      var next;
      if line == [] {
        next := [];
      } else if IsBlockTag(line) {
        next := lines[i];
      } else if !StartsWith(line, "<") {
        next := "<p>" + line + "</p>";
      } else {
        next := lines[i];
      }
      assert lines[..i + 1] == lines[..i] + [lines[i]];
      MapSnoc(lines[..i], lines[i], ProcessLine);
      processedLines := processedLines + [next];
    }
    assert lines[..|lines|] == lines;
    out := Join(processedLines, "\n");
  }

  /** Every block tag opens with `<`, so the tag list changes nothing: the
      line is kept whenever its trimmed text opens with `<`. */
  lemma ProcessLineRule(line: string)
    ensures var t := Trim(line);
            ProcessLine(line) == if t == [] then [] else if t[0] == '<' then line else "<p>" + t + "</p>"
  {
    var t := Trim(line);
    if t != [] {
      if |t| >= 2 {
        assert t[..2][0] == t[0];
      }
      if |t| >= 3 {
        assert t[..3][0] == t[0];
      }
      if |t| >= 4 {
        assert t[..4][0] == t[0];
      }
      if |t| >= 11 {
        assert t[..11][0] == t[0];
      }
      assert StartsWith(t, "<") <==> t[0] == '<';
    }
  }

  /** A paragraph is its own trim and opens with `<`. */
  lemma WrappedTrimmed(t: string)
    ensures Trim("<p>" + t + "</p>") == "<p>" + t + "</p>"
  {
    TrimNoop("<p>" + t + "</p>");
  }

  /** After the pass no line holds bare text: each one, trimmed, is empty or
      opens with a tag. */
  lemma ProcessLineMarkup(line: string)
    ensures var r := Trim(ProcessLine(line)); r == [] || r[0] == '<'
  {
    ProcessLineRule(line);
    WrappedTrimmed(Trim(line));
  }

  /** Running the pass on its own output changes nothing. */
  lemma ProcessLineIdempotent(line: string)
    ensures ProcessLine(ProcessLine(line)) == ProcessLine(line)
  {
    var t := Trim(line);
    ProcessLineRule(line);
    ProcessLineRule(ProcessLine(line));
    if t != [] && t[0] != '<' {
      WrappedTrimmed(t);
    } else if t == [] {
      assert Trim([]) == [];
    }
  }

  /** A processed line holds no line break when the line held none. */
  lemma ProcessLineNoBreak(line: string)
    requires '\n' !in line
    ensures '\n' !in ProcessLine(line)
  {
    TrimChars(line);
    ProcessLineRule(line);
  }

  /** The pass keeps the number of lines: the lines of the output are the
      processed lines of the input, one for one. */
  lemma ParagraphLines(html: string)
    ensures Split(Paragraphs(html), '\n') == Map(Split(html, '\n'), ProcessLine)
  {
    var lines := Split(html, '\n');
    var out := Map(lines, ProcessLine);
    SplitNoSeparator(html, '\n');
    forall i | 0 <= i < |out| ensures '\n' !in out[i] {
      MapAt(lines, ProcessLine, i);
      ProcessLineNoBreak(lines[i]);
    }
    SplitJoin(out, '\n');
  }

  /** The pass is idempotent. */
  lemma ParagraphsIdempotent(html: string)
    ensures Paragraphs(Paragraphs(html)) == Paragraphs(html)
  {
    var lines := Split(html, '\n');
    var once := Map(lines, ProcessLine);
    ParagraphLines(html);
    var twice := Map(once, ProcessLine);
    forall i | 0 <= i < |lines| ensures twice[i] == once[i] {
      MapAt(lines, ProcessLine, i);
      MapAt(once, ProcessLine, i);
      ProcessLineIdempotent(lines[i]);
    }
    assert twice == once;
  }
}
