/** scripts/build-seo.js: the robots.txt text (a fixed header, then either the
    crawling rules or a blanket `Disallow: /`, then the sitemap pointer) and
    the sitemap.xml text (one `<url>` entry per page group and language, each
    with its alternates and an x-default link). The configuration is a value
    and the build date a parameter; reading and writing the files is not
    modelled. */
module BuildSeo {
  import opened Collections
  import opened Text
  import opened Values

  // ------------------------------------------------------------ generateRobotsTxt

  function IndexingLabel(allow: bool): string {
    if allow then "ENABLED" else "DISABLED"
  }

  /** Where the switch lives. */
  const EditHint: string := "To change this, edit config/config.json -> seo.searchEngineIndexing"

  const FolderHint: string := "Disallow config and build files"

  const TabHint: string := "Prevent indexing of tab states (duplicate content)"

  /** A robots.txt comment line. */
  function Comment(text: string): string {
    "# " + text
  }

  /** The comment block and the user-agent line every robots.txt starts with. */
  function RobotsHeader(baseUrl: string, allow: bool): seq<string> {
    [ Comment("Robots.txt for ScomodoMenu"),
      Comment(baseUrl),
      "#",
      Comment("Search engine indexing: " + IndexingLabel(allow)),
      Comment(EditHint),
      "",
      "User-agent: *" ]
  }

  function Disallow(path: string): string {
    "Disallow: " + path
  }

  const AllowAll: string := "Allow: /"

  /** The folders of the build kept out of the index. */
  function FolderRules(): seq<string> {
    [ Disallow("/config/"), Disallow("/scripts/"), Disallow("/examples/"),
      Disallow("/content/"), Disallow("/node_modules/") ]
  }

  /** The tab query strings, which show the same content as the page. */
  function TabRules(): seq<string> {
    [ Disallow("/*?tab="), Disallow("/*&tab=") ]
  }

  /** The rules: crawling allowed except for the build folders and the tab
      query strings, or nothing allowed at all. */
  function RobotsRules(allow: bool): seq<string> {
    if allow then
      [AllowAll]
        + ["", Comment(FolderHint)]
        + FolderRules()
        + ["", Comment(TabHint)]
        + TabRules()
    else
      [Disallow("/")]
  }

  function SitemapLine(baseUrl: string): string {
    "Sitemap: " + baseUrl + "/sitemap.xml"
  }

  function RobotsFooter(baseUrl: string): seq<string> {
    [ "", Comment("Sitemap location"), SitemapLine(baseUrl), "" ]
  }

  function RobotsLines(baseUrl: string, allow: bool): seq<string> {
    RobotsHeader(baseUrl, allow) + RobotsRules(allow) + RobotsFooter(baseUrl)
  }

  /** `generateRobotsTxt`: the header lines, the rules pushed according to
      the indexing switch, the sitemap lines, joined with `\n`. */
  method GenerateRobotsTxt(baseUrl: string, allowIndexing: bool) returns (txt: string)
    ensures txt == Join(RobotsLines(baseUrl, allowIndexing), "\n")
  {
    var lines := RobotsHeader(baseUrl, allowIndexing);
    ghost var header := lines;
    if allowIndexing {
      lines := lines + [AllowAll];
      lines := lines + [""];
      lines := lines + [Comment(FolderHint)];
      lines := lines + [Disallow("/config/")];
      lines := lines + [Disallow("/scripts/")];
      lines := lines + [Disallow("/examples/")];
      lines := lines + [Disallow("/content/")];
      lines := lines + [Disallow("/node_modules/")];
      lines := lines + [""];
      lines := lines + [Comment(TabHint)];
      lines := lines + [Disallow("/*?tab=")];
      lines := lines + [Disallow("/*&tab=")];
    } else {
      lines := lines + [Disallow("/")];
    }
    assert lines == header + RobotsRules(allowIndexing);
    ghost var body := lines;
    lines := lines + [""];
    lines := lines + [Comment("Sitemap location")];
    lines := lines + [SitemapLine(baseUrl)];
    lines := lines + [""];
    assert lines == body + RobotsFooter(baseUrl);
    txt := Join(lines, "\n");
  }

  /** A crawler directive line. */
  predicate IsDirective(line: string) {
    StartsWith(line, "Allow:") || StartsWith(line, "Disallow:")
  }

  /** The directives a crawler obeys when indexing is on. */
  function AllowedDirectives(): seq<string> {
    [AllowAll] + FolderRules() + TabRules()
  }

  lemma DisallowDirective(path: string)
    ensures IsDirective(Disallow(path))
  {
    assert Disallow(path)[..9] == "Disallow:";
  }

  lemma AllDirectives(lines: seq<string>)
    requires forall i :: 0 <= i < |lines| ==> exists p :: lines[i] == Disallow(p)
    ensures Filter(lines, IsDirective) == lines
  {
    forall i | 0 <= i < |lines| ensures IsDirective(lines[i]) {
      var p :| lines[i] == Disallow(p);
      DisallowDirective(p);
    }
    FilterAll(lines, IsDirective);
  }

  lemma NotDirective(line: string)
    requires line == [] || (line[0] != 'A' && line[0] != 'D')
    ensures !IsDirective(line)
  {
    if |line| >= 6 {
      assert line[..6][0] == line[0];
    }
    if |line| >= 9 {
      assert line[..9][0] == line[0];
    }
  }

  /** None of the header or footer lines is a directive, whatever the base URL. */
  lemma FrameNotDirectives(baseUrl: string, allow: bool)
    ensures Filter(RobotsHeader(baseUrl, allow), IsDirective) == []
    ensures Filter(RobotsFooter(baseUrl), IsDirective) == []
  {
    var h := RobotsHeader(baseUrl, allow);
    forall i | 0 <= i < |h| ensures !IsDirective(h[i]) {
      NotDirective(h[i]);
    }
    FilterNone(h, IsDirective);
    var f := RobotsFooter(baseUrl);
    forall i | 0 <= i < |f| ensures !IsDirective(f[i]) {
      NotDirective(f[i]);
    }
    FilterNone(f, IsDirective);
  }

  /** A blank line and a comment are no directives. */
  lemma NoteNotDirectives(text: string)
    ensures Filter(["", Comment(text)], IsDirective) == []
  {
    NotDirective("");
    NotDirective(Comment(text));
    FilterNone(["", Comment(text)], IsDirective);
  }

  lemma AllowDirective()
    ensures Filter([AllowAll], IsDirective) == [AllowAll]
  {
    assert AllowAll[..6] == "Allow:";
    FilterAll([AllowAll], IsDirective);
  }

  lemma FolderDirectives()
    ensures Filter(FolderRules(), IsDirective) == FolderRules()
  {
    AllDirectives(FolderRules());
  }

  lemma TabDirectives()
    ensures Filter(TabRules(), IsDirective) == TabRules()
  {
    AllDirectives(TabRules());
  }

  /** A piece without directives between two pieces drops out of the
      filter. */
  lemma FilterAround(x: seq<string>, y: seq<string>, z: seq<string>, fx: seq<string>, fz: seq<string>)
    requires Filter(x, IsDirective) == fx && Filter(y, IsDirective) == [] && Filter(z, IsDirective) == fz
    ensures Filter(x + y + z, IsDirective) == fx + fz
  {
    FilterConcat(x, y, IsDirective);
    FilterConcat(x + y, z, IsDirective);
  }

  /** Filtering five pieces whose directives are known: the two notes drop
      out entirely. */
  lemma FilterPieces(a: seq<string>, b: seq<string>, c: seq<string>, d: seq<string>, e: seq<string>)
    requires Filter(a, IsDirective) == a && Filter(c, IsDirective) == c && Filter(e, IsDirective) == e
    requires Filter(b, IsDirective) == [] && Filter(d, IsDirective) == []
    ensures Filter(a + b + c + d + e, IsDirective) == a + c + e
  {
    FilterAround(a, b, c, a, c);
    FilterAround(a + b + c, d, e, a + c, e);
  }

  /** The directives of the rules, in order. */
  lemma RulesDirectives(allow: bool)
    ensures Filter(RobotsRules(allow), IsDirective) == if allow then AllowedDirectives() else [Disallow("/")]
  {
    if allow {
      AllowDirective();
      NoteNotDirectives(FolderHint);
      FolderDirectives();
      NoteNotDirectives(TabHint);
      TabDirectives();
      FilterPieces([AllowAll], ["", Comment(FolderHint)], FolderRules(), ["", Comment(TabHint)], TabRules());
    } else {
      AllDirectives([Disallow("/")]);
    }
  }

  /** The directives of robots.txt are exactly the rules: with indexing off,
      `Disallow: /` alone; with indexing on, `Allow: /`, the five build
      folders and the two tab patterns, in that order. So `Disallow: /` is
      present exactly when indexing is off and `Allow: /` exactly when it is
      on. */
  lemma RobotsDirectives(baseUrl: string, allow: bool)
    ensures Filter(RobotsLines(baseUrl, allow), IsDirective)
              == if allow then AllowedDirectives() else [Disallow("/")]
  {
    var h, r, f := RobotsHeader(baseUrl, allow), RobotsRules(allow), RobotsFooter(baseUrl);
    FrameNotDirectives(baseUrl, allow);
    RulesDirectives(allow);
    FilterConcat(h, r, IsDirective);
    FilterConcat(h + r, f, IsDirective);
  }

  /** The blanket rule is not among the rules of an open site. */
  lemma BlanketNotAllowed()
    ensures Disallow("/") !in AllowedDirectives()
  {
    assert |AllowAll| != |Disallow("/")|;
    NarrowerRule("/config/");
    NarrowerRule("/scripts/");
    NarrowerRule("/examples/");
    NarrowerRule("/content/");
    NarrowerRule("/node_modules/");
    NarrowerRule("/*?tab=");
    NarrowerRule("/*&tab=");
  }

  lemma NarrowerRule(path: string)
    requires |path| > 1
    ensures Disallow(path) != Disallow("/")
  {
    assert |Disallow(path)| > |Disallow("/")|;
  }

  /** `Disallow: /` is in robots.txt exactly when indexing is off, and
      `Allow: /` exactly when it is on. */
  lemma RobotsSwitch(baseUrl: string, allow: bool)
    ensures Disallow("/") in RobotsLines(baseUrl, allow) <==> !allow
    ensures AllowAll in RobotsLines(baseUrl, allow) <==> allow
  {
    var lines := RobotsLines(baseUrl, allow);
    RobotsDirectives(baseUrl, allow);
    DisallowDirective("/");
    assert IsDirective(AllowAll) by {
      assert AllowAll[..6] == "Allow:";
    }
    FilterMembers(lines, IsDirective, Disallow("/"));
    FilterMembers(lines, IsDirective, AllowAll);
    if allow {
      BlanketNotAllowed();
    } else {
      assert |AllowAll| != |Disallow("/")|;
    }
  }

  /** robots.txt ends with the sitemap pointer followed by an empty line. */
  lemma RobotsEnd(baseUrl: string, allow: bool)
    ensures EndsWith(Join(RobotsLines(baseUrl, allow), "\n"), SitemapLine(baseUrl) + "\n")
  {
    var lines := RobotsLines(baseUrl, allow);
    var n := |lines|;
    var init := lines[..n - 2];
    assert lines == init + [SitemapLine(baseUrl)] + [""];
    JoinSnoc(init, SitemapLine(baseUrl), "\n");
    JoinSnoc(init + [SitemapLine(baseUrl)], "", "\n");
    var txt := Join(lines, "\n");
    assert txt == (Join(init, "\n") + "\n") + (SitemapLine(baseUrl) + "\n");
  }

  /** The header says which way the switch is set. */
  lemma RobotsLabel(baseUrl: string, allow: bool)
    ensures RobotsLines(baseUrl, allow)[3] == Comment("Search engine indexing: ENABLED") <==> allow
  {
    if !allow {
      assert RobotsLines(baseUrl, allow)[3][26] == 'D';
    }
  }

  // ------------------------------------------------------------ generateSitemapXml

  /** The configuration fields the sitemap reads; an absent text field is
      the empty string, which `||` treats the same way. */
  datatype SeoConfig = SeoConfig(
    privacySlug: string,
    allergensSlug: string,
    defaultLanguage: string,
    supportedLanguages: Option<seq<string>>)

  /** The values after the fallbacks of `generateSitemapXml`. */
  datatype SitemapSettings = SitemapSettings(
    privacySlug: string, allergensSlug: string, defaultLanguage: string, languages: seq<string>)

  function Settings(config: SeoConfig): (s: SitemapSettings)
    ensures s.privacySlug != [] && s.allergensSlug != [] && s.defaultLanguage != []
    ensures config.privacySlug != [] ==> s.privacySlug == config.privacySlug
    ensures config.allergensSlug != [] ==> s.allergensSlug == config.allergensSlug
    ensures config.defaultLanguage != [] ==> s.defaultLanguage == config.defaultLanguage
    ensures config.supportedLanguages.Some? ==> s.languages == config.supportedLanguages.value
  {
    SitemapSettings(
      Or(config.privacySlug, "privacy-cookie-policy"),
      Or(config.allergensSlug, "allergens"),
      Or(config.defaultLanguage, "it"),
      if config.supportedLanguages.Some? then config.supportedLanguages.value else ["en", "it"])
  }

  /** A page with language variants: language to path, and its sitemap hints. */
  datatype PageGroup = PageGroup(urls: map<string, string>, priority: string, changefreq: string)

  function StaticPage(lang: string, slug: string): string {
    "/pages/" + lang + "/" + slug + ".html"
  }

  /** The groups in sitemap order: the menu, the privacy page, the allergens page. */
  function PageGroups(privacySlug: string, allergensSlug: string): seq<PageGroup> {
    [ PageGroup(map["it" := "/", "en" := "/?lang=en"], "1.0", "daily"),
      PageGroup(map["it" := StaticPage("it", privacySlug), "en" := StaticPage("en", privacySlug)], "0.5", "monthly"),
      PageGroup(map["it" := StaticPage("it", allergensSlug), "en" := StaticPage("en", allergensSlug)], "0.6", "monthly") ]
  }

  /** `group.urls[lang]` is truthy. */
  predicate HasUrl(g: PageGroup, lang: string) {
    lang in g.urls && g.urls[lang] != []
  }

  /** `group.urls[lang]` as string concatenation sees it: `undefined` when missing. */
  function UrlOf(g: PageGroup, lang: string): string {
    if lang in g.urls then g.urls[lang] else "undefined"
  }

  function AltLink(lang: string, href: string): string {
    "    <xhtml:link rel=\"alternate\" hreflang=\"" + lang + "\" href=\"" + href + "\"/>\n"
  }

  /** The languages of `langs` the group has a URL for, in list order. */
  function Variants(g: PageGroup, langs: seq<string>): seq<string> {
    Filter(langs, l => HasUrl(g, l))
  }

  function AltLinkOf(baseUrl: string, g: PageGroup): string -> string {
    l => AltLink(l, baseUrl + UrlOf(g, l))
  }

  /** The alternate links of an entry: one per listed language the group
      has a URL for. */
  function Alternates(baseUrl: string, g: PageGroup, langs: seq<string>): string {
    if |langs| == 0 then []
    else
      var n := |langs| - 1;
      Alternates(baseUrl, g, langs[..n])
        + (if HasUrl(g, langs[n]) then AltLink(langs[n], baseUrl + UrlOf(g, langs[n])) else [])
  }

  /** The opening of an entry: location, date, change frequency, priority. */
  function EntryHead(baseUrl: string, lastmod: string, g: PageGroup, lang: string): string {
    "  <url>\n"
      + "    <loc>" + baseUrl + UrlOf(g, lang) + "</loc>\n"
      + "    <lastmod>" + lastmod + "</lastmod>\n"
      + "    <changefreq>" + g.changefreq + "</changefreq>\n"
      + "    <priority>" + g.priority + "</priority>\n"
  }

  /** The x-default link: the default language's URL, or `undefined` glued
      to the base URL when the group has none for it. */
  function XDefault(baseUrl: string, g: PageGroup, defaultLanguage: string): string {
    AltLink("x-default", baseUrl + UrlOf(g, defaultLanguage))
  }

  /** One `<url>` entry: its head, the alternates, then x-default. */
  function UrlEntry(baseUrl: string, lastmod: string, g: PageGroup, lang: string,
                    langs: seq<string>, defaultLanguage: string): string {
    EntryHead(baseUrl, lastmod, g, lang) + Alternates(baseUrl, g, langs)
      + XDefault(baseUrl, g, defaultLanguage) + "  </url>\n"
  }

  /** The entry for `lang` when the group has a URL for it, nothing
      otherwise. */
  function VariantEntry(baseUrl: string, lastmod: string, g: PageGroup, lang: string,
                        langs: seq<string>, defaultLanguage: string): string {
    if HasUrl(g, lang) then UrlEntry(baseUrl, lastmod, g, lang, langs, defaultLanguage) else []
  }

  function EntryOf(baseUrl: string, lastmod: string, g: PageGroup, langs: seq<string>,
                   defaultLanguage: string): string -> string {
    l => UrlEntry(baseUrl, lastmod, g, l, langs, defaultLanguage)
  }

  /** The entries of one group for the listed languages `shown` it has a
      URL for; every entry lists the alternates of all of `langs`. */
  function GroupEntries(baseUrl: string, lastmod: string, g: PageGroup, shown: seq<string>,
                        langs: seq<string>, defaultLanguage: string): string {
    if |shown| == 0 then []
    else
      var n := |shown| - 1;
      GroupEntries(baseUrl, lastmod, g, shown[..n], langs, defaultLanguage)
        + VariantEntry(baseUrl, lastmod, g, shown[n], langs, defaultLanguage)
  }

  /** The entries of the groups, group after group. */
  function Entries(baseUrl: string, lastmod: string, groups: seq<PageGroup>,
                   langs: seq<string>, defaultLanguage: string): string {
    if |groups| == 0 then []
    else
      var n := |groups| - 1;
      Entries(baseUrl, lastmod, groups[..n], langs, defaultLanguage)
        + GroupEntries(baseUrl, lastmod, groups[n], langs, langs, defaultLanguage)
  }

  const XmlDeclaration: string := "<?xml version=\"1.0\" encoding=\"UTF-8\"?>\n"

  const UrlsetTag: string := "<urlset"

  const UrlsetAttributes: string := " xmlns=\"http://www.sitemaps.org/schemas/sitemap/0.9\"\n"

  const UrlsetLine: string := UrlsetTag + UrlsetAttributes

  const XhtmlLine: string := "        xmlns:xhtml=\"http://www.w3.org/1999/xhtml\">\n"

  const SitemapHead: string := XmlDeclaration + UrlsetLine + XhtmlLine

  const SitemapTail: string := "</urlset>\n"

  function Sitemap(baseUrl: string, lastmod: string, config: SeoConfig): string {
    var s := Settings(config);
    SitemapHead
      + Entries(baseUrl, lastmod, PageGroups(s.privacySlug, s.allergensSlug), s.languages, s.defaultLanguage)
      + SitemapTail
  }

  /** One more listed language adds `f` of it when the group has a URL for it. */
  lemma VariantsJoinSnoc(g: PageGroup, langs: seq<string>, f: string -> string)
    requires |langs| > 0
    ensures Join(Map(Variants(g, langs), f), "")
              == Join(Map(Variants(g, langs[..|langs| - 1]), f), "")
                 + (if HasUrl(g, langs[|langs| - 1]) then f(langs[|langs| - 1]) else [])
  {
    var n := |langs| - 1;
    var v := Variants(g, langs[..n]);
    assert Variants(g, langs) == v + (if HasUrl(g, langs[n]) then [langs[n]] else []);
    if HasUrl(g, langs[n]) {
      MapSnoc(v, langs[n], f);
      JoinEmptySnoc(Map(v, f), f(langs[n]));
    } else {
      assert Variants(g, langs) == v;
    }
  }

  /** An entry's alternates are one link per listed language the group has a
      URL for, in list order. */
  lemma {:induction false} AlternatesInOrder(baseUrl: string, g: PageGroup, langs: seq<string>)
    ensures Alternates(baseUrl, g, langs) == Join(Map(Variants(g, langs), AltLinkOf(baseUrl, g)), "")
  {
    if |langs| > 0 {
      AlternatesInOrder(baseUrl, g, langs[..|langs| - 1]);
      VariantsJoinSnoc(g, langs, AltLinkOf(baseUrl, g));
    }
  }

  /** A group gives one entry per listed language it has a URL for, in list
      order. */
  lemma {:induction false} GroupEntriesInOrder(baseUrl: string, lastmod: string, g: PageGroup,
                                               shown: seq<string>, langs: seq<string>, defaultLanguage: string)
    ensures GroupEntries(baseUrl, lastmod, g, shown, langs, defaultLanguage)
              == Join(Map(Variants(g, shown), EntryOf(baseUrl, lastmod, g, langs, defaultLanguage)), "")
  {
    if |shown| > 0 {
      GroupEntriesInOrder(baseUrl, lastmod, g, shown[..|shown| - 1], langs, defaultLanguage);
      VariantsJoinSnoc(g, shown, EntryOf(baseUrl, lastmod, g, langs, defaultLanguage));
    }
  }

  /** One more listed language adds its entry when the group has a URL for
      it. */
  lemma GroupEntriesSnoc(baseUrl: string, lastmod: string, g: PageGroup, langs: seq<string>, i: nat,
                         defaultLanguage: string)
    requires i < |langs|
    ensures GroupEntries(baseUrl, lastmod, g, langs[..i + 1], langs, defaultLanguage)
              == GroupEntries(baseUrl, lastmod, g, langs[..i], langs, defaultLanguage)
                 + VariantEntry(baseUrl, lastmod, g, langs[i], langs, defaultLanguage)
  {
    PrefixSnoc(langs, i);
  }


  /** One more listed language adds its link when the group has a URL for it. */
  lemma AlternatesSnoc(baseUrl: string, g: PageGroup, langs: seq<string>, i: nat, link: string)
    requires i < |langs|
    requires link == if HasUrl(g, langs[i]) then AltLink(langs[i], baseUrl + UrlOf(g, langs[i])) else []
    ensures Alternates(baseUrl, g, langs[..i + 1]) == Alternates(baseUrl, g, langs[..i]) + link
  {
    PrefixSnoc(langs, i);
  }

  /** Appending to an output that already ends a text extends that text. */
  lemma ConcatStep(xml: string, before: string, after: string, text: string, next: string, entry: string)
    requires before == xml + text
    requires after == before + entry
    requires next == text + entry
    ensures after == xml + next
  {
  }



  /** The inner loop of `generateSitemapXml`: the alternate link of every
      listed language the group has a URL for, appended to `xml`. */
  method AppendAlternates(xml: string, baseUrl: string, g: PageGroup, langs: seq<string>)
    returns (out: string)
    ensures out == xml + Alternates(baseUrl, g, langs)
  {
    out := xml;
    var i := 0;
    while i < |langs|
      invariant 0 <= i <= |langs|
      invariant out == xml + Alternates(baseUrl, g, langs[..i])
    {
      var altLang := langs[i];
      ghost var before := out;
      if altLang in g.urls && g.urls[altLang] != [] {
        var altUrl := baseUrl + g.urls[altLang];
        out := out + AltLink(altLang, altUrl);
      }
      ghost var link := if HasUrl(g, altLang) then AltLink(altLang, baseUrl + UrlOf(g, altLang)) else [];
      AlternatesSnoc(baseUrl, g, langs, i, link);
      ConcatStep(xml, before, out, Alternates(baseUrl, g, langs[..i]), Alternates(baseUrl, g, langs[..i + 1]), link);
      i := i + 1;
    }
    assert langs[..i] == langs;
  }

  /** One `<url>` entry appended to `xml`. */
  method AppendEntry(xml: string, baseUrl: string, lastmod: string, g: PageGroup, lang: string,
                     langs: seq<string>, defaultLanguage: string)
    returns (out: string)
    requires HasUrl(g, lang)
    ensures out == xml + UrlEntry(baseUrl, lastmod, g, lang, langs, defaultLanguage)
  {
    var entry := EntryHead(baseUrl, lastmod, g, lang);
    entry := AppendAlternates(entry, baseUrl, g, langs);
    var defaultUrl := baseUrl + UrlOf(g, defaultLanguage);
    entry := entry + AltLink("x-default", defaultUrl);
    entry := entry + "  </url>\n";
    out := xml + entry;
  }

  /** The body of the middle loop: the entry for `lang` when the group has
      a URL for it. */
  method AppendVariant(xml: string, baseUrl: string, lastmod: string, g: PageGroup, lang: string,
                       langs: seq<string>, defaultLanguage: string)
    returns (out: string)
    ensures out == xml + VariantEntry(baseUrl, lastmod, g, lang, langs, defaultLanguage)
  {
    out := xml;
    if lang in g.urls && g.urls[lang] != [] {
      out := AppendEntry(out, baseUrl, lastmod, g, lang, langs, defaultLanguage);
    }
  }

  /** The middle loop: the entries of one group, one per listed language it
      has a URL for. */
  method AppendGroup(xml: string, baseUrl: string, lastmod: string, g: PageGroup,
                     langs: seq<string>, defaultLanguage: string)
    returns (out: string)
    ensures out == xml + GroupEntries(baseUrl, lastmod, g, langs, langs, defaultLanguage)
  {
    out := xml;
    var i := 0;
    while i < |langs|
      invariant 0 <= i <= |langs|
      invariant out == xml + GroupEntries(baseUrl, lastmod, g, langs[..i], langs, defaultLanguage)
    {
      ghost var before := out;
      out := AppendVariant(out, baseUrl, lastmod, g, langs[i], langs, defaultLanguage);
      GroupEntriesSnoc(baseUrl, lastmod, g, langs, i, defaultLanguage);
      ConcatStep(xml, before, out, GroupEntries(baseUrl, lastmod, g, langs[..i], langs, defaultLanguage),
                 GroupEntries(baseUrl, lastmod, g, langs[..i + 1], langs, defaultLanguage),
                 VariantEntry(baseUrl, lastmod, g, langs[i], langs, defaultLanguage));
      i := i + 1;
    }
    assert langs[..i] == langs;
  }

  /** One more group adds its entries. */
  lemma EntriesSnoc(baseUrl: string, lastmod: string, groups: seq<PageGroup>, k: nat,
                    langs: seq<string>, defaultLanguage: string)
    requires k < |groups|
    ensures Entries(baseUrl, lastmod, groups[..k + 1], langs, defaultLanguage)
              == Entries(baseUrl, lastmod, groups[..k], langs, defaultLanguage)
                 + GroupEntries(baseUrl, lastmod, groups[k], langs, langs, defaultLanguage)
  {
    PrefixSnoc(groups, k);
  }

  /** The outer loop: the entries of every group, in order. */
  method AppendGroups(xml: string, baseUrl: string, lastmod: string, groups: seq<PageGroup>,
                      langs: seq<string>, defaultLanguage: string)
    returns (out: string)
    ensures out == xml + Entries(baseUrl, lastmod, groups, langs, defaultLanguage)
  {
    out := xml;
    var k := 0;
    while k < |groups|
      invariant 0 <= k <= |groups|
      invariant out == xml + Entries(baseUrl, lastmod, groups[..k], langs, defaultLanguage)
    {
      ghost var before := out;
      out := AppendGroup(out, baseUrl, lastmod, groups[k], langs, defaultLanguage);
      EntriesSnoc(baseUrl, lastmod, groups, k, langs, defaultLanguage);
      ConcatStep(xml, before, out, Entries(baseUrl, lastmod, groups[..k], langs, defaultLanguage),
                 Entries(baseUrl, lastmod, groups[..k + 1], langs, defaultLanguage),
                 GroupEntries(baseUrl, lastmod, groups[k], langs, langs, defaultLanguage));
      k := k + 1;
    }
    assert groups[..k] == groups;
  }

  /** `generateSitemapXml`: the configuration fallbacks, the three page
      groups, and their entries between the `<urlset>` opener and its
      closing tag. */
  method GenerateSitemapXml(baseUrl: string, lastmod: string, config: SeoConfig) returns (xml: string)
    ensures xml == Sitemap(baseUrl, lastmod, config)
  {
    var privacySlug := Or(config.privacySlug, "privacy-cookie-policy");
    var allergensSlug := Or(config.allergensSlug, "allergens");
    var defaultLang := Or(config.defaultLanguage, "it");
    var supportedLangs := if config.supportedLanguages.Some? then config.supportedLanguages.value else ["en", "it"];
    var pageGroups := PageGroups(privacySlug, allergensSlug);

    xml := XmlDeclaration;
    xml := xml + UrlsetLine;
    xml := xml + XhtmlLine;
    xml := AppendGroups(xml, baseUrl, lastmod, pageGroups, supportedLangs, defaultLang);
    xml := xml + SitemapTail;
  }

  // ------------------------------------------------------------ sitemap properties

  /** The sitemap opens with the XML declaration followed by `<urlset` and
      closes with `</urlset>` and a line break. */
  lemma SitemapFrame(baseUrl: string, lastmod: string, config: SeoConfig)
    ensures StartsWith(Sitemap(baseUrl, lastmod, config), XmlDeclaration + UrlsetTag)
    ensures EndsWith(Sitemap(baseUrl, lastmod, config), SitemapTail)
  {
    var s := Settings(config);
    FrameAround(Entries(baseUrl, lastmod, PageGroups(s.privacySlug, s.allergensSlug), s.languages, s.defaultLanguage));
  }

  lemma FrameAround(entries: string)
    ensures StartsWith(SitemapHead + entries + SitemapTail, XmlDeclaration + UrlsetTag)
    ensures EndsWith(SitemapHead + entries + SitemapTail, SitemapTail)
  {
    Around(XmlDeclaration, UrlsetTag, UrlsetAttributes, XhtmlLine, entries, SitemapTail);
  }

  lemma Around(a: string, b: string, c: string, d: string, e: string, t: string)
    ensures StartsWith(a + (b + c) + d + e + t, a + b)
    ensures EndsWith(a + (b + c) + d + e + t, t)
  {
    assert a + (b + c) + d + e + t == (a + b) + (c + d + e + t);
  }

  /** The languages the page groups have URLs for. */
  predicate PageLanguage(lang: string) {
    lang == "it" || lang == "en"
  }

  /** Every page group has a URL for exactly the two page languages. */
  lemma PageGroupVariants(privacySlug: string, allergensSlug: string, k: nat, langs: seq<string>)
    requires k < 3
    ensures Variants(PageGroups(privacySlug, allergensSlug)[k], langs) == Filter(langs, PageLanguage)
  {
    var g := PageGroups(privacySlug, allergensSlug)[k];
    forall i | 0 <= i < |langs| ensures HasUrl(g, langs[i]) == PageLanguage(langs[i]) {
    }
    FilterSame(langs, l => HasUrl(g, l), PageLanguage);
  }

  /** Three appends to an empty text give the three pieces in order. */
  lemma ConcatThree(e1: string, e2: string, e3: string, e0: string, x: string, y: string, z: string)
    requires e0 == [] && e1 == e0 + x && e2 == e1 + y && e3 == e2 + z
    ensures e3 == x + y + z
  {
  }

  lemma EntriesOfThree(baseUrl: string, lastmod: string, gs: seq<PageGroup>, langs: seq<string>,
                       defaultLanguage: string)
    requires |gs| == 3
    ensures Entries(baseUrl, lastmod, gs, langs, defaultLanguage)
              == GroupEntries(baseUrl, lastmod, gs[0], langs, langs, defaultLanguage)
                 + GroupEntries(baseUrl, lastmod, gs[1], langs, langs, defaultLanguage)
                 + GroupEntries(baseUrl, lastmod, gs[2], langs, langs, defaultLanguage)
  {
    EntriesSnoc(baseUrl, lastmod, gs, 0, langs, defaultLanguage);
    EntriesSnoc(baseUrl, lastmod, gs, 1, langs, defaultLanguage);
    EntriesSnoc(baseUrl, lastmod, gs, 2, langs, defaultLanguage);
    ConcatThree(Entries(baseUrl, lastmod, gs[..1], langs, defaultLanguage),
                Entries(baseUrl, lastmod, gs[..2], langs, defaultLanguage),
                Entries(baseUrl, lastmod, gs[..3], langs, defaultLanguage),
                Entries(baseUrl, lastmod, gs[..0], langs, defaultLanguage),
                GroupEntries(baseUrl, lastmod, gs[0], langs, langs, defaultLanguage),
                GroupEntries(baseUrl, lastmod, gs[1], langs, langs, defaultLanguage),
                GroupEntries(baseUrl, lastmod, gs[2], langs, langs, defaultLanguage));
    assert gs[..3] == gs;
  }

  /** The entries of one of the three page groups. */
  lemma PageGroupEntries(baseUrl: string, lastmod: string, privacySlug: string, allergensSlug: string,
                         k: nat, langs: seq<string>, defaultLanguage: string)
    requires k < 3
    ensures var g := PageGroups(privacySlug, allergensSlug)[k];
            GroupEntries(baseUrl, lastmod, g, langs, langs, defaultLanguage)
              == Join(Map(Filter(langs, PageLanguage), EntryOf(baseUrl, lastmod, g, langs, defaultLanguage)), "")
  {
    var g := PageGroups(privacySlug, allergensSlug)[k];
    GroupEntriesInOrder(baseUrl, lastmod, g, langs, langs, defaultLanguage);
    PageGroupVariants(privacySlug, allergensSlug, k, langs);
  }

  /** The entries of the three page groups: for each, in the order menu,
      privacy, allergens, one entry per supported language that is `it` or
      `en`, in the order of the supported list. */
  lemma PagesEntries(baseUrl: string, lastmod: string, privacySlug: string, allergensSlug: string,
                     langs: seq<string>, defaultLanguage: string)
    ensures
      var gs := PageGroups(privacySlug, allergensSlug);
      var shown := Filter(langs, PageLanguage);
      Entries(baseUrl, lastmod, gs, langs, defaultLanguage)
        == Join(Map(shown, EntryOf(baseUrl, lastmod, gs[0], langs, defaultLanguage)), "")
           + Join(Map(shown, EntryOf(baseUrl, lastmod, gs[1], langs, defaultLanguage)), "")
           + Join(Map(shown, EntryOf(baseUrl, lastmod, gs[2], langs, defaultLanguage)), "")
  {
    EntriesOfThree(baseUrl, lastmod, PageGroups(privacySlug, allergensSlug), langs, defaultLanguage);
    PageGroupEntries(baseUrl, lastmod, privacySlug, allergensSlug, 0, langs, defaultLanguage);
    PageGroupEntries(baseUrl, lastmod, privacySlug, allergensSlug, 1, langs, defaultLanguage);
    PageGroupEntries(baseUrl, lastmod, privacySlug, allergensSlug, 2, langs, defaultLanguage);
  }

  /** The sitemap lists the menu's entries, then the privacy page's, then the
      allergens page's; each group has exactly one entry per supported
      language that is `it` or `en`, in the order of the supported list. */
  lemma SitemapEntries(baseUrl: string, lastmod: string, config: SeoConfig)
    ensures
      var s := Settings(config);
      var gs := PageGroups(s.privacySlug, s.allergensSlug);
      var shown := Filter(s.languages, PageLanguage);
      Sitemap(baseUrl, lastmod, config)
        == SitemapHead
           + (Join(Map(shown, EntryOf(baseUrl, lastmod, gs[0], s.languages, s.defaultLanguage)), "")
              + Join(Map(shown, EntryOf(baseUrl, lastmod, gs[1], s.languages, s.defaultLanguage)), "")
              + Join(Map(shown, EntryOf(baseUrl, lastmod, gs[2], s.languages, s.defaultLanguage)), ""))
           + SitemapTail
  {
    var s := Settings(config);
    PagesEntries(baseUrl, lastmod, s.privacySlug, s.allergensSlug, s.languages, s.defaultLanguage);
  }
}
