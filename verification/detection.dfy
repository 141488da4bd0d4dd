/**
 * The per-category detection rules of one scan. Each rule takes the list
 * of labels recorded so far for its category and returns the list after
 * the rule's appends; no rule ever removes or reorders an entry. The
 * functions state only that much; what each rule appends is stated by
 * the lemma that follows it.
 */
module Detection {
  import opened Wrappers
  import opened Strings
  import opened Seqs
  import opened Http
  import opened Catalog

  /** The `Set-Cookie` header, or the empty string when there is none. */
  function CookieString(hs: Headers): string {
    GetOr(hs, "Set-Cookie", "")
  }

  /** The lower-cased `Server` header, or the empty string when there is none. */
  function ServerLower(hs: Headers): string {
    Lower(GetOr(hs, "Server", ""))
  }

  /** Some WAF vendor's cookie marker occurs in the cookie string. */
  predicate AnyWafMarker(hs: Headers) {
    exists k :: 0 <= k < |WafVendors| && FamilyHit(WafVendors[k], Lower(CookieString(hs)))
  }

  /**
   * WAF rule: records the first vendor, in table order, with a cookie
   * marker in the cookie string, else Cloudflare when a `cf-ray` header
   * exists or the server header mentions cloudflare. The flag reports
   * whether anything was recorded.
   */
  function DetectWaf(waf: seq<string>, hs: Headers): (r: (seq<string>, bool))
    ensures waf <= r.0 && |r.0| <= |waf| + 1
    ensures r.1 <==> |r.0| == |waf| + 1
  {
    match WafVendor(hs)
    case Some(vendor) => (waf + [vendor], true)
    case None => (waf, false)
  }

  /**
   * The vendor the WAF rule settles on, if any: the first table vendor
   * with a cookie marker, else Cloudflare on the fallback evidence.
   */
  function WafVendor(hs: Headers): Option<string>
  {
    match FirstFamilyHit(WafVendors, Lower(CookieString(hs)), 0)
    case Some(k) => Some(WafVendors[k].tech)
    case None =>
      if Has(hs, "cf-ray") || Contains(ServerLower(hs), "cloudflare") then Some("Cloudflare")
      else None
  }

  /**
   * The vendor recorded is the first one in table order with a cookie
   * marker; only when no marker occurs does the Cloudflare fallback
   * apply, and then exactly when `cf-ray` exists or the server header
   * mentions cloudflare.
   */
  lemma DetectWafSpec(waf: seq<string>, hs: Headers)
    ensures forall k ::
              (0 <= k < |WafVendors| && FamilyHit(WafVendors[k], Lower(CookieString(hs)))
               && forall j :: 0 <= j < k ==> !FamilyHit(WafVendors[j], Lower(CookieString(hs))))
              ==> DetectWaf(waf, hs) == (waf + [WafVendors[k].tech], true)
    ensures !AnyWafMarker(hs) ==>
              (DetectWaf(waf, hs).1 <==> Has(hs, "cf-ray") || Contains(ServerLower(hs), "cloudflare"))
    ensures !AnyWafMarker(hs) && DetectWaf(waf, hs).1 ==> DetectWaf(waf, hs).0 == waf + ["Cloudflare"]
  {
    var cookies := Lower(CookieString(hs));
    forall k | 0 <= k < |WafVendors| && FamilyHit(WafVendors[k], cookies)
               && forall j :: 0 <= j < k ==> !FamilyHit(WafVendors[j], cookies)
      ensures DetectWaf(waf, hs) == (waf + [WafVendors[k].tech], true)
    {
      FirstFamilyHitIs(WafVendors, cookies, k);
    }
    FirstFamilyHitNone(WafVendors, cookies);
  }

  /**
   * CDN rule: an if/elif chain over the lower-cased `Server` header:
   * cloudflare, then akamai, then fastly.
   */
  function DetectCdn(cdn: seq<string>, hs: Headers): (r: seq<string>)
    ensures cdn <= r && |r| <= |cdn| + 1
  {
    var server := ServerLower(hs);
    if Contains(server, "cloudflare") then cdn + ["Cloudflare"]
    else if Contains(server, "akamai") then cdn + ["Akamai"]
    else if Contains(server, "fastly") then cdn + ["Fastly"]
    else cdn
  }

  /**
   * The chain agrees with the priority table: the label recorded is that
   * of the first table entry occurring in the server header, and nothing
   * is recorded when none occurs.
   */
  lemma DetectCdnSpec(cdn: seq<string>, hs: Headers)
    ensures forall k ::
              (0 <= k < |CdnSignatures| && Fires(CdnSignatures, k, ServerLower(hs))
               && forall j :: 0 <= j < k ==> !Fires(CdnSignatures, j, ServerLower(hs)))
              ==> DetectCdn(cdn, hs) == cdn + [CdnSignatures[k].tech]
    ensures (forall k :: 0 <= k < |CdnSignatures| ==> !Fires(CdnSignatures, k, ServerLower(hs)))
              ==> DetectCdn(cdn, hs) == cdn
  {
    var server := ServerLower(hs);
    assert Fires(CdnSignatures, 0, server) == Contains(server, "cloudflare");
    assert Fires(CdnSignatures, 1, server) == Contains(server, "akamai");
    assert Fires(CdnSignatures, 2, server) == Contains(server, "fastly");
  }

  /**
   * Appends the value of header `name` when the response has it (the
   * `Server` rule for Web Server, the `X-Powered-By` rule for
   * Programming Language).
   */
  function AppendHeader(xs: seq<string>, hs: Headers, name: string): (r: seq<string>)
    ensures xs <= r && |r| <= |xs| + 1
  {
    match Get(hs, name)
    case Some(v) => xs + [v]
    case None => xs
  }

  /**
   * The value appended is verbatim the value of the entry whose name
   * matches up to case; without such an entry nothing is appended.
   */
  lemma AppendHeaderSpec(xs: seq<string>, hs: Headers, name: string)
    ensures forall i :: 0 <= i < |hs| && Lower(hs[i].name) == Lower(name) ==> AppendHeader(xs, hs, name) == xs + [hs[i].value]
    ensures (forall i :: 0 <= i < |hs| ==> Lower(hs[i].name) != Lower(name)) ==> AppendHeader(xs, hs, name) == xs
  {
    GetSpec(hs, name);
    GetAll(hs, name);
  }

  /**
   * Session-cookie rule: every table cookie name occurring in the cookie
   * string appends its label, in table order, whatever the list holds.
   */
  function DetectCookieTech(lang: seq<string>, cookies: string): (r: seq<string>)
    ensures lang <= r && |r| <= |lang| + |CookieTech|
  {
    lang + MatchedLabels(CookieTech, cookies)
  }

  /**
   * A label is appended exactly when its cookie name occurs in the cookie
   * string (case-sensitively), then exactly once, and the labels follow
   * table order.
   */
  lemma DetectCookieTechSpec(lang: seq<string>, cookies: string)
    ensures forall l :: l in DetectCookieTech(lang, cookies)[|lang|..] <==>
              exists i :: 0 <= i < |CookieTech| && CookieTech[i].tech == l && Fires(CookieTech, i, cookies)
    ensures NoDup(DetectCookieTech(lang, cookies)[|lang|..])
    ensures forall i, j :: 0 <= i < j < |CookieTech| && Fires(CookieTech, i, cookies) && Fires(CookieTech, j, cookies) ==>
              Before(DetectCookieTech(lang, cookies)[|lang|..], CookieTech[i].tech, CookieTech[j].tech)
  {
    MatchedLabelsSpec(CookieTech, cookies);
    MatchedLabelsOrder(CookieTech, cookies);
    assert DetectCookieTech(lang, cookies)[|lang|..] == MatchedLabels(CookieTech, cookies);
  }

  /** With both session cookies present, PHP is recorded before Java, whatever their order in the header. */
  lemma PhpBeforeJava(lang: seq<string>, cookies: string)
    requires Contains(cookies, "PHPSESSID") && Contains(cookies, "JSESSIONID")
    ensures Before(DetectCookieTech(lang, cookies)[|lang|..], "PHP", "Java")
  {
    DetectCookieTechSpec(lang, cookies);
    assert Fires(CookieTech, 0, cookies) && Fires(CookieTech, 1, cookies);
  }

  /** The `content` of every meta tag named `generator`, in document order. */
  function GeneratorContents(metas: seq<Meta>): (r: seq<Option<string>>)
    ensures |r| <= |metas|
  {
    if metas == [] then []
    else if metas[0].name == Some("generator") then [metas[0].content] + GeneratorContents(metas[1..])
    else GeneratorContents(metas[1..])
  }

  /** A content is collected exactly when some generator tag carries it. */
  lemma {:induction false} GeneratorContentsSpec(metas: seq<Meta>)
    ensures forall c :: c in GeneratorContents(metas) <==>
              exists i :: 0 <= i < |metas| && metas[i].name == Some("generator") && metas[i].content == c
  {
    if metas != [] {
      GeneratorContentsSpec(metas[1..]);
      assert forall i :: 0 <= i < |metas[1..]| ==> metas[1..][i] == metas[i + 1];
      assert forall i :: 1 <= i < |metas| ==> metas[i] == metas[1..][i - 1];
    }
  }

  /**
   * Generator contents are collected tag by tag with no deduplication: the
   * contents of a concatenation are the concatenation of the contents.
   */
  lemma {:induction false} GeneratorContentsAppend(a: seq<Meta>, b: seq<Meta>)
    ensures GeneratorContents(a + b) == GeneratorContents(a) + GeneratorContents(b)
  {
    if a != [] {
      assert (a + b)[0] == a[0];
      assert (a + b)[1..] == a[1..] + b;
      GeneratorContentsAppend(a[1..], b);
    } else {
      assert a + b == b;
    }
  }

  /** Two generator tags with equal content give two equal entries. */
  lemma GeneratorKeepsDuplicates(m: Meta)
    requires m.name == Some("generator")
    ensures GeneratorContents([m, m]) == [m.content, m.content]
  {
    assert [m, m][1..] == [m];
    assert [m][1..] == [];
  }

  /** Wraps every label as a present value, for the CMS list. */
  function Somes(xs: seq<string>): (r: seq<Option<string>>)
    ensures |r| == |xs|
  {
    if xs == [] then [] else [Some(xs[0])] + Somes(xs[1..])
  }

  /** The wrapped list holds exactly the wrapped labels. */
  lemma {:induction false} SomesSpec(xs: seq<string>)
    ensures forall x :: x in Somes(xs) <==> x.Some? && x.value in xs
  {
    if xs != [] {
      SomesSpec(xs[1..]);
      assert forall x :: x in xs <==> x == xs[0] || x in xs[1..];
    }
  }

  /**
   * CMS path rule: each table CMS whose path occurs in the body
   * (case-sensitively) is appended unless the CMS list already holds it.
   */
  function DetectCmsPaths(cms: seq<Option<string>>, body: string): (r: seq<Option<string>>)
    ensures cms <= r
  {
    AppendNew(cms, Somes(MatchedLabels(CmsPaths, body)))
  }

  /**
   * A CMS is listed afterwards exactly when it was before or its path
   * occurs; the rule never adds a second copy of a listed entry and adds
   * each new CMS once.
   */
  lemma DetectCmsPathsSpec(cms: seq<Option<string>>, body: string)
    ensures forall x :: x in DetectCmsPaths(cms, body) <==>
              (x in cms || (x.Some? && exists i :: 0 <= i < |CmsPaths| && CmsPaths[i].tech == x.value && Fires(CmsPaths, i, body)))
    ensures forall x :: x in cms ==> multiset(DetectCmsPaths(cms, body))[x] == multiset(cms)[x]
    ensures forall x :: x !in cms ==> multiset(DetectCmsPaths(cms, body))[x] <= 1
  {
    var found := MatchedLabels(CmsPaths, body);
    MatchedLabelsSpec(CmsPaths, body);
    SomesSpec(found);
    AppendNewSpec(cms, Somes(found));
  }

  /** A framework label a script source reveals: its key occurs in the lower-cased source. */
  predicate Reveals(src: string, l: string) {
    exists i :: 0 <= i < |JsFrameworks| && JsFrameworks[i].tech == l && Fires(JsFrameworks, i, Lower(src))
  }

  /**
   * Script rule for one source: each framework whose key occurs in the
   * lower-cased source is appended unless already listed.
   */
  function AnalyzeScript(js: seq<string>, src: string): (r: seq<string>)
    ensures js <= r
  {
    AppendNew(js, MatchedLabels(JsFrameworks, Lower(src)))
  }

  /** Listed afterwards exactly when listed before or revealed; no duplicate is introduced. */
  lemma AnalyzeScriptSpec(js: seq<string>, src: string)
    ensures forall l :: l in AnalyzeScript(js, src) <==> l in js || Reveals(src, l)
    ensures NoDup(js) ==> NoDup(AnalyzeScript(js, src))
  {
    var found := MatchedLabels(JsFrameworks, Lower(src));
    MatchedLabelsSpec(JsFrameworks, Lower(src));
    AppendNewSpec(js, found);
    AppendNewNoDup(js, found);
  }

  /** The script rule applied to every script source in turn. */
  function AnalyzeScripts(js: seq<string>, srcs: seq<string>): (r: seq<string>)
    ensures js <= r
    decreases |srcs|
  {
    if srcs == [] then js
    else AnalyzeScripts(AnalyzeScript(js, srcs[0]), srcs[1..])
  }

  /**
   * After all scripts, a framework is listed exactly when it was listed
   * before or some script reveals it, and a duplicate-free list stays
   * duplicate-free.
   */
  lemma {:induction false} AnalyzeScriptsSpec(js: seq<string>, srcs: seq<string>)
    ensures forall l :: l in AnalyzeScripts(js, srcs) <==> l in js || exists s :: s in srcs && Reveals(s, l)
    ensures NoDup(js) ==> NoDup(AnalyzeScripts(js, srcs))
    decreases |srcs|
  {
    if srcs != [] {
      AnalyzeScriptSpec(js, srcs[0]);
      AnalyzeScriptsSpec(AnalyzeScript(js, srcs[0]), srcs[1..]);
      assert forall s :: s in srcs <==> s == srcs[0] || s in srcs[1..];
    }
  }

  /**
   * The order in which script sources are analysed does not matter: any
   * rearrangement yields the same frameworks and, from a duplicate-free
   * list, the same number of entries.
   */
  lemma ScriptOrderIrrelevant(js: seq<string>, a: seq<string>, b: seq<string>)
    requires NoDup(js)
    requires multiset(a) == multiset(b)
    ensures Elems(AnalyzeScripts(js, a)) == Elems(AnalyzeScripts(js, b))
    ensures |AnalyzeScripts(js, a)| == |AnalyzeScripts(js, b)|
  {
    assert forall s :: s in a <==> s in b by {
      forall s ensures s in a <==> s in b {
        assert s in a <==> s in multiset(a);
        assert s in b <==> s in multiset(b);
      }
    }
    AnalyzeScriptsSpec(js, a);
    AnalyzeScriptsSpec(js, b);
    SameElemsSameLength(AnalyzeScripts(js, a), AnalyzeScripts(js, b));
  }

  /** The value of every header whose lower-cased name contains "db", in header order. */
  function DbHeaderValues(hs: seq<Header>): (r: seq<string>)
    ensures |r| <= |hs|
  {
    if hs == [] then []
    else if Contains(Lower(hs[0].name), "db") then [hs[0].value] + DbHeaderValues(hs[1..])
    else DbHeaderValues(hs[1..])
  }

  /** A value is collected exactly when some "db" header carries it. */
  lemma {:induction false} DbHeaderValuesSpec(hs: seq<Header>)
    ensures forall v :: v in DbHeaderValues(hs) <==>
              exists i :: 0 <= i < |hs| && Contains(Lower(hs[i].name), "db") && hs[i].value == v
  {
    if hs != [] {
      DbHeaderValuesSpec(hs[1..]);
      assert forall i :: 0 <= i < |hs[1..]| ==> hs[1..][i] == hs[i + 1];
      assert forall i :: 1 <= i < |hs| ==> hs[i] == hs[1..][i - 1];
    }
  }

  /** Header values are collected header by header with no deduplication. */
  lemma {:induction false} DbHeaderValuesAppend(a: seq<Header>, b: seq<Header>)
    ensures DbHeaderValues(a + b) == DbHeaderValues(a) + DbHeaderValues(b)
  {
    if a != [] {
      assert (a + b)[0] == a[0];
      assert (a + b)[1..] == a[1..] + b;
      DbHeaderValuesAppend(a[1..], b);
    } else {
      assert a + b == b;
    }
  }

  /**
   * Database rule: first every "db" header value, verbatim; then every
   * engine with a signature occurring in the body case-insensitively,
   * unless the list already holds the engine's name.
   */
  function DetectDatabase(db: seq<string>, hs: Headers, body: string): (r: seq<string>)
    ensures db + DbHeaderValues(hs) <= r
  {
    AppendNew(db + DbHeaderValues(hs), FamiliesHit(DbEngines, Lower(body)))
  }

  /**
   * An engine name is listed afterwards exactly when it was listed (or
   * came from a header) or one of its signatures occurs; engines never
   * add a second copy of a listed entry, and each new engine appears once.
   */
  lemma DetectDatabaseSpec(db: seq<string>, hs: Headers, body: string)
    ensures forall x :: x in DetectDatabase(db, hs, body) <==>
              (x in db + DbHeaderValues(hs)
               || exists k :: 0 <= k < |DbEngines| && DbEngines[k].tech == x && FamilyHit(DbEngines[k], Lower(body)))
    ensures forall x :: x in db + DbHeaderValues(hs) ==>
              multiset(DetectDatabase(db, hs, body))[x] == multiset(db + DbHeaderValues(hs))[x]
    ensures forall x :: x !in db + DbHeaderValues(hs) ==> multiset(DetectDatabase(db, hs, body))[x] <= 1
  {
    FamiliesHitSpec(DbEngines, Lower(body));
    AppendNewSpec(db + DbHeaderValues(hs), FamiliesHit(DbEngines, Lower(body)));
  }

  /** Header `name` is in the table, compared case-insensitively. */
  predicate Present(hs: seq<Header>, name: string) {
    exists j :: 0 <= j < |hs| && Lower(hs[j].name) == Lower(name)
  }

  /**
   * Security rule: one entry per table header, in table order — the
   * description when the header is present, "Missing <header>" otherwise.
   */
  function SecurityEntries(table: seq<Signature>, hs: Headers): (r: seq<string>)
    ensures |r| == |table|
  {
    if table == [] then []
    else
      var entry := if Has(hs, table[0].pattern) then table[0].tech else "Missing " + table[0].pattern;
      [entry] + SecurityEntries(table[1..], hs)
  }

  /** Entry `i` is header `i`'s description when present and "Missing <header>" when absent. */
  lemma {:induction false} SecurityEntriesSpec(table: seq<Signature>, hs: Headers)
    ensures forall i :: 0 <= i < |table| && Present(hs, table[i].pattern) ==> SecurityEntries(table, hs)[i] == table[i].tech
    ensures forall i :: 0 <= i < |table| && !Present(hs, table[i].pattern) ==>
              SecurityEntries(table, hs)[i] == "Missing " + table[i].pattern
  {
    if table != [] {
      GetSpec(hs, table[0].pattern);
      SecurityEntriesSpec(table[1..], hs);
      assert forall i :: 1 <= i < |table| ==>
               table[i] == table[1..][i - 1] && SecurityEntries(table, hs)[i] == SecurityEntries(table[1..], hs)[i - 1];
    }
  }

  /*
   * What each rule appends does not depend on the list it appends to;
   * for the append-if-absent rules the same holds of the set of entries.
   */

  /** The WAF entry appended does not depend on the list. */
  lemma DetectWafAppends(waf: seq<string>, hs: Headers)
    ensures DetectWaf(waf, hs).0 == waf + DetectWaf([], hs).0
  {
    match WafVendor(hs)
    case Some(vendor) =>
      assert DetectWaf([], hs).0 == [vendor];
    case None =>
  }

  /** The CDN entry appended does not depend on the list. */
  lemma DetectCdnAppends(cdn: seq<string>, hs: Headers)
    ensures DetectCdn(cdn, hs) == cdn + DetectCdn([], hs)
  {
    var server := ServerLower(hs);
    if Contains(server, "cloudflare") {
      assert DetectCdn([], hs) == ["Cloudflare"];
    } else if Contains(server, "akamai") {
      assert DetectCdn([], hs) == ["Akamai"];
    } else if Contains(server, "fastly") {
      assert DetectCdn([], hs) == ["Fastly"];
    }
  }

  /** The header value appended does not depend on the list. */
  lemma AppendHeaderAppends(xs: seq<string>, hs: Headers, name: string)
    ensures AppendHeader(xs, hs, name) == xs + AppendHeader([], hs, name)
  {
  }

  /** The session-cookie labels appended do not depend on the list. */
  lemma DetectCookieTechAppends(lang: seq<string>, cookies: string)
    ensures DetectCookieTech(lang, cookies) == lang + DetectCookieTech([], cookies)
  {
  }

  /** The CMS path rule adds the same set of entries to any list. */
  lemma DetectCmsPathsAccumulates(cms: seq<Option<string>>, body: string)
    ensures Elems(DetectCmsPaths(cms, body)) == Elems(cms) + Elems(DetectCmsPaths([], body))
  {
    DetectCmsPathsSpec(cms, body);
    DetectCmsPathsSpec([], body);
  }

  /** The script rule adds the same set of frameworks to any list. */
  lemma AnalyzeScriptsAccumulates(js: seq<string>, srcs: seq<string>)
    ensures Elems(AnalyzeScripts(js, srcs)) == Elems(js) + Elems(AnalyzeScripts([], srcs))
  {
    AnalyzeScriptsSpec(js, srcs);
    AnalyzeScriptsSpec([], srcs);
  }

  /** The database rule adds the same set of entries to any list. */
  lemma DetectDatabaseAccumulates(db: seq<string>, hs: Headers, body: string)
    ensures Elems(DetectDatabase(db, hs, body)) == Elems(db) + Elems(DetectDatabase([], hs, body))
  {
    DetectDatabaseSpec(db, hs, body);
    DetectDatabaseSpec([], hs, body);
    assert [] + DbHeaderValues(hs) == DbHeaderValues(hs);
  }

  /*
   * Single-rule consequences used by the scan-level statements.
   */

  /** A server header mentioning cloudflare makes the CDN rule record Cloudflare. */
  lemma CloudflareCdn(cdn: seq<string>, hs: Headers)
    requires Contains(ServerLower(hs), "cloudflare")
    ensures DetectCdn(cdn, hs) == cdn + ["Cloudflare"]
  {
  }

  /**
   * A server header mentioning cloudflare makes the WAF rule record
   * Cloudflare unless the first vendor whose cookie marker matches is
   * Akamai or Imperva; a Cloudflare cookie marker is tried first.
   */
  lemma CloudflareWaf(waf: seq<string>, hs: Headers)
    requires Contains(ServerLower(hs), "cloudflare")
    requires FirstFamilyHit(WafVendors, Lower(CookieString(hs)), 0) != Some(1)
    requires FirstFamilyHit(WafVendors, Lower(CookieString(hs)), 0) != Some(2)
    ensures DetectWaf(waf, hs) == (waf + ["Cloudflare"], true)
  {
    DetectWafSpec(waf, hs);
    if !FamilyHit(WafVendors[0], Lower(CookieString(hs))) {
      assert !AnyWafMarker(hs);
    }
  }

  /** A `wordpress_logged_in` cookie makes the cookie rule record WordPress. */
  lemma WordPressLogin(lang: seq<string>, cookies: string)
    requires Contains(cookies, "wordpress_logged_in")
    ensures "WordPress" in DetectCookieTech(lang, cookies)[|lang|..]
  {
    MatchedLabelsSpec(CookieTech, cookies);
    assert Fires(CookieTech, 4, cookies);
    assert DetectCookieTech(lang, cookies)[|lang|..] == MatchedLabels(CookieTech, cookies);
  }

  /** A `/wp-content/` path makes the CMS path rule list WordPress. */
  lemma WordPressPath(cms: seq<Option<string>>, body: string)
    requires Contains(body, "/wp-content/")
    ensures Some("WordPress") in DetectCmsPaths(cms, body)
  {
    DetectCmsPathsSpec(cms, body);
    assert Fires(CmsPaths, 0, body);
  }

  /** A `mysqli_` signature, in any letter case, makes the database rule list MySQL. */
  lemma MySqlSignature(db: seq<string>, hs: Headers, body: string)
    requires Contains(Lower(body), "mysqli_")
    ensures "MySQL" in DetectDatabase(db, hs, body)
  {
    var hay := Lower(body);
    MySqlFamilyHit(hay);
    AppendNewSpec(db + DbHeaderValues(hs), FamiliesHit(DbEngines, hay));
  }

  /** The Security entries appended after `sec` sit at the positions following it, one per table header. */
  lemma SecurityAppended(sec: seq<string>, hs: Headers)
    ensures |sec + SecurityEntries(SecurityHeaders, hs)| == |sec| + 4
    ensures forall i :: 0 <= i < 4 ==>
              (sec + SecurityEntries(SecurityHeaders, hs))[|sec| + i] ==
                if Present(hs, SecurityHeaders[i].pattern) then SecurityHeaders[i].tech
                else "Missing " + SecurityHeaders[i].pattern
  {
    SecurityEntriesSpec(SecurityHeaders, hs);
  }

  /** A generator tag without `content` puts None in CMS, and no later CMS rule removes it. */
  lemma GeneratorNoneListed(cms: seq<Option<string>>, metas: seq<Meta>, body: string, k: nat)
    requires k < |metas| && metas[k] == Meta(Some("generator"), None)
    ensures None in DetectCmsPaths(cms + GeneratorContents(metas), body)
  {
    GeneratorContentsSpec(metas);
    assert None in GeneratorContents(metas);
    assert None in cms + GeneratorContents(metas);
  }

  /**
   * After the path rule, CMS holds None exactly when it already did or
   * some generator tag has no `content`: path labels are never None.
   */
  lemma GeneratorNoneExactly(cms: seq<Option<string>>, metas: seq<Meta>, body: string)
    ensures None in DetectCmsPaths(cms + GeneratorContents(metas), body) <==>
              None in cms || exists k :: 0 <= k < |metas| && metas[k] == Meta(Some("generator"), None)
  {
    var g := GeneratorContents(metas);
    GeneratorContentsSpec(metas);
    DetectCmsPathsSpec(cms + g, body);
    assert None in cms + g <==> None in cms || None in g;
  }
}
