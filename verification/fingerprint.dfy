/**
 * One fingerprinting scan: the technology-stack record, the detection
 * rules applied to one response in the scanner's order, and the scan
 * that first obtains the response through the retry loop.
 */
module Fingerprint {
  import opened Wrappers
  import opened Strings
  import opened Seqs
  import opened Http
  import opened Catalog
  import opened Detection
  import opened Retry

  /**
   * The record keyed by the eight category names "CMS", "Web Server",
   * "Programming Language", "JavaScript Frameworks", "Database",
   * "Security", "CDN" and "WAF", one field each. CMS entries are optional
   * because a generator tag without `content` contributes None.
   */
  datatype TechStack = TechStack(
    cms: seq<Option<string>>,
    webServer: seq<string>,
    language: seq<string>,
    jsFrameworks: seq<string>,
    database: seq<string>,
    security: seq<string>,
    cdn: seq<string>,
    waf: seq<string>)

  /** The record a new scanner starts with. */
  const Empty := TechStack([], [], [], [], [], [], [], [])

  /** Every category of `a` is a prefix of the same category of `b`. */
  predicate Extends(a: TechStack, b: TechStack) {
    && a.cms <= b.cms && a.webServer <= b.webServer && a.language <= b.language
    && a.jsFrameworks <= b.jsFrameworks && a.database <= b.database
    && a.security <= b.security && a.cdn <= b.cdn && a.waf <= b.waf
  }

  /**
   * The detection body of a scan, applied to the record `st`: WAF, CDN,
   * Server and X-Powered-By headers, session cookies, generator tags,
   * script sources, CMS paths, database hints and security headers.
   */
  function Detect(st: TechStack, resp: Response, doc: Document): TechStack {
    var hs := resp.headers;
    var waf := DetectWaf(st.waf, hs).0;
    var cdn := DetectCdn(st.cdn, hs);
    var webServer := AppendHeader(st.webServer, hs, "Server");
    var language := DetectCookieTech(AppendHeader(st.language, hs, "X-Powered-By"), CookieString(hs));
    var cms := DetectCmsPaths(st.cms + GeneratorContents(doc.metas), resp.body);
    var js := AnalyzeScripts(st.jsFrameworks, doc.scripts);
    var database := DetectDatabase(st.database, hs, resp.body);
    var security := st.security + SecurityEntries(SecurityHeaders, hs);
    TechStack(cms, webServer, language, js, database, security, cdn, waf)
  }

  /**
   * A scan only appends: every category keeps its earlier entries as a
   * prefix, the WAF, CDN and Web Server categories gain at most one entry,
   * and Security gains one entry per protective header.
   */
  lemma DetectExtends(st: TechStack, resp: Response, doc: Document)
    ensures Extends(st, Detect(st, resp, doc))
    ensures |Detect(st, resp, doc).security| == |st.security| + |SecurityHeaders|
    ensures |Detect(st, resp, doc).waf| <= |st.waf| + 1
    ensures |Detect(st, resp, doc).cdn| <= |st.cdn| + 1
    ensures |Detect(st, resp, doc).webServer| <= |st.webServer| + 1
  {
    var hs := resp.headers;
    var lang := AppendHeader(st.language, hs, "X-Powered-By");
    assert st.language <= lang <= DetectCookieTech(lang, CookieString(hs));
    var cms := st.cms + GeneratorContents(doc.metas);
    assert st.cms <= cms <= DetectCmsPaths(cms, resp.body);
    var db := st.database + DbHeaderValues(hs);
    assert st.database <= db <= DetectDatabase(st.database, hs, resp.body);
  }

  /**
   * Every scan appends exactly four Security entries, one per protective
   * header in table order: the description when present, "Missing
   * <header>" when absent.
   */
  lemma SecurityEntriesPerHeader(st: TechStack, resp: Response, doc: Document)
    ensures |Detect(st, resp, doc).security| == |st.security| + 4
    ensures forall i :: 0 <= i < 4 ==>
              Detect(st, resp, doc).security[|st.security| + i] ==
                if Present(resp.headers, SecurityHeaders[i].pattern) then SecurityHeaders[i].tech
                else "Missing " + SecurityHeaders[i].pattern
  {
    SecurityAppended(st.security, resp.headers);
  }

  /** The JavaScript frameworks of a fresh scan: no duplicates, exactly the ones some script reveals. */
  lemma FreshFrameworks(resp: Response, doc: Document)
    ensures NoDup(Detect(Empty, resp, doc).jsFrameworks)
    ensures forall l :: l in Detect(Empty, resp, doc).jsFrameworks <==> exists s :: s in doc.scripts && Reveals(s, l)
  {
    AnalyzeScriptsSpec([], doc.scripts);
    assert Detect(Empty, resp, doc).jsFrameworks == AnalyzeScripts([], doc.scripts);
  }

  /** Both records have the same set of entries in every category. */
  predicate SameEntries(a: TechStack, b: TechStack) {
    && Elems(a.cms) == Elems(b.cms) && Elems(a.webServer) == Elems(b.webServer)
    && Elems(a.language) == Elems(b.language) && Elems(a.jsFrameworks) == Elems(b.jsFrameworks)
    && Elems(a.database) == Elems(b.database) && Elems(a.security) == Elems(b.security)
    && Elems(a.cdn) == Elems(b.cdn) && Elems(a.waf) == Elems(b.waf)
  }

  /** In every category, `after` holds exactly the entries of `before` and of `found`. */
  predicate Accumulates(after: TechStack, before: TechStack, found: TechStack) {
    && Elems(after.cms) == Elems(before.cms) + Elems(found.cms)
    && Elems(after.webServer) == Elems(before.webServer) + Elems(found.webServer)
    && Elems(after.language) == Elems(before.language) + Elems(found.language)
    && Elems(after.jsFrameworks) == Elems(before.jsFrameworks) + Elems(found.jsFrameworks)
    && Elems(after.database) == Elems(before.database) + Elems(found.database)
    && Elems(after.security) == Elems(before.security) + Elems(found.security)
    && Elems(after.cdn) == Elems(before.cdn) + Elems(found.cdn)
    && Elems(after.waf) == Elems(before.waf) + Elems(found.waf)
  }

  /** The header-driven categories accumulate: WAF, CDN, Web Server and Security. */
  lemma HeaderCategoriesAccumulate(st: TechStack, resp: Response, doc: Document)
    ensures Elems(Detect(st, resp, doc).waf) == Elems(st.waf) + Elems(Detect(Empty, resp, doc).waf)
    ensures Elems(Detect(st, resp, doc).cdn) == Elems(st.cdn) + Elems(Detect(Empty, resp, doc).cdn)
    ensures Elems(Detect(st, resp, doc).webServer) == Elems(st.webServer) + Elems(Detect(Empty, resp, doc).webServer)
    ensures Elems(Detect(st, resp, doc).security) == Elems(st.security) + Elems(Detect(Empty, resp, doc).security)
  {
    var hs := resp.headers;
    DetectWafAppends(st.waf, hs);
    ElemsConcat(st.waf, DetectWaf([], hs).0);
    DetectCdnAppends(st.cdn, hs);
    ElemsConcat(st.cdn, DetectCdn([], hs));
    AppendHeaderAppends(st.webServer, hs, "Server");
    ElemsConcat(st.webServer, AppendHeader([], hs, "Server"));
    ElemsConcat(st.security, SecurityEntries(SecurityHeaders, hs));
  }

  /** Programming Language accumulates: the X-Powered-By value, then the session-cookie labels. */
  lemma LanguageAccumulates(st: TechStack, resp: Response, doc: Document)
    ensures Elems(Detect(st, resp, doc).language) == Elems(st.language) + Elems(Detect(Empty, resp, doc).language)
  {
    var hs := resp.headers;
    var xpb := AppendHeader([], hs, "X-Powered-By");
    AppendHeaderAppends(st.language, hs, "X-Powered-By");
    DetectCookieTechAppends(st.language + xpb, CookieString(hs));
    DetectCookieTechAppends(xpb, CookieString(hs));
    ElemsConcat(st.language, xpb + DetectCookieTech([], CookieString(hs)));
  }

  /** The append-if-absent categories accumulate: CMS, JavaScript Frameworks and Database. */
  lemma ListCategoriesAccumulate(st: TechStack, resp: Response, doc: Document)
    ensures Elems(Detect(st, resp, doc).cms) == Elems(st.cms) + Elems(Detect(Empty, resp, doc).cms)
    ensures Elems(Detect(st, resp, doc).jsFrameworks) == Elems(st.jsFrameworks) + Elems(Detect(Empty, resp, doc).jsFrameworks)
    ensures Elems(Detect(st, resp, doc).database) == Elems(st.database) + Elems(Detect(Empty, resp, doc).database)
  {
    var g := GeneratorContents(doc.metas);
    DetectCmsPathsAccumulates(st.cms + g, resp.body);
    DetectCmsPathsAccumulates([] + g, resp.body);
    ElemsConcat(st.cms, g);
    AnalyzeScriptsAccumulates(st.jsFrameworks, doc.scripts);
    DetectDatabaseAccumulates(st.database, resp.headers, resp.body);
  }

  /**
   * What a scan adds to a record, as sets of entries, does not depend on
   * the record: it is what the same scan finds from the empty record.
   */
  lemma DetectAccumulates(st: TechStack, resp: Response, doc: Document)
    ensures Accumulates(Detect(st, resp, doc), st, Detect(Empty, resp, doc))
  {
    HeaderCategoriesAccumulate(st, resp, doc);
    LanguageAccumulates(st, resp, doc);
    ListCategoriesAccumulate(st, resp, doc);
  }

  /**
   * Scanning the same response twice with one scanner leaves every
   * category with the same set of entries as scanning it once.
   */
  lemma DetectIdempotentEntries(resp: Response, doc: Document)
    ensures SameEntries(Detect(Detect(Empty, resp, doc), resp, doc), Detect(Empty, resp, doc))
  {
    DetectAccumulates(Detect(Empty, resp, doc), resp, doc);
  }

  /**
   * A server header mentioning cloudflare puts Cloudflare in both CDN and
   * WAF, unless the first WAF vendor whose cookie marker matches is Akamai
   * or Imperva.
   */
  lemma CloudflareServer(st: TechStack, resp: Response, doc: Document)
    requires Contains(ServerLower(resp.headers), "cloudflare")
    requires FirstFamilyHit(WafVendors, Lower(CookieString(resp.headers)), 0) != Some(1)
    requires FirstFamilyHit(WafVendors, Lower(CookieString(resp.headers)), 0) != Some(2)
    ensures "Cloudflare" in Detect(st, resp, doc).cdn
    ensures "Cloudflare" in Detect(st, resp, doc).waf
  {
    CloudflareCdn(st.cdn, resp.headers);
    CloudflareWaf(st.waf, resp.headers);
  }

  /** A `wordpress_logged_in` cookie puts WordPress in Programming Language. */
  lemma WordPressCookie(st: TechStack, resp: Response, doc: Document)
    requires Contains(CookieString(resp.headers), "wordpress_logged_in")
    ensures "WordPress" in Detect(st, resp, doc).language
  {
    WordPressLogin(AppendHeader(st.language, resp.headers, "X-Powered-By"), CookieString(resp.headers));
  }

  /**
   * The CMS and Database rules are independent: a body with a WordPress
   * asset path and a MySQL signature yields both labels.
   */
  lemma WordPressAndMySql(st: TechStack, resp: Response, doc: Document)
    requires Contains(resp.body, "/wp-content/")
    requires Contains(Lower(resp.body), "mysqli_")
    ensures Some("WordPress") in Detect(st, resp, doc).cms
    ensures "MySQL" in Detect(st, resp, doc).database
  {
    WordPressPath(st.cms + GeneratorContents(doc.metas), resp.body);
    MySqlSignature(st.database, resp.headers, resp.body);
  }

  /** How a `fingerprint` call ends. */
  datatype Outcome =
    | NoResponse          // every attempt failed; the call returns None
    | Crashed             // reporting the record raised, so the call returns nothing
    | Found(stack: TechStack)

  /**
   * The end of a scan: reporting joins the entries of every non-empty
   * category as text, which raises when CMS holds the None of a generator
   * tag without `content`; otherwise the record is returned.
   */
  function Report(st: TechStack): (r: Outcome)
    ensures r.Crashed? <==> exists k :: 0 <= k < |st.cms| && st.cms[k].None?
    ensures !r.NoResponse?
    ensures r.Found? ==> r.stack == st
  {
    if None in st.cms then Crashed else Found(st)
  }

  /** A generator tag without `content` leaves None in CMS, whatever the rest of the scan finds. */
  lemma GeneratorWithoutContent(st: TechStack, resp: Response, doc: Document, k: nat)
    requires k < |doc.metas| && doc.metas[k] == Meta(Some("generator"), None)
    ensures None in Detect(st, resp, doc).cms
  {
    GeneratorNoneListed(st.cms, doc.metas, resp.body, k);
  }

  /**
   * A scan from the empty record fails to report exactly when the page has
   * a generator tag without `content`: path labels are always present, so
   * the only None in CMS comes from such a tag.
   */
  lemma ScanCrashes(resp: Response, doc: Document)
    ensures Report(Detect(Empty, resp, doc)).Crashed? <==>
              exists k :: 0 <= k < |doc.metas| && doc.metas[k] == Meta(Some("generator"), None)
  {
    GeneratorNoneExactly(Empty.cms, doc.metas, resp.body);
  }

  /**
   * A whole scan: obtain a response through the retry loop, run the
   * detection rules from the empty record, then report. No outcome but
   * NoResponse arises without a status-200 response, and otherwise the
   * outcome is the report of the first accepted response's record.
   */
  method Scan(maxRetries: int, choose: nat -> Technique, transport: (nat, Technique) -> Option<Response>,
              parse: Response -> Document)
    returns (r: Outcome)
    ensures r.NoResponse? <==> forall i :: 0 <= i < AttemptBudget(maxRetries) ==> !Accepted(Attempt(i, choose, transport))
    ensures !r.NoResponse? ==>
              exists i :: 0 <= i < AttemptBudget(maxRetries) && Accepted(Attempt(i, choose, transport))
                && (forall j :: 0 <= j < i ==> !Accepted(Attempt(j, choose, transport)))
                && r == Report(Detect(Empty, Attempt(i, choose, transport).value, parse(Attempt(i, choose, transport).value)))
  {
    var response, attempts := ObfuscateRequest(maxRetries, choose, transport);
    if response.None? {
      return NoResponse;
    }
    var resp := response.value;
    r := Report(Detect(Empty, resp, parse(resp)));
    assert resp == Attempt(attempts - 1, choose, transport).value;
  }
}
