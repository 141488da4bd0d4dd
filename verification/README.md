# CodeTool Webchecker fingerprinting, modelled in Dafny

This project models the technology fingerprinting of `CodeToolWebchecker`.
One `fingerprint` call fetches a page through an evasive retry loop. It then
runs a fixed series of detection rules over the response. The rules fill a
record of eight categories: CMS, Web Server, Programming Language,
JavaScript Frameworks, Database, Security, CDN and WAF.

The modules follow the program's structure:

- `Wrappers` holds `Option`.
- `Strings` holds ASCII lower-casing, comparison up to case, and substring
  search. These model Python's `str.lower()`, case-insensitive header names,
  `needle in hay`, and `re.search` of a pattern without metacharacters.
- `Seqs` holds duplicate-freedom and append-if-absent (`if x not in l:
  l.append(x)`).
- `Http` holds the response. Its header table has case-insensitive,
  distinct names, like `requests`' `CaseInsensitiveDict`. It also holds the
  parsed document: meta tags and script sources.
- `Catalog` holds the signature tables of `_init_patterns` and the other
  fixed tables, with the three ways the rules consult them.
- `Detection` holds one function per rule. Each takes the category's list
  and returns it after the rule's appends. A `...Spec` lemma states what the
  rule appends.
- `Retry` holds the retry loop `_obfuscate_request`. Its three techniques
  are driven by oracles.
- `Fingerprint` holds the `tech_stack` record and the detection body of
  `fingerprint`, plus properties of whole scans.

The scanner's record is a `TechStack` value. A scan is the pure function
`Detect(st, resp, doc)`, which maps the record before the call to the record
after it. Starting from `Empty` models a fresh scanner. Starting from an
earlier result models a second `fingerprint` call on the same instance.

The model follows the code in four places a reader might not expect:

- The WAF rule returns after the first vendor whose cookie marker matches. At
  most one WAF label is recorded per scan, not one per matching vendor.
- Generator meta contents go into CMS verbatim and without deduplication.
  They can also be None, when the tag has no `content`. Only the body-path
  CMS labels are deduplicated.
- A `Server` header mentioning cloudflare always puts Cloudflare in CDN, and
  in WAF too unless an Akamai or Imperva cookie marker matches and no
  Cloudflare cookie marker does. The vendor loop tries Cloudflare's markers
  first, and a marker of a later vendor makes the WAF rule record that vendor
  and return before the server header is consulted.
  `Fingerprint.CloudflareServer` carries this as a precondition.
- After detection, `fingerprint` reports the record by joining each
  non-empty category's entries as text. A generator tag without `content`
  leaves None in CMS, and the join then raises, so the call ends without
  returning the record. `Fingerprint.Scan` yields `Crashed` in that case.

## Model

| member | source | states |
|---|---|---|
| Strings.Lower | CodeToolWebchecker.py:263 | lower-casing keeps the length of the text |
| Strings.LowerSpec | CodeToolWebchecker.py:144 | lower-casing maps each character through ASCII case folding and leaves no upper-case letter |
| Strings.EqualFoldSpec | CodeToolWebchecker.py:149 | comparing header names character by character up to case is comparing their lower-case forms |
| Strings.ContainsSpec | CodeToolWebchecker.py:209 | the substring test holds exactly when the needle occurs at some position of the text |
| Seqs.NoDupSpec | CodeToolWebchecker.py:265 | a list has no duplicates exactly when its entries at distinct positions differ |
| Seqs.AppendNew | CodeToolWebchecker.py:227-228 | append-if-absent keeps the old list as a prefix and adds at most one entry per candidate |
| Seqs.AppendNewSpec | CodeToolWebchecker.py:165-166 | after append-if-absent an entry is listed exactly when it was listed or a candidate; old entries keep their count and new ones appear once |
| Seqs.NoDupFromCounts | CodeToolWebchecker.py:265 | a list in which every entry occurs at most once has no duplicates |
| Seqs.CountsFromNoDup | CodeToolWebchecker.py:265 | a list without duplicates holds every entry at most once |
| Seqs.AppendNewNoDup | CodeToolWebchecker.py:265-266 | append-if-absent keeps a duplicate-free list duplicate-free |
| Seqs.NoDupCardinality | CodeToolWebchecker.py:265-266 | a duplicate-free list has as many entries as distinct labels |
| Seqs.SameElemsSameLength | CodeToolWebchecker.py:221-222 | two duplicate-free lists with the same labels have the same length |
| Http.GetSpec | CodeToolWebchecker.py:141 | `headers.get(name)` fails exactly when no header name matches up to case, and otherwise returns a matching header's value |
| Http.GetFinds | CodeToolWebchecker.py:194-195 | in a table with distinct names the lookup returns the value of the one matching header |
| Http.GetAll | CodeToolWebchecker.py:196-197 | every header matching the name up to case carries the value the lookup returns |
| Catalog.MatchedLabels | CodeToolWebchecker.py:208-210 | a table yields at most one label per rule |
| Catalog.MatchedLabelsSpec | CodeToolWebchecker.py:208-210 | a label is matched exactly when one of its table patterns occurs, and a table with distinct labels yields each label at most once |
| Catalog.MatchedLabelsOrder | CodeToolWebchecker.py:208-210 | when two rules fire, the earlier rule's label is listed before the later one's, following table order |
| Catalog.FamiliesHit | CodeToolWebchecker.py:163-166 | the engine table yields at most one label per engine |
| Catalog.FamiliesHitSpec | CodeToolWebchecker.py:163-164 | an engine is listed exactly when one of its signatures occurs case-insensitively; a table with distinct engine names lists each at most once |
| Catalog.FirstFamilyHit | CodeToolWebchecker.py:143-146 | the vendor search returns a position of the vendor table |
| Catalog.FirstFamilyHitSpec | CodeToolWebchecker.py:143-146 | the vendor search returns a vendor with a marker and no earlier vendor has one, or fails when no vendor has one |
| Catalog.FirstFamilyHitIs | CodeToolWebchecker.py:143-146 | the first vendor in table order with a marker is the one the search returns |
| Catalog.FirstFamilyHitNone | CodeToolWebchecker.py:143-146 | the vendor search fails exactly when no vendor has a marker |
| Catalog.MySqlFamilyHit | CodeToolWebchecker.py:54 | a `mysqli_` occurrence in the lower-cased body makes MySQL a hit engine |
| Detection.DetectWaf | CodeToolWebchecker.py:138-153 | the WAF rule appends at most one label and returns True exactly when it appended one |
| Detection.DetectWafSpec | CodeToolWebchecker.py:143-151 | the first vendor in table order with a case-insensitive cookie marker is recorded; only without any marker is Cloudflare recorded, exactly when `cf-ray` exists or the server mentions cloudflare |
| Detection.DetectCdn | CodeToolWebchecker.py:168-176 | the CDN rule appends at most one label and keeps the old list |
| Detection.DetectCdnSpec | CodeToolWebchecker.py:170-176 | the CDN recorded is the first of cloudflare, akamai, fastly in the lower-cased server header, and nothing is recorded when none occurs |
| Detection.AppendHeader | CodeToolWebchecker.py:194-197 | a header rule appends at most one value and keeps the old list |
| Detection.AppendHeaderSpec | CodeToolWebchecker.py:194-197 | the value appended is verbatim that of the header matching the name up to case; without one nothing is appended |
| Detection.DetectCookieTech | CodeToolWebchecker.py:200-210 | the cookie rule keeps the old list and appends at most one label per table cookie |
| Detection.DetectCookieTechSpec | CodeToolWebchecker.py:208-210 | a label is appended exactly when its cookie name occurs case-sensitively in the cookie string, then once, and the labels follow table order |
| Detection.PhpBeforeJava | CodeToolWebchecker.py:202-203 | with both PHPSESSID and JSESSIONID present, PHP is recorded before Java, whatever their order in the cookie string |
| Detection.GeneratorContents | CodeToolWebchecker.py:216-218 | at most one content is collected per meta tag |
| Detection.GeneratorContentsSpec | CodeToolWebchecker.py:216-218 | a content, possibly None, is collected exactly when some tag named `generator` carries it |
| Detection.GeneratorContentsAppend | CodeToolWebchecker.py:216-218 | the contents of a concatenation of tags are the concatenation of their contents |
| Detection.GeneratorNoneListed | CodeToolWebchecker.py:216-218 | a generator tag without `content` puts None in CMS and the path rule keeps it |
| Detection.GeneratorNoneExactly | CodeToolWebchecker.py:216-228 | after the generator and path rules CMS holds None exactly when it already did or some generator tag lacks `content`; path labels never add None |
| Detection.GeneratorKeepsDuplicates | CodeToolWebchecker.py:218 | two generator tags with equal content give two equal CMS entries |
| Detection.SomesSpec | CodeToolWebchecker.py:228 | the wrapped path labels are exactly the present values of the labels |
| Detection.DetectCmsPaths | CodeToolWebchecker.py:225-228 | the CMS path rule keeps the old list as a prefix |
| Detection.DetectCmsPathsSpec | CodeToolWebchecker.py:225-228 | a CMS is listed exactly when it was listed or its path occurs; a listed entry gets no second copy and a new CMS appears once |
| Detection.AnalyzeScript | CodeToolWebchecker.py:263-266 | the script rule keeps the old list as a prefix |
| Detection.AnalyzeScriptSpec | CodeToolWebchecker.py:263-266 | a framework is listed exactly when it was listed or the lower-cased source contains its key; no duplicate is introduced |
| Detection.AnalyzeScripts | CodeToolWebchecker.py:221-222 | analysing every source keeps the old list as a prefix |
| Detection.AnalyzeScriptsSpec | CodeToolWebchecker.py:251-266 | after all sources a framework is listed exactly when it was listed or some source reveals it; a duplicate-free list stays duplicate-free |
| Detection.ScriptOrderIrrelevant | CodeToolWebchecker.py:221-222 | any rearrangement of the sources gives the same frameworks and the same number of entries |
| Detection.DbHeaderValues | CodeToolWebchecker.py:158-160 | at most one value is collected per header |
| Detection.DbHeaderValuesSpec | CodeToolWebchecker.py:158-160 | a value is collected exactly when a header whose lower-cased name contains "db" carries it |
| Detection.DbHeaderValuesAppend | CodeToolWebchecker.py:158-160 | header values are collected header by header, verbatim and with no deduplication |
| Detection.DetectDatabase | CodeToolWebchecker.py:155-166 | the header values are appended first and both are kept as a prefix |
| Detection.DetectDatabaseSpec | CodeToolWebchecker.py:155-166 | an engine is listed exactly when it was listed or one of its signatures occurs case-insensitively; it never adds a second copy and appears at most once when new |
| Detection.SecurityEntries | CodeToolWebchecker.py:234-244 | the security rule yields one entry per table header |
| Detection.SecurityEntriesSpec | CodeToolWebchecker.py:240-244 | entry i is header i's description when present up to case, else "Missing " followed by the header name |
| Detection.DetectWafAppends | CodeToolWebchecker.py:145-150 | the WAF label appended does not depend on the list |
| Detection.DetectCdnAppends | CodeToolWebchecker.py:171-176 | the CDN label appended does not depend on the list |
| Detection.AppendHeaderAppends | CodeToolWebchecker.py:194-197 | the header value appended does not depend on the list |
| Detection.DetectCookieTechAppends | CodeToolWebchecker.py:208-210 | the cookie labels appended do not depend on the list |
| Detection.DetectCmsPathsAccumulates | CodeToolWebchecker.py:225-228 | the CMS path rule adds the same set of entries to any list |
| Detection.AnalyzeScriptsAccumulates | CodeToolWebchecker.py:264-266 | the script rule adds the same set of frameworks to any list |
| Detection.DetectDatabaseAccumulates | CodeToolWebchecker.py:158-166 | the database rule adds the same set of entries to any list |
| Detection.CloudflareCdn | CodeToolWebchecker.py:171-172 | a server header mentioning cloudflare records Cloudflare as CDN |
| Detection.CloudflareWaf | CodeToolWebchecker.py:143-151 | a server header mentioning cloudflare records Cloudflare as WAF unless an Akamai or Imperva marker matches and no Cloudflare cookie marker does |
| Detection.WordPressLogin | CodeToolWebchecker.py:206-210 | a `wordpress_logged_in` cookie appends WordPress |
| Detection.WordPressPath | CodeToolWebchecker.py:63 | a `/wp-content/` path lists WordPress as CMS |
| Detection.MySqlSignature | CodeToolWebchecker.py:163-166 | a `mysqli_` signature in any letter case lists MySQL as database |
| Detection.SecurityAppended | CodeToolWebchecker.py:240-244 | the four Security entries follow the old list, each the description or "Missing <header>" |
| Retry.Invoke | CodeToolWebchecker.py:118-136 | the plain and X-Forwarded-For techniques turn a 4xx or 5xx response into None; the chunked technique returns every response; an exception gives None |
| Retry.TechniqueIrrelevant | CodeToolWebchecker.py:113 | whether an attempt is accepted depends only on the transport returning status 200 |
| Retry.ObfuscateRequest | CodeToolWebchecker.py:102-116 | at most `max_retries` attempts; a result is the first attempt with status 200 and every earlier attempt failed; None exactly when all `max_retries` attempts failed |
| Fingerprint.DetectExtends | CodeToolWebchecker.py:189-244 | a scan only appends; WAF, CDN and Web Server gain at most one entry, Security exactly four |
| Fingerprint.SecurityEntriesPerHeader | CodeToolWebchecker.py:234-244 | each scan appends exactly four Security entries in table order, the description or "Missing <header>" |
| Fingerprint.FreshFrameworks | CodeToolWebchecker.py:221-222 | from the constructor's empty record the frameworks have no duplicates and are exactly those some script source reveals |
| Fingerprint.HeaderCategoriesAccumulate | CodeToolWebchecker.py:189-197 | WAF, CDN, Web Server and Security of a later scan hold the earlier entries and those a fresh scan finds |
| Fingerprint.LanguageAccumulates | CodeToolWebchecker.py:196-210 | Programming Language of a later scan holds the earlier entries and those a fresh scan finds |
| Fingerprint.ListCategoriesAccumulate | CodeToolWebchecker.py:216-231 | CMS, JavaScript Frameworks and Database of a later scan hold the earlier entries and those a fresh scan finds |
| Fingerprint.DetectAccumulates | CodeToolWebchecker.py:189-244 | what a scan adds to the instance's record, as sets, is what a fresh scanner would find |
| Fingerprint.DetectIdempotentEntries | CodeToolWebchecker.py:189-244 | scanning the same response twice leaves every category with the entries of one scan |
| Fingerprint.CloudflareServer | CodeToolWebchecker.py:149-151 | a cloudflare server header puts Cloudflare in CDN and WAF unless an Akamai or Imperva marker matches and no Cloudflare cookie marker does |
| Fingerprint.WordPressCookie | CodeToolWebchecker.py:200-210 | a `wordpress_logged_in` cookie puts WordPress in Programming Language |
| Fingerprint.WordPressAndMySql | CodeToolWebchecker.py:225-231 | a body with a WordPress path and a MySQL signature yields both labels |
| Fingerprint.ScanCrashes | CodeToolWebchecker.py:271-274 | reporting the record of a scan from the empty record fails exactly when the page has a generator tag without `content` (the None it leaves, lines 216-218) |
| Fingerprint.GeneratorWithoutContent | CodeToolWebchecker.py:216-218 | a generator tag without `content` leaves None in CMS whatever else the scan finds, so reporting fails |
| Fingerprint.Scan | CodeToolWebchecker.py:178-249 | NoResponse exactly when every attempt failed; otherwise the outcome is the report of the record detected from the empty record on the first accepted response |

## Left out

- HTTP itself is not modelled: sessions, redirects, TLS, streaming, timeouts and the user agent. Each attempt's raw outcome is the `transport` oracle: a response, or None for a request exception.
- The random choice of technique, user agent and `X-Forwarded-For` octets, and the random sleep, are not modelled. The technique of attempt `i` is the `choose` oracle.
- HTML parsing is not modelled. The document's meta tags and script sources are given as inputs (`Scan` takes the parser as a parameter).
- The thread pool that runs the script rule is modelled as a sequential fold in source order. In the code the `not in` test and the append run unsynchronised in several threads, so two sources revealing the same framework can both append it, giving duplicates as well as another order. `Detection.ScriptOrderIrrelevant` covers only a different sequential order.
- Detection.AnalyzeScriptsSpec: its duplicate-freedom holds for the sequential fold only, not for the concurrent appends of the thread pool.
- Fingerprint.FreshFrameworks: its duplicate-freedom holds for the sequential fold only, not for the concurrent appends of the thread pool.
- The proxy setup, the banner, colour output, the text written when reporting, saving to JSON and the command-line entry point are not modelled. Only whether reporting raises is modelled (`Fingerprint.Report`, `Fingerprint.ScanCrashes`).
- The timeout and `max_retries` defaults set by the constructor are not fixed: the retry budget is a parameter of `Scan`, and timeouts belong to the transport.
- Case-insensitive matching covers ASCII letters only. Python's Unicode case folding is not modelled.
- `requests` joins several `Set-Cookie` headers into one string; the model takes that joined string as the single header value.
- Fingerprint.CloudflareServer: requires that the first WAF vendor whose cookie marker matches is not Akamai or Imperva, because then the code records that vendor as WAF instead of Cloudflare.
