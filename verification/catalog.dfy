/**
 * The fixed signature tables of the scanner and the three ways the
 * detection rules consult them: every rule whose pattern occurs, every
 * family with some pattern occurring, and the first family in table
 * order with a pattern occurring. Table order is the insertion order of
 * the dictionaries the tables come from.
 */
module Catalog {
  import opened Wrappers
  import opened Strings
  import opened Seqs

  /** A literal pattern and the label it reveals. */
  datatype Signature = Signature(pattern: string, tech: string)

  /** A label revealed by any one of several literal patterns. */
  datatype Family = Family(tech: string, patterns: seq<string>)

  /** Database engines and the body signatures of each. */
  const DbEngines: seq<Family> := [
    Family("MySQL", ["mysql_", "mysqli_", "MySQLdb"]),
    Family("PostgreSQL", ["pg_", "postgres", "PostgreSQL"]),
    Family("SQLite", ["sqlite3", "SQLite3"]),
    Family("MongoDB", ["mongodb", "mongo"]),
    Family("Oracle", ["oracle", "oci8"]),
    Family("Microsoft SQL", ["sqlsrv", "mssql"])
  ]

  /** Asset-path conventions found in the body, and the CMS each reveals. */
  const CmsPaths: seq<Signature> := [
    Signature("/wp-content/", "WordPress"),
    Signature("/_next/static/", "Next.js"),
    Signature("/media/jui/", "Joomla"),
    Signature("/sites/all/", "Drupal"),
    Signature("/static/assets/", "Shopify"),
    Signature("/wix-static/", "Wix")
  ]

  /** Cookie markers of web application firewalls. */
  const WafVendors: seq<Family> := [
    Family("Cloudflare", ["__cfduid", "cloudflare", "cf-ray"]),
    Family("Akamai", ["akamai"]),
    Family("Imperva", ["incap_ses", "visid_incap"])
  ]

  /** The CDN names looked for in the lower-cased `Server` header, by priority. */
  const CdnSignatures: seq<Signature> := [
    Signature("cloudflare", "Cloudflare"),
    Signature("akamai", "Akamai"),
    Signature("fastly", "Fastly")
  ]

  /** Session-cookie names and the language or framework each reveals. */
  const CookieTech: seq<Signature> := [
    Signature("PHPSESSID", "PHP"),
    Signature("JSESSIONID", "Java"),
    Signature("ASP.NET_SessionId", "ASP.NET"),
    Signature("laravel_session", "PHP (Laravel)"),
    Signature("wordpress_logged_in", "WordPress")
  ]

  /** Protective headers and the description recorded when each is present. */
  const SecurityHeaders: seq<Signature> := [
    Signature("X-Frame-Options", "Clickjacking Protection"),
    Signature("Content-Security-Policy", "CSP Enabled"),
    Signature("X-Content-Type-Options", "MIME Sniffing Prevention"),
    Signature("Strict-Transport-Security", "HSTS Enabled")
  ]

  /** Substrings of a lower-cased script source and the framework each reveals. */
  const JsFrameworks: seq<Signature> := [
    Signature("jquery", "jQuery"),
    Signature("react", "React"),
    Signature("angular", "Angular"),
    Signature("vue", "Vue.js"),
    Signature("next", "Next.js"),
    Signature("svelte", "Svelte"),
    Signature("ember", "Ember.js")
  ]

  /** No two rules of a table carry the same label. */
  predicate DistinctLabels(rules: seq<Signature>) {
    forall i, j :: 0 <= i < j < |rules| ==> rules[i].tech != rules[j].tech
  }

  /** No two families of a table carry the same label. */
  predicate DistinctFamilies(fams: seq<Family>) {
    forall i, j :: 0 <= i < j < |fams| ==> fams[i].tech != fams[j].tech
  }

  /** Rule `i` of `rules` fires on `hay`. */
  predicate Fires(rules: seq<Signature>, i: int, hay: string)
    requires 0 <= i < |rules|
  {
    Contains(hay, rules[i].pattern)
  }

  /** The labels of the rules whose pattern occurs in `hay`, in table order. */
  function MatchedLabels(rules: seq<Signature>, hay: string): (r: seq<string>)
    ensures |r| <= |rules|
  {
    if rules == [] then []
    else if Contains(hay, rules[0].pattern) then [rules[0].tech] + MatchedLabels(rules[1..], hay)
    else MatchedLabels(rules[1..], hay)
  }

  /**
   * A label is matched exactly when one of its rules fires; a table with
   * distinct labels yields each at most once.
   */
  lemma {:induction false} MatchedLabelsSpec(rules: seq<Signature>, hay: string)
    ensures forall l :: l in MatchedLabels(rules, hay) <==>
              exists i :: 0 <= i < |rules| && rules[i].tech == l && Fires(rules, i, hay)
    ensures DistinctLabels(rules) ==> NoDup(MatchedLabels(rules, hay))
  {
    if rules != [] {
      var rest := MatchedLabels(rules[1..], hay);
      MatchedLabelsSpec(rules[1..], hay);
      assert forall i :: 0 <= i < |rules[1..]| ==> rules[1..][i] == rules[i + 1];
      assert forall i :: 1 <= i < |rules| ==> rules[i] == rules[1..][i - 1];
      assert DistinctLabels(rules) ==> DistinctLabels(rules[1..]) && rules[0].tech !in rest;
    }
  }

  /**
   * Matched labels keep table order: when rules `i < j` both fire, the
   * label of rule `i` is listed before the label of rule `j`.
   */
  lemma {:induction false} MatchedLabelsOrder(rules: seq<Signature>, hay: string)
    ensures forall i, j :: 0 <= i < j < |rules| && Fires(rules, i, hay) && Fires(rules, j, hay) ==>
              Before(MatchedLabels(rules, hay), rules[i].tech, rules[j].tech)
  {
    if rules != [] {
      var rest := MatchedLabels(rules[1..], hay);
      MatchedLabelsOrder(rules[1..], hay);
      MatchedLabelsSpec(rules[1..], hay);
      forall i, j | 0 <= i < j < |rules| && Fires(rules, i, hay) && Fires(rules, j, hay)
        ensures Before(MatchedLabels(rules, hay), rules[i].tech, rules[j].tech)
      {
        assert rules[j] == rules[1..][j - 1];
        assert Fires(rules[1..], j - 1, hay);
        assert rules[j].tech in rest;
        if i == 0 {
          var q :| 0 <= q < |rest| && rest[q] == rules[j].tech;
          assert MatchedLabels(rules, hay)[q + 1] == rest[q];
        } else {
          assert rules[i] == rules[1..][i - 1];
          assert Fires(rules[1..], i - 1, hay);
          var p, q :| 0 <= p < q < |rest| && rest[p] == rules[i].tech && rest[q] == rules[j].tech;
          if Fires(rules, 0, hay) {
            assert MatchedLabels(rules, hay)[p + 1] == rest[p];
            assert MatchedLabels(rules, hay)[q + 1] == rest[q];
          }
        }
      }
    }
  }

  /** Some pattern of `f` occurs, case-insensitively, in the lower-cased `hay`. */
  predicate FamilyHit(f: Family, hay: string) {
    exists k :: 0 <= k < |f.patterns| && Contains(hay, Lower(f.patterns[k]))
  }

  /** The labels of the families hit in the lower-cased `hay`, in table order. */
  function FamiliesHit(fams: seq<Family>, hay: string): (r: seq<string>)
    ensures |r| <= |fams|
  {
    if fams == [] then []
    else if FamilyHit(fams[0], hay) then [fams[0].tech] + FamiliesHit(fams[1..], hay)
    else FamiliesHit(fams[1..], hay)
  }

  /** A family's label is listed exactly when the family is hit. */
  lemma {:induction false} FamiliesHitSpec(fams: seq<Family>, hay: string)
    ensures forall l :: l in FamiliesHit(fams, hay) <==>
              exists i :: 0 <= i < |fams| && fams[i].tech == l && FamilyHit(fams[i], hay)
    ensures DistinctFamilies(fams) ==> NoDup(FamiliesHit(fams, hay))
  {
    if fams != [] {
      var rest := FamiliesHit(fams[1..], hay);
      FamiliesHitSpec(fams[1..], hay);
      assert forall i :: 0 <= i < |fams[1..]| ==> fams[1..][i] == fams[i + 1];
      assert forall i :: 1 <= i < |fams| ==> fams[i] == fams[1..][i - 1];
      assert DistinctFamilies(fams) ==> DistinctFamilies(fams[1..]) && fams[0].tech !in rest;
    }
  }

  /**
   * The index of the first family at or after `from` that is hit in the
   * lower-cased `hay`.
   */
  function FirstFamilyHit(fams: seq<Family>, hay: string, from: nat): (r: Option<nat>)
    requires from <= |fams|
    ensures r.Some? ==> from <= r.value < |fams|
    decreases |fams| - from
  {
    if from == |fams| then None
    else if FamilyHit(fams[from], hay) then Some(from)
    else FirstFamilyHit(fams, hay, from + 1)
  }

  /** The search returns a hit family with no hit family before it, or None when none is hit. */
  lemma {:induction false} FirstFamilyHitSpec(fams: seq<Family>, hay: string, from: nat)
    requires from <= |fams|
    ensures FirstFamilyHit(fams, hay, from).Some? ==>
              FamilyHit(fams[FirstFamilyHit(fams, hay, from).value], hay)
              && forall j :: from <= j < FirstFamilyHit(fams, hay, from).value ==> !FamilyHit(fams[j], hay)
    ensures FirstFamilyHit(fams, hay, from).None? ==> forall j :: from <= j < |fams| ==> !FamilyHit(fams[j], hay)
    decreases |fams| - from
  {
    if from < |fams| && !FamilyHit(fams[from], hay) {
      FirstFamilyHitSpec(fams, hay, from + 1);
    }
  }

  /** A hit family with no hit family before it is the one the search returns. */
  lemma FirstFamilyHitIs(fams: seq<Family>, hay: string, k: nat)
    requires k < |fams| && FamilyHit(fams[k], hay)
    requires forall j :: 0 <= j < k ==> !FamilyHit(fams[j], hay)
    ensures FirstFamilyHit(fams, hay, 0) == Some(k)
  {
    FirstFamilyHitSpec(fams, hay, 0);
  }

  /** The search from the start fails exactly when no family is hit. */
  lemma FirstFamilyHitNone(fams: seq<Family>, hay: string)
    ensures FirstFamilyHit(fams, hay, 0).None? <==> forall j :: 0 <= j < |fams| ==> !FamilyHit(fams[j], hay)
  {
    FirstFamilyHitSpec(fams, hay, 0);
  }

  /** A `mysqli_` occurrence in the lower-cased text lists MySQL. */
  lemma MySqlFamilyHit(hay: string)
    requires Contains(hay, "mysqli_")
    ensures "MySQL" in FamiliesHit(DbEngines, hay)
  {
    assert Lower(DbEngines[0].patterns[1]) == "mysqli_";
    assert FamilyHit(DbEngines[0], hay);
    FamiliesHitSpec(DbEngines, hay);
  }
}
