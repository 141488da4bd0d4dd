/**
 * The parts of one HTTP response that fingerprinting reads: the status,
 * the header table with case-insensitive names, the body text, and the
 * parsed document (meta tags and script sources).
 */
module Http {
  import opened Wrappers
  import opened Strings

  datatype Header = Header(name: string, value: string)

  /** No two headers have names equal up to case. */
  predicate DistinctNames(hs: seq<Header>) {
    forall i, j :: 0 <= i < j < |hs| ==> Lower(hs[i].name) != Lower(hs[j].name)
  }

  /**
   * A header table. Like a case-insensitive dictionary it never holds two
   * names that differ only in case; iteration follows the sequence order.
   */
  type Headers = hs: seq<Header> | DistinctNames(hs) witness []

  /** The value of the header called `name`, compared case-insensitively. */
  function Get(hs: seq<Header>, name: string): Option<string> {
    if hs == [] then None
    else if EqualFold(hs[0].name, name) then Some(hs[0].value)
    else Get(hs[1..], name)
  }

  /** The lookup fails exactly when no name matches, and otherwise returns a matching entry's value. */
  lemma {:induction false} GetSpec(hs: seq<Header>, name: string)
    ensures Get(hs, name).None? <==> forall i :: 0 <= i < |hs| ==> Lower(hs[i].name) != Lower(name)
    ensures Get(hs, name).Some? ==>
              exists i :: 0 <= i < |hs| && Lower(hs[i].name) == Lower(name) && hs[i].value == Get(hs, name).value
  {
    if hs != [] {
      EqualFoldSpec(hs[0].name, name);
      GetSpec(hs[1..], name);
      assert forall i :: 1 <= i < |hs| ==> hs[i] == hs[1..][i - 1];
      if Get(hs, name).Some? && Lower(hs[0].name) != Lower(name) {
        var i :| 0 <= i < |hs[1..]| && Lower(hs[1..][i].name) == Lower(name) && hs[1..][i].value == Get(hs, name).value;
        assert hs[i + 1] == hs[1..][i];
      }
    }
  }

  /** In a table with distinct names the lookup finds the one matching entry. */
  lemma GetFinds(hs: Headers, name: string, i: int)
    requires 0 <= i < |hs| && Lower(hs[i].name) == Lower(name)
    ensures Get(hs, name) == Some(hs[i].value)
  {
    GetSpec(hs, name);
    var j :| 0 <= j < |hs| && Lower(hs[j].name) == Lower(name) && hs[j].value == Get(hs, name).value;
    assert j == i;
  }

  /** Every entry whose name matches `name` up to case carries the value the lookup returns. */
  lemma GetAll(hs: Headers, name: string)
    ensures forall i :: 0 <= i < |hs| && Lower(hs[i].name) == Lower(name) ==> Get(hs, name) == Some(hs[i].value)
  {
    forall i | 0 <= i < |hs| && Lower(hs[i].name) == Lower(name)
      ensures Get(hs, name) == Some(hs[i].value)
    {
      GetFinds(hs, name, i);
    }
  }

  /** `name in headers` for a case-insensitive dictionary. */
  predicate Has(hs: seq<Header>, name: string) {
    Get(hs, name).Some?
  }

  /** `headers.get(name, default)`. */
  function GetOr(hs: seq<Header>, name: string, default: string): string {
    Get(hs, name).GetOr(default)
  }

  datatype Response = Response(status: int, headers: Headers, body: string)

  /** A `<meta>` tag's `name` and `content` attributes, each possibly absent. */
  datatype Meta = Meta(name: Option<string>, content: Option<string>)

  /**
   * What the HTML parser yields for the body: every meta tag, and the `src`
   * value of every script tag that has one, in document order.
   */
  datatype Document = Document(metas: seq<Meta>, scripts: seq<string>)
}
