/**
 * The evasive request strategy: up to `maxRetries` attempts, each with a
 * technique picked at random, stopping at the first response with status
 * 200. The random pick and the network are oracles: `choose(i)` is the
 * technique of attempt `i` and `transport(i, t)` what the HTTP client
 * produced for it (None when it raised a request exception).
 */
module Retry {
  import opened Wrappers
  import opened Http

  /** Plain request, streamed request, plain request with a spoofed X-Forwarded-For. */
  datatype Technique = Basic | Chunked | ForwardedFor

  /** The status codes for which `raise_for_status` raises. */
  predicate ErrorStatus(status: int) {
    400 <= status < 600
  }

  /**
   * What a technique returns for what the transport produced. The two
   * plain variants call `raise_for_status` and turn an error status into
   * None; the streamed variant hands every response back.
   */
  function Invoke(t: Technique, raw: Option<Response>): (r: Option<Response>)
    ensures r.Some? ==> r == raw
    ensures raw.None? ==> r.None?
    ensures raw.Some? && r.None? <==> raw.Some? && t != Chunked && ErrorStatus(raw.value.status)
  {
    match raw
    case None => None
    case Some(resp) =>
      if t != Chunked && ErrorStatus(resp.status) then None else raw
  }

  /** The loop's success test: a response whose status is 200. */
  predicate Accepted(r: Option<Response>) {
    r.Some? && r.value.status == 200
  }

  /** Whether an attempt succeeds depends only on the transport, not on the technique. */
  lemma TechniqueIrrelevant(t: Technique, raw: Option<Response>)
    ensures Accepted(Invoke(t, raw)) <==> raw.Some? && raw.value.status == 200
  {
  }

  /** The outcome of attempt `i`. */
  function Attempt(i: nat, choose: nat -> Technique, transport: (nat, Technique) -> Option<Response>): Option<Response> {
    Invoke(choose(i), transport(i, choose(i)))
  }

  /** `range(n)` is empty for negative `n`. */
  function AttemptBudget(maxRetries: int): nat {
    if maxRetries < 0 then 0 else maxRetries
  }

  /**
   * The retry loop. Returns the first accepted response and the number of
   * attempts made, or None after the whole budget failed.
   */
  method ObfuscateRequest(maxRetries: int, choose: nat -> Technique, transport: (nat, Technique) -> Option<Response>)
    returns (r: Option<Response>, attempts: nat)
    ensures attempts <= AttemptBudget(maxRetries)
    ensures r.Some? ==> 1 <= attempts && r == Attempt(attempts - 1, choose, transport) && r.value.status == 200
    ensures r.Some? ==> forall i :: 0 <= i < attempts - 1 ==> !Accepted(Attempt(i, choose, transport))
    ensures r.None? ==> attempts == AttemptBudget(maxRetries)
    ensures r.None? <==> forall i :: 0 <= i < AttemptBudget(maxRetries) ==> !Accepted(Attempt(i, choose, transport))
  {
    attempts := 0;
    while attempts < maxRetries
      invariant attempts <= AttemptBudget(maxRetries)
      invariant forall i :: 0 <= i < attempts ==> !Accepted(Attempt(i, choose, transport))
      decreases maxRetries - attempts
    {
      var technique := choose(attempts);
      var response := Invoke(technique, transport(attempts, technique));
      attempts := attempts + 1;
      if response.Some? && response.value.status == 200 {
        return response, attempts;
      }
    }
    return None, attempts;
  }
}
