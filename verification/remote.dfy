/** The abstract result of one HTTP call, and the two fallbacks every caller applies to
    it: the `||`-chain that picks the error message shown, and `data || []`. */
module Remote {
  import opened Wrappers

  /** What a rejected axios call carries: `err.response?.data?.message` (the server's
      message) and `err.message` (the client-side description). */
  datatype HttpError = HttpError(serverMessage: Option<string>, message: Option<string>)

  /** A settled call: the response body on success, the error on failure. */
  datatype Outcome<+T> = Success(body: T) | Failure(error: HttpError)

  /** JavaScript truthiness of a possibly absent string: present and non-empty. */
  predicate Truthy(s: Option<string>) {
    s.Some? && s.value != []
  }

  /** No candidate before position `k` is truthy. */
  predicate NoneTruthyBefore(candidates: seq<Option<string>>, k: nat)
    requires k <= |candidates|
  {
    forall j | 0 <= j < k :: !Truthy(candidates[j])
  }

  /** `c0 || c1 || ... || fallback`: the first truthy candidate, else the fallback. */
  function FirstTruthy(candidates: seq<Option<string>>, fallback: string): (r: string)
    ensures forall k | 0 <= k < |candidates| && Truthy(candidates[k]) && NoneTruthyBefore(candidates, k) ::
      r == candidates[k].value
    ensures NoneTruthyBefore(candidates, |candidates|) ==> r == fallback
    ensures fallback != [] ==> r != []
  {
    if |candidates| == 0 then fallback
    else if Truthy(candidates[0]) then candidates[0].value
    else FirstTruthy(candidates[1..], fallback)
  }

  /** `data || []` for a list payload: an absent payload reads as the empty list. */
  function OrEmptyList<T>(data: Option<seq<T>>): seq<T> {
    data.GetOr([])
  }
}
