/**
 * The transport as the services see it: a request they issue and the answer
 * `fetch` gives back, plus the base-URL normalisation every service applies
 * in its constructor (`url.replace(/\/?$/, '/')`).
 */
module Http {
  import opened Types

  /**
   * The outcome of one `fetch`: a 2xx answer with its text, another status,
   * or a rejected promise (DNS, refused connection, ...).
   */
  datatype Response = Ok(body: string) | NotOk(status: int, body: string) | TransportFail

  /** The JSON bodies the action POSTs. */
  datatype Payload =
    | LoadPayload(fileName: Option<string>, fileType: string)
    | ParamsPayload(params: RunParams)

  datatype Request = Get(url: string) | Post(url: string, payload: Payload)

  predicate EndsWithSlash(s: string) {
    |s| > 0 && s[|s| - 1] == '/'
  }

  /**
   * `url.replace(/\/?$/, '/')`: the regular expression matches one optional
   * `/` at the very end, so an URL that already ends in `/` is kept and any
   * other gets exactly one `/` appended.
   */
  function NormalizeUrl(url: string): (r: string)
    ensures EndsWithSlash(r)
    ensures EndsWithSlash(url) ==> r == url
    ensures !EndsWithSlash(url) ==> r == url + "/"
  {
    if EndsWithSlash(url) then url else url + "/"
  }

  /** Normalising a normalised URL changes nothing. */
  lemma NormalizeUrlIdempotent(url: string)
    ensures NormalizeUrl(NormalizeUrl(url)) == NormalizeUrl(url)
  {
  }

  /**
   * A route appended to a normalised base is separated from the configured
   * URL by exactly one `/`, whether or not the configuration ended in one.
   */
  lemma RouteAfterBase(url: string, route: string)
    ensures NormalizeUrl(url) + route
         == if EndsWithSlash(url) then url + route else url + "/" + route
  {
  }

  /**
   * `response.ok` as the services return it: a rejected fetch is not caught,
   * so it propagates as a transport error; otherwise the flag says whether
   * the status was 2xx.
   */
  function OkFlag(response: Response): (r: Result<bool, Error>)
    ensures r.Failure? <==> response.TransportFail?
    ensures r.Failure? ==> r.error == Transport
    ensures r.Success? ==> (r.value <==> response.Ok?)
  {
    match response
    case TransportFail => Failure(Transport)
    case Ok(_) => Success(true)
    case NotOk(_, _) => Success(false)
  }
}
