/**
 * What the client sees of the remote text-to-image endpoint: for each POST,
 * either a transport failure (the `requests.RequestException` it catches) or
 * an HTTP response.
 */
module Http {
  import opened PyText
  import opened PyJson

  /** The outcome of `response.json()`: a value, or the exception of a body that is not JSON. */
  datatype ParsedBody = Parsed(value: Json) | NotJson

  /**
   * The parts of a `requests.Response` the client reads. `contentType` is
   * the Content-Type header, "" when it is absent; `reason` is the status
   * reason phrase, "" when it is absent.
   */
  datatype Response = Response(
    status: int,
    contentType: string,
    content: seq<bv8>,
    text: string,
    json: ParsedBody,
    reason: string)

  /** One POST as the client experiences it; `message` is `str()` of the exception. */
  datatype Reply = TransportError(message: string) | Answer(response: Response)

  /**
   * `ct.lower().startswith("image/")`, checked character by character on the
   * first six characters (ImageTypeIsLowerPrefix shows it is the same test).
   */
  predicate IsImageType(ct: string) {
    && |ct| >= 6
    && LowerChar(ct[0]) == 'i' && LowerChar(ct[1]) == 'm' && LowerChar(ct[2]) == 'a'
    && LowerChar(ct[3]) == 'g' && LowerChar(ct[4]) == 'e' && ct[5] == '/'
  }

  /** The one answer the client accepts: status 200 carrying an image. */
  predicate IsImage(r: Response) {
    r.status == 200 && IsImageType(r.contentType)
  }

  /**
   * 502 Bad Gateway, 503 Service Unavailable and 504 Gateway Timeout
   * (sections 15.6.3 to 15.6.5 of RFC 9110): the statuses worth waiting for.
   */
  predicate IsTransientStatus(status: int) {
    status == 502 || status == 503 || status == 504
  }

  /** The character-by-character test is exactly "the lower-cased Content-Type starts with image/". */
  lemma ImageTypeIsLowerPrefix(ct: string)
    ensures IsImageType(ct) <==> StartsWith(Lower(ct), "image/")
  {
    var l := Lower(ct);
    if |ct| >= 6 {
      assert l[..6] == [l[0], l[1], l[2], l[3], l[4], l[5]];
    }
  }

  /** The test ignores case: "image/", "Image/" and "IMAGE/" all pass, and nothing else does. */
  lemma ImageTypeIgnoresCase(ct: string)
    ensures IsImageType(ct) <==>
      && |ct| >= 6
      && ct[0] in "iI" && ct[1] in "mM" && ct[2] in "aA" && ct[3] in "gG" && ct[4] in "eE"
      && ct[5] == '/'
  {
  }
}
