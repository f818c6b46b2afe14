/**
 * The HTTP client's two interceptors (`api`): the authorization header on
 * the way out, and the message an error carries on the way back.
 */
module Api {
  import opened Common

  // -------------------------------------------------------------- requests

  /** A request's configuration, reduced to its headers (None when the
      configuration has no header object). */
  datatype Config = Config(headers: Option<map<string, string>>)

  const AuthorizationHeader := "Authorization"

  /** The request interceptor: with a stored token (present and non-empty)
      and a header object, the header "Authorization" is set to
      "Bearer <token>"; otherwise the configuration goes out unchanged. No
      other header is touched. */
  function Authorize(c: Config, token: Option<string>): (r: Config)
    ensures !Truthy(token) || c.headers.None? ==> r == c
    ensures Truthy(token) && c.headers.Some? ==>
              r.headers.Some? && AuthorizationHeader in r.headers.value
              && r.headers.value[AuthorizationHeader] == "Bearer " + token.value
    ensures r.headers.Some? <==> c.headers.Some?
    ensures c.headers.Some? ==> forall h :: h in c.headers.value && h != AuthorizationHeader ==>
              h in r.headers.value && r.headers.value[h] == c.headers.value[h]
    ensures c.headers.Some? ==> r.headers.value.Keys <= c.headers.value.Keys + {AuthorizationHeader}
  {
    if Truthy(token) && c.headers.Some? then Config(Some(c.headers.value[AuthorizationHeader := "Bearer " + token.value]))
    else c
  }

  /** Passing a request through the interceptor twice is passing it once. */
  lemma AuthorizeIdempotent(c: Config, token: Option<string>)
    ensures Authorize(Authorize(c, token), token) == Authorize(c, token)
  {
    if Truthy(token) && c.headers.Some? {
      var once := c.headers.value[AuthorizationHeader := "Bearer " + token.value];
      assert once[AuthorizationHeader := "Bearer " + token.value] == once;
    }
  }

  // ---------------------------------------------------------------- errors

  /** One entry of an error body's `errors` array; its `message` may be
      missing. */
  datatype ErrorItem = ErrorItem(message: Option<string>)

  /** An error body: its `message`, and its `errors` (None when it is not
      an array). */
  datatype ErrorBody = ErrorBody(message: Option<string>, errors: Option<seq<ErrorItem>>)

  const UnknownError := "Unknown error!"

  /** The text of `new Error(m)`: a missing message gives "". */
  function ErrorText(m: Option<string>): string {
    if m.None? then "" else m.value
  }

  /** The detail the server gave: its truthy `message`, else the message of
      the first entry of a non-empty `errors` array; None without either. */
  function Detail(body: ErrorBody): Option<Option<string>> {
    if Truthy(body.message) then Some(body.message)
    else if body.errors.Some? && |body.errors.value| > 0 then Some(body.errors.value[0].message)
    else None
  }

  /** The response interceptor's message for a failed request. `response`
      is None when no response arrived and Some(None) when it has no body. */
  function ErrorMessage(response: Option<Option<ErrorBody>>): (r: string)
    ensures response.None? || response.value.None? ==> r == UnknownError
    ensures response.Some? && response.value.Some? && Detail(response.value.value).Some? ==>
              r == ErrorText(Detail(response.value.value).value)
    ensures response.Some? && response.value.Some? && Detail(response.value.value).None? ==> r == UnknownError
  {
    var errorMessage := UnknownError;
    if response.None? then errorMessage
    else
      var data := response.value;
      if data.None? then errorMessage
      else if Truthy(data.value.message) then data.value.message.value
      else if data.value.errors.Some? && |data.value.errors.value| > 0 then ErrorText(data.value.errors.value[0].message)
      else errorMessage
  }

  /** A message the server sends is what the user reads, whatever else the
      body holds. */
  lemma ServerMessageWins(m: string, errors: Option<seq<ErrorItem>>)
    requires m != ""
    ensures ErrorMessage(Some(Some(ErrorBody(Some(m), errors)))) == m
  {
  }

  /** Without a message, the first listed error speaks for all of them. */
  lemma FirstErrorSpeaks(first: string, rest: seq<ErrorItem>, m: Option<string>)
    requires !Truthy(m)
    ensures ErrorMessage(Some(Some(ErrorBody(m, Some([ErrorItem(Some(first))] + rest))))) == first
  {
  }
}
