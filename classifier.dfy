/** `check_username`: one profile lookup, its response mapped to a status label.
    The HTTP exchange itself is outside the model; its result is the `Response`
    handed in. */
module Classifier {

  /** `API_URL` up to its `{}` placeholder. */
  const PROFILE_API: string := "https://api.phantom.app/user/v1/profiles/"

  /** The lookup URL for `username`: the placeholder replaced by the name. */
  function ProfileUrl(username: string): (url: string)
    ensures |url| == |PROFILE_API| + |username|
    ensures url[..|PROFILE_API|] == PROFILE_API && url[|PROFILE_API|..] == username
  {
    PROFILE_API + username
  }

  /** Different usernames are looked up at different URLs. */
  lemma ProfileUrlInjective(a: string, b: string)
    ensures ProfileUrl(a) == ProfileUrl(b) <==> a == b
  {
    if ProfileUrl(a) == ProfileUrl(b) {
      assert a == ProfileUrl(a)[|PROFILE_API|..];
    }
  }

  /** The labels `check_username` returns. */
  const AVAILABLE: string := "available"
  const BLACKLISTED: string := "blacklisted"
  const TAKEN: string := "taken"
  const ERROR: string := "error"

  /** Whether a raised exception is a `requests.RequestException` (which
      `check_username` catches) or some other exception (which it lets through). */
  datatype Exception = RequestException | OtherException

  /** What `"username" in data` does with the decoded body: true, false, or a
      `TypeError` when the decoded value is a number, a boolean or null. */
  datatype Membership = HasUsername | LacksUsername | NotContainer

  /** The body as `response.json()` sees it. When it is not valid JSON the
      call raises; the class of that exception depends on the version of
      `requests` (a `RequestException` subclass in newer releases, a plain
      `ValueError` in older ones). */
  datatype Body = Undecodable(raises: Exception) | Decoded(membership: Membership)

  /** The outcome of `requests.get`: a transport failure (timeout, refused
      connection, ...; always a `RequestException`) or a status code and body. */
  datatype Response = TransportFailure | Status(code: int, body: Body)

  /** A Python call either returns a value or raises. */
  datatype Outcome<+T> = Returned(value: T) | Raised(error: Exception)

  /** The exceptions that escape the 200 branch of `check_username`. */
  predicate EscapesCheck(body: Body) {
    body == Undecodable(OtherException) || body == Decoded(NotContainer)
  }

  /** `check_username` after the request: the status table. */
  function Classify(response: Response): (status: Outcome<string>)
    ensures status == Returned(AVAILABLE) <==> response.Status? && response.code == 404
    ensures status == Returned(BLACKLISTED) <==> response.Status? && response.code == 403
    ensures status == Returned(TAKEN) <==>
              response.Status? && response.code == 200 && response.body == Decoded(HasUsername)
    ensures status == Returned(ERROR) <==>
              response.TransportFailure?
              || (response.Status? && response.code !in {200, 403, 404})
              || (response.Status? && response.code == 200
                  && response.body in {Decoded(LacksUsername), Undecodable(RequestException)})
    ensures status.Raised? <==>
              response.Status? && response.code == 200 && EscapesCheck(response.body)
    ensures status.Returned? ==> status.value in {AVAILABLE, BLACKLISTED, TAKEN, ERROR}
    ensures status.Raised? ==> status.error == OtherException
  {
    match response
    case TransportFailure => Returned(ERROR)
    case Status(code, body) =>
      if code == 404 then Returned(AVAILABLE)
      else if code == 403 then Returned(BLACKLISTED)
      else if code == 200 then
        match body
        case Undecodable(RequestException) => Returned(ERROR)
        case Undecodable(OtherException) => Raised(OtherException)
        case Decoded(HasUsername) => Returned(TAKEN)
        case Decoded(LacksUsername) => Returned(ERROR)
        case Decoded(NotContainer) => Raised(OtherException)
      else Returned(ERROR)
  }
}
