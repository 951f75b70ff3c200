/**
 * `validate_user`: a POST of the credentials to the membership endpoint,
 * signed as the default user, and the decision taken on its response.
 */
module Membership {
  import opened Wrappers
  import Url
  import Auth
  import Client
  import Timestamp

  const ValidateUserUrl: string := Client.Backend + "/v2/it/Membership/ValidateUser"

  /**
   * The request `validate_user` sends; `credentials` is the JSON text
   * `json_encode` makes of the user name and the password "0".
   */
  function ValidateUserRequest(credentials: string, now: Timestamp.DateTime, env: Option<string>, sign: Auth.Signer): (r: Client.Request)
    requires Timestamp.Valid(now)
    ensures r.verb == "POST" && r.url == ValidateUserUrl && r.content == Some(credentials)
    ensures Client.SignedFor(r, Client.DefaultUser, now, env, sign)
  {
    Client.Post(ValidateUserUrl, credentials, Client.DefaultUser, now, env, sign)
  }

  predicate HasDigit(s: string) {
    exists i :: 0 <= i < |s| && '0' <= s[i] <= '9'
  }

  /**
   * `$result != "1"`, PHP's loose comparison. `false` against "1" compares
   * as booleans, and "1" is truthy, so a failed transfer counts as
   * registered. Bodies that PHP would compare numerically with "1" (such as
   * "01") are outside the model: a body is either "1" or has no digit.
   */
  function IsRegistered(result: Client.Response): (registered: bool)
    requires result.Body? ==> result.text == "1" || !HasDigit(result.text)
    ensures !registered <==> result == Client.Body("1")
    ensures result.Failed? ==> registered
  {
    match result
    case Failed => true
    case Body(text) => text != "1"
  }

  /** The membership request is signed over the path "/v2/it/Membership/ValidateUser" and an empty query. */
  lemma ValidateUserSignedTarget()
    ensures Auth.SignedTarget(ValidateUserUrl) == Url.Target("/v2/it/Membership/ValidateUser", "")
  {
    Client.BackendTarget("/v2/it/Membership/ValidateUser");
  }
}
