/**
 * `get_auth`: the request signature. The signed string is the HTTP verb,
 * the timestamp, the lower-cased path and the raw query, one newline between
 * each; the key is the upper-cased shared secret. HMAC-SHA256 followed by
 * base64 is a library call and stays a parameter (`Signer`).
 */
module Auth {
  import opened Wrappers
  import opened Strings
  import Url
  import Timestamp

  /** base64(HMAC-SHA256(message, key)) with a raw digest; applied as `sign(message, key)`. */
  type Signer = (string, string) -> string

  /** The base64 alphabet of section 4 of RFC 4648, with its `=` padding. */
  predicate IsBase64Char(c: char) {
    'A' <= c <= 'Z' || 'a' <= c <= 'z' || '0' <= c <= '9' || c == '+' || c == '/' || c == '='
  }

  predicate IsBase64(s: string) {
    forall i :: 0 <= i < |s| ==> IsBase64Char(s[i])
  }

  /** The one property assumed of the signer: its output is base64 text. */
  ghost predicate Base64Signer(sign: Signer) {
    forall m, k :: IsBase64(sign(m, k))
  }

  /** What `get_auth` returns: the signature (`"secret"`) and the `Timestamp` header value. */
  datatype AuthResult = AuthResult(secret: string, timestamp: string)

  /** The string that is signed: `METHOD \n TIMESTAMP \n lower(PATH) \n QUERY`. */
  function CanonicalString(verb: string, timestamp: string, path: string, query: string): string {
    verb + "\n" + timestamp + "\n" + ToLower(path) + "\n" + query
  }

  /** Path and query as signed: the captures, or "" for both when the pattern does not match. */
  function SignedTarget(url: string): (t: Url.Target)
    ensures Url.Extract(url).None? ==> t == Url.Target("", "")
    ensures Url.Extract(url).Some? ==> t == Url.Extract(url).value
  {
    Url.Extract(url).GetOr(Url.Target("", ""))
  }

  /** The canonical string `get_auth` signs for `url`. */
  function SignedMessage(url: string, verb: string, timestamp: string): string {
    var t := SignedTarget(url);
    CanonicalString(verb, timestamp, t.path, t.query)
  }

  /** `strtoupper(getenv("ATM_SECRET"))`; an unset variable (`getenv` gives false) reads as "". */
  function SigningKey(env: Option<string>): (key: string)
    ensures env.None? ==> key == ""
    ensures |key| == |env.GetOr("")|
    ensures forall i :: 0 <= i < |key| ==> !IsLower(key[i])
  {
    ToUpper(env.GetOr(""))
  }

  /** `get_auth($url, $method)` with `$method` = `verb`, at UTC time `now` with environment value `env`. */
  function GetAuth(url: string, verb: string, now: Timestamp.DateTime, env: Option<string>, sign: Signer): AuthResult
    requires Timestamp.Valid(now)
  {
    var timestamp := Timestamp.Format(now);
    AuthResult(sign(SignedMessage(url, verb, timestamp), SigningKey(env)), timestamp)
  }

  // ------------------------------------------------------------- lemmas

  lemma ToLowerKeepsNewlineOut(s: string)
    requires '\n' !in s
    ensures '\n' !in ToLower(s)
  {
    var r := ToLower(s);
    forall i | 0 <= i < |r| ensures r[i] != '\n' {
      assert s[i] != '\n';
    }
  }

  /** Splitting the canonical string at its newlines gives back the four parts when none holds a newline. */
  lemma CanonicalSplit(verb: string, timestamp: string, path: string, query: string)
    requires '\n' !in verb && '\n' !in timestamp && '\n' !in path && '\n' !in query
    ensures Split(CanonicalString(verb, timestamp, path, query), '\n') == [verb, timestamp, ToLower(path), query]
  {
    var parts := [verb, timestamp, ToLower(path), query];
    ToLowerKeepsNewlineOut(path);
    assert Join(parts[3..], '\n') == query;
    assert Join(parts[2..], '\n') == ToLower(path) + "\n" + query;
    assert Join(parts[1..], '\n') == timestamp + "\n" + ToLower(path) + "\n" + query;
    assert Join(parts, '\n') == CanonicalString(verb, timestamp, path, query);
    SplitJoin(parts, '\n');
  }

  /** Newline-free parts are determined by their canonical string. */
  lemma CanonicalInjective(m1: string, t1: string, p1: string, q1: string, m2: string, t2: string, p2: string, q2: string)
    requires '\n' !in m1 && '\n' !in t1 && '\n' !in p1 && '\n' !in q1
    requires '\n' !in m2 && '\n' !in t2 && '\n' !in p2 && '\n' !in q2
    requires CanonicalString(m1, t1, p1, q1) == CanonicalString(m2, t2, p2, q2)
    ensures m1 == m2 && t1 == t2 && ToLower(p1) == ToLower(p2) && q1 == q2
  {
    CanonicalSplit(m1, t1, p1, q1);
    CanonicalSplit(m2, t2, p2, q2);
  }

  /**
   * The signature `get_auth` returns is the signer applied to the upper-cased
   * secret and to a message whose newline-separated lines are the verb, the
   * returned timestamp, the lower-cased path and the verbatim query.
   */
  lemma GetAuthSignsLines(url: string, verb: string, now: Timestamp.DateTime, env: Option<string>, sign: Signer)
    requires Timestamp.Valid(now)
    requires '\n' !in verb
    ensures var a := GetAuth(url, verb, now, env, sign);
      var t := SignedTarget(url);
      var m := SignedMessage(url, verb, a.timestamp);
      && a.secret == sign(m, SigningKey(env))
      && Split(m, '\n') == [verb, a.timestamp, ToLower(t.path), t.query]
  {
    var t := SignedTarget(url);
    if Url.Extract(url).Some? {
      Url.ExtractShape(url);
    }
    CanonicalSplit(verb, Timestamp.Format(now), t.path, t.query);
  }

  /** The returned timestamp reads back as the signing time (four-digit years). */
  lemma GetAuthTimestamp(url: string, verb: string, now: Timestamp.DateTime, env: Option<string>, sign: Signer)
    requires Timestamp.Valid(now) && 0 <= now.year < 10000
    ensures Timestamp.Parse(GetAuth(url, verb, now, env, sign).timestamp) == Some(now)
  {
    Timestamp.ParseFormat(now);
  }

  /** When the pattern does not match, the signed path and query are both empty. */
  lemma MalformedUrlSignsEmpty(url: string, verb: string, timestamp: string)
    requires Url.Extract(url).None?
    ensures SignedMessage(url, verb, timestamp) == verb + "\n" + timestamp + "\n\n"
  {
  }

  /** Two secrets give the same key exactly when they differ only in letter case. */
  lemma SigningKeyIgnoresCase(a: string, b: string)
    ensures SigningKey(Some(a)) == SigningKey(Some(b)) <==> EqualIgnoringCase(a, b)
  {
    ToUpperEqualIff(a, b);
  }

  /** So secrets that differ only in letter case produce identical signatures. */
  lemma GetAuthIgnoresSecretCase(url: string, verb: string, now: Timestamp.DateTime, a: string, b: string, sign: Signer)
    requires Timestamp.Valid(now)
    requires EqualIgnoringCase(a, b)
    ensures GetAuth(url, verb, now, Some(a), sign) == GetAuth(url, verb, now, Some(b), sign)
  {
    SigningKeyIgnoresCase(a, b);
  }
}
