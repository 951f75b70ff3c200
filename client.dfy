/**
 * `get` and `post`: the authentication token, the header block and the
 * request each one hands to the HTTP stream. Sending it is I/O and is not
 * modelled; a request is the value `stream_context_create` is given.
 */
module Client {
  import opened Wrappers
  import opened Strings
  import Auth
  import Timestamp
  import Url

  /** The `$user` that `get` and `post` use when none is given. */
  const DefaultUser: string := "ATMApp"

  /** The host of the three endpoints the script calls. */
  const Host: string := "atm-be.sg.engitel.com"

  /** Scheme and host of those endpoints. */
  const Backend: string := "https://" + Host

  const ContentType: string := "application/json; charset=utf-8"

  /** `sprintf("%s:%s", $user, $signature)`. */
  function Token(user: string, signature: string): string {
    user + ":" + signature
  }

  /** Splits a token at its last `:` into user and signature; None when it has no `:`. */
  function SplitToken(token: string): Option<(string, string)> {
    match LastIndexOf(token, ':')
    case None => None
    case Some(i) => Some((token[..i], token[i + 1..]))
  }

  /** The `header` option of `get` and `post`. */
  function HeaderBlock(timestamp: string, token: string): string {
    "Content-Type: " + ContentType + "\r\n" + "Timestamp: " + timestamp + "\r\n" + "Authentication: " + token + "\r\n"
  }

  /** An HTTP header field as a receiver reads it. */
  datatype Header = Header(name: string, value: string)

  /** A `Name: value` line ended by a carriage return; the name ends at the first colon. */
  function ParseLine(line: string): Option<Header> {
    if |line| == 0 || line[|line| - 1] != '\r' then None
    else
      var body := line[..|line| - 1];
      var i := Find(body, {':'}, 0);
      if i + 1 < |body| && body[i + 1] == ' ' then Some(Header(body[..i], body[i + 2..])) else None
  }

  function ParseLines(lines: seq<string>): Option<seq<Header>>
    decreases |lines|
  {
    if |lines| == 0 then Some([])
    else
      var h, hs := ParseLine(lines[0]), ParseLines(lines[1..]);
      if h.Some? && hs.Some? then Some([h.value] + hs.value) else None
  }

  /** Reads a block of CRLF-terminated header lines. */
  function ParseHeaderBlock(block: string): Option<seq<Header>> {
    var lines := Split(block, '\n');
    if lines[|lines| - 1] != "" then None else ParseLines(lines[..|lines| - 1])
  }

  /** What `file_get_contents` gives back: the body, or false when the transfer fails. */
  datatype Response = Failed | Body(text: string)

  /** The HTTP options `get` and `post` pass to `stream_context_create`, with the URL they fetch. */
  datatype Request = Request(verb: string, url: string, header: string, content: Option<string>)

  /** `r` carries the header block of `get_auth(r.url, r.verb)` signed for `user`. */
  predicate SignedFor(r: Request, user: string, now: Timestamp.DateTime, env: Option<string>, sign: Auth.Signer)
    requires Timestamp.Valid(now)
  {
    var a := Auth.GetAuth(r.url, r.verb, now, env, sign);
    r.header == HeaderBlock(a.timestamp, Token(user, a.secret))
  }

  /** `get($url, $user)`: a GET signed with the method "GET". */
  function Get(url: string, user: string, now: Timestamp.DateTime, env: Option<string>, sign: Auth.Signer): (r: Request)
    requires Timestamp.Valid(now)
    ensures r.verb == "GET" && r.url == url && r.content.None?
    ensures SignedFor(r, user, now, env, sign)
  {
    var auth := Auth.GetAuth(url, "GET", now, env, sign);
    Request("GET", url, HeaderBlock(auth.timestamp, Token(user, auth.secret)), None)
  }

  /** `post($url, $data, $user)`: a POST of `data` signed with the method "POST". */
  function Post(url: string, data: string, user: string, now: Timestamp.DateTime, env: Option<string>, sign: Auth.Signer): (r: Request)
    requires Timestamp.Valid(now)
    ensures r.verb == "POST" && r.url == url && r.content == Some(data)
    ensures SignedFor(r, user, now, env, sign)
  {
    var auth := Auth.GetAuth(url, "POST", now, env, sign);
    Request("POST", url, HeaderBlock(auth.timestamp, Token(user, auth.secret)), Some(data))
  }

  // ------------------------------------------------------------- lemmas

  /** The user, even one holding colons, and a base64 signature are recovered by splitting at the last colon. */
  lemma SplitTokenRecovers(user: string, signature: string)
    requires Auth.IsBase64(signature)
    ensures SplitToken(Token(user, signature)) == Some((user, signature))
  {
    var t := Token(user, signature);
    assert t[|user|] == ':';
    assert t[|user| + 1..] == signature;
    assert ':' !in signature by {
      forall i | 0 <= i < |signature| ensures signature[i] != ':' {
        assert Auth.IsBase64Char(signature[i]);
      }
    }
    assert t[..|user|] == user;
  }

  lemma ParseLineOf(name: string, value: string)
    requires ':' !in name
    ensures ParseLine(Line(name, value)) == Some(Header(name, value))
  {
    var line := Line(name, value);
    var body := line[..|line| - 1];
    assert body == name + ": " + value;
    assert forall j :: 0 <= j < |name| ==> body[j] == name[j];
    assert body[|name|] == ':';
    assert Find(body, {':'}, 0) == |name|;
    assert body[..|name|] == name;
    assert body[|name| + 2..] == value;
  }

  /** One CR-terminated header line, as `HeaderBlock` writes it before each newline. */
  function Line(name: string, value: string): string {
    name + ": " + value + "\r"
  }

  /** The header block is three `Line`s, each followed by a newline. */
  lemma HeaderBlockIsLines(timestamp: string, token: string)
    ensures HeaderBlock(timestamp, token)
         == Line("Content-Type", ContentType) + "\n" + (Line("Timestamp", timestamp) + "\n" + (Line("Authentication", token) + "\n" + ""))
  {
    assert "Content-Type: " == "Content-Type" + ": ";
    assert "Timestamp: " == "Timestamp" + ": ";
    assert "Authentication: " == "Authentication" + ": ";
    assert "\r\n" == "\r" + "\n";
  }

  /** Three newline-free lines, each ended by a newline, split back into themselves and a final "". */
  lemma SplitThreeLines(a: string, b: string, c: string)
    requires '\n' !in a && '\n' !in b && '\n' !in c
    ensures Split(a + "\n" + (b + "\n" + (c + "\n" + "")), '\n') == [a, b, c, ""]
  {
    var parts := [a, b, c, ""];
    assert Join(parts[3..], '\n') == "";
    assert Join(parts[2..], '\n') == c + "\n" + "";
    assert Join(parts[1..], '\n') == b + "\n" + (c + "\n" + "");
    assert Join(parts, '\n') == a + "\n" + (b + "\n" + (c + "\n" + ""));
    SplitJoin(parts, '\n');
  }

  lemma HeaderBlockLines(timestamp: string, token: string)
    requires '\n' !in timestamp && '\n' !in token
    ensures Split(HeaderBlock(timestamp, token), '\n')
            == [Line("Content-Type", ContentType), Line("Timestamp", timestamp), Line("Authentication", token), ""]
  {
    var l1, l2, l3 := Line("Content-Type", ContentType), Line("Timestamp", timestamp), Line("Authentication", token);
    assert '\n' !in l1 && '\n' !in l2 && '\n' !in l3;
    HeaderBlockIsLines(timestamp, token);
    SplitThreeLines(l1, l2, l3);
  }

  lemma ParseLinesCons(l: string, ls: seq<string>, h: Header, hs: seq<Header>)
    requires ParseLine(l) == Some(h) && ParseLines(ls) == Some(hs)
    ensures ParseLines([l] + ls) == Some([h] + hs)
  {
    assert ([l] + ls)[1..] == ls;
  }

  lemma ParseThreeLines(l1: string, l2: string, l3: string, h1: Header, h2: Header, h3: Header)
    requires ParseLine(l1) == Some(h1) && ParseLine(l2) == Some(h2) && ParseLine(l3) == Some(h3)
    ensures ParseLines([l1, l2, l3]) == Some([h1, h2, h3])
  {
    assert ParseLines([]) == Some([]);
    ParseLinesCons(l3, [], h3, []);
    assert [l3] + [] == [l3] && [h3] + [] == [h3];
    assert ParseLines([l3]) == Some([h3]);
    ParseLinesCons(l2, [l3], h2, [h3]);
    assert [l2] + [l3] == [l2, l3] && [h2] + [h3] == [h2, h3];
    ParseLinesCons(l1, [l2, l3], h1, [h2, h3]);
    assert [l1] + [l2, l3] == [l1, l2, l3] && [h1] + [h2, h3] == [h1, h2, h3];
  }

  /** A receiver reading the header block finds exactly the three fields, values intact. */
  lemma HeaderBlockParses(timestamp: string, token: string)
    requires '\n' !in timestamp && '\n' !in token
    ensures ParseHeaderBlock(HeaderBlock(timestamp, token))
            == Some([Header("Content-Type", ContentType), Header("Timestamp", timestamp), Header("Authentication", token)])
  {
    var l1, l2, l3 := Line("Content-Type", ContentType), Line("Timestamp", timestamp), Line("Authentication", token);
    HeaderBlockLines(timestamp, token);
    ParseLineOf("Content-Type", ContentType);
    ParseLineOf("Timestamp", timestamp);
    ParseLineOf("Authentication", token);
    ParseThreeLines(l1, l2, l3, Header("Content-Type", ContentType), Header("Timestamp", timestamp), Header("Authentication", token));
    assert [l1, l2, l3, ""][..3] == [l1, l2, l3];
  }

  /**
   * What a GET carries after a base64 signer: its `Timestamp` header is the
   * signing time and its `Authentication` header splits back into the user
   * and the signature `get_auth` computed for method "GET".
   */
  lemma GetHeaders(url: string, user: string, now: Timestamp.DateTime, env: Option<string>, sign: Auth.Signer)
    requires Timestamp.Valid(now)
    requires '\n' !in user
    requires Auth.Base64Signer(sign)
    ensures var a := Auth.GetAuth(url, "GET", now, env, sign);
      var token := Token(user, a.secret);
      && ParseHeaderBlock(Get(url, user, now, env, sign).header)
         == Some([Header("Content-Type", ContentType), Header("Timestamp", a.timestamp), Header("Authentication", token)])
      && SplitToken(token) == Some((user, a.secret))
  {
    var a := Auth.GetAuth(url, "GET", now, env, sign);
    var k := Auth.SigningKey(env);
    assert Auth.IsBase64(sign(Auth.SignedMessage(url, "GET", a.timestamp), k));
    assert '\n' !in a.secret by {
      forall i | 0 <= i < |a.secret| ensures a.secret[i] != '\n' {
        assert Auth.IsBase64Char(a.secret[i]);
      }
    }
    HeaderBlockParses(a.timestamp, Token(user, a.secret));
    SplitTokenRecovers(user, a.secret);
  }

  /** The same for a POST, whose signature is computed for method "POST". */
  lemma PostHeaders(url: string, data: string, user: string, now: Timestamp.DateTime, env: Option<string>, sign: Auth.Signer)
    requires Timestamp.Valid(now)
    requires '\n' !in user
    requires Auth.Base64Signer(sign)
    ensures var a := Auth.GetAuth(url, "POST", now, env, sign);
      var token := Token(user, a.secret);
      && ParseHeaderBlock(Post(url, data, user, now, env, sign).header)
         == Some([Header("Content-Type", ContentType), Header("Timestamp", a.timestamp), Header("Authentication", token)])
      && SplitToken(token) == Some((user, a.secret))
  {
    var a := Auth.GetAuth(url, "POST", now, env, sign);
    var k := Auth.SigningKey(env);
    assert Auth.IsBase64(sign(Auth.SignedMessage(url, "POST", a.timestamp), k));
    assert '\n' !in a.secret by {
      forall i | 0 <= i < |a.secret| ensures a.secret[i] != '\n' {
        assert Auth.IsBase64Char(a.secret[i]);
      }
    }
    HeaderBlockParses(a.timestamp, Token(user, a.secret));
    SplitTokenRecovers(user, a.secret);
  }

  /** An endpoint URL on the backend is signed over its path, with an empty query. */
  lemma BackendTarget(path: string)
    requires |path| > 0 && path[0] == '/' && '?' !in path && '\n' !in path
    ensures Auth.SignedTarget(Backend + path) == Url.Target(path, "")
  {
    assert '/' !in Host && '\n' !in Host;
    Url.ExtractComposed("https://", Host, path);
  }
}
