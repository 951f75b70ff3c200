# ATM ticket-wallet client: signing and ticket projection

The system is a small PHP script (`index.php`). It talks to a transit operator's backend on behalf of a user:

- It signs each request with an HMAC scheme. The signature covers the HTTP verb, a timestamp, the lower-cased URL path and the raw query string. The key is the upper-cased shared secret.
- It asks the membership endpoint whether a user is registered.
- It fetches the user's wallet (unused tickets) and wallet history (used tickets), then reshapes both into one list of ticket records.

This Dafny project models that core:

| module | models |
|---|---|
| `Url` (`url.dfy`) | the `preg_match` in `get_auth` as PCRE evaluates it: unanchored, leftmost, lazy, `.` not crossing a newline, `$` at the end or before a final newline |
| `Timestamp` (`timestamp.dfy`) | the `"D, d M Y H:i:s" . " GMT"` rendering of a broken-down UTC time, with a reader that inverts it |
| `Auth` (`auth.dfy`) | `get_auth`: the canonical string, the upper-cased key and the returned pair |
| `Client` (`client.dfy`) | `get` and `post`: the token, the header block, and the request handed to the HTTP stream |
| `Membership` (`membership.dfy`) | `validate_user` |
| `Tickets` (`tickets.dfy`) | `get_tickets`: an imperative method with two loops, proved against the function `TicketsOf` |

`Strings` (ASCII case mapping, search, split and join) and `Wrappers` (`Option`) are shared helpers.

Some things are outside the model and come in as parameters:

- the clock: a `DateTime` value;
- `getenv("ATM_SECRET")`: an `Option<string>`, where `None` is an unset variable;
- HMAC-SHA256 followed by base64: a function `sign`, assumed only to output base64 text (`Auth.Base64Signer`);
- the transfer: a function `fetch` from request to response;
- `json_decode`: a function `decode` from body text to items.

Two behaviours of the code are easy to miss, and the model follows the code in both:

- **Malformed URL.** The result of `preg_match` is never checked (index.php:11), so a URL without the `scheme://host/path[?query]` shape is not rejected. PHP reads the unset captures as empty strings, so the code signs an empty path and an empty query. `Auth.SignedTarget` and `Auth.MalformedUrlSignsEmpty` model that.
- **Transfer failure.** `file_get_contents` returns `false` when the transfer fails. `validate_user` compares with a loose `!=`, so a failed POST counts as "registered" (index.php:62). `Membership.IsRegistered` states this.

## Model

| member | source | states |
|---|---|---|
| Url.Extract | index.php:11 | definition: the leftmost match of the pattern over the whole URL, as PCRE searches; its properties are stated by `Url.ExtractPathAndQuery`, `Url.ExtractPathOnly`, `Url.ExtractNoPath`, `Url.ExtractNoScheme` and `Url.ExtractShape` |
| Url.SchemeLength | index.php:11 | the match starts with `https://` (8 characters) or `http://` (7); it is 8 exactly when `https://` is there and 7 exactly when only `http://` is |
| Url.ExtractPathAndQuery | index.php:11 | newline-free URL starting with a scheme: the path runs from the first `/` after `://` up to the first later `?`, and the query is everything after that `?` |
| Url.ExtractPathOnly | index.php:11 | the same URL with no `?` after the path's `/`: the path runs to the end and the query is "" |
| Url.ExtractNoPath | index.php:11 | a URL with a scheme at the front and no `/` after it does not match, whether or not it holds newlines |
| Url.ExtractNoScheme | index.php:11 | a string with no `http://` or `https://` anywhere does not match |
| Url.ExtractShape | index.php:11 | every path the pattern captures starts with `/` and holds no `?`; neither capture holds a newline |
| Url.MatchAtShape | index.php:11 | the same shape for an attempt at any start position |
| Url.ExtractComposed | index.php:11 | scheme + host + path, with no `/` in the host and no `?` in the path, captures that path and an empty query |
| Timestamp.FormatYear | index.php:14 | PHP's `Y` is four digits for years 0 to 9999 and never holds a newline |
| Timestamp.Format | index.php:14 | the timestamp never holds a newline, so it can be one line of the signed string and one header value |
| Timestamp.FormatShape | index.php:14 | with a four-digit year the timestamp is 29 characters, `Ddd, DD Mmm YYYY HH:MM:SS GMT`: the weekday and month names, `", "` at 3-4, the zero-padded fields at fixed offsets, and `" GMT"` at the end |
| Timestamp.ParseFormat | index.php:14 | reading a timestamp back gives the time it was rendered from (four-digit years) |
| Timestamp.FormatParse | index.php:14 | everything the reader accepts is exactly the rendering of the time it returns, so the format is injective |
| Strings.ToLower | index.php:19 | `strtolower` keeps the length, maps A-Z to a-z and leaves every other character unchanged |
| Strings.ToUpper | index.php:21 | `strtoupper` keeps the length, maps a-z to A-Z and leaves every other character unchanged |
| Strings.ToUpperEqualIff | index.php:21 | two strings upper-case to the same key if and only if they differ only in ASCII letter case |
| Auth.CanonicalString | index.php:16-20 | definition: the `sprintf("%s\n%s\n%s\n%s", ...)` string with the path lower-cased; its properties are stated by `Auth.CanonicalSplit` and `Auth.CanonicalInjective` |
| Auth.SignedTarget | index.php:11-20 | the signed path and query are the captures when the pattern matches, and "" and "" when it does not |
| Auth.SignedMessage | index.php:11-20 | definition: the canonical string over the signed target of a URL; its properties are stated by `Auth.MalformedUrlSignsEmpty` and `Auth.GetAuthSignsLines` |
| Auth.MalformedUrlSignsEmpty | index.php:16-20 | for a URL the pattern does not match, the signed string is `METHOD\nTIMESTAMP\n\n` |
| Auth.SigningKey | index.php:21 | the key is the secret with no lower-case letter left and the same length; an unset variable gives "" |
| Auth.CanonicalSplit | index.php:16-20 | splitting the signed string at newlines gives verb, timestamp, lower-cased path and query, when none holds a newline |
| Auth.CanonicalInjective | index.php:16-20 | newline-free parts are determined by their signed string (the path up to case) |
| Auth.GetAuth | index.php:10-24 | definition: the whole of `get_auth`, the signature and the timestamp; its properties are stated by `Auth.GetAuthSignsLines`, `Auth.GetAuthTimestamp` and `Auth.GetAuthIgnoresSecretCase` |
| Auth.GetAuthSignsLines | index.php:10-24 | the signature is the signer applied to the upper-cased secret and to a message whose lines are the verb, the returned timestamp, the lower-cased path and the query verbatim |
| Auth.GetAuthTimestamp | index.php:12-15 | the returned `timestamp` reads back as the signing time |
| Auth.SigningKeyIgnoresCase | index.php:21 | two secrets give the same key exactly when they differ only in letter case |
| Auth.GetAuthIgnoresSecretCase | index.php:21-22 | secrets that differ only in letter case give identical `get_auth` results |
| Client.Token | index.php:32 | definition: `user:signature`; its properties are stated by `Client.SplitTokenRecovers` |
| Client.HeaderBlock | index.php:33 | definition: the three CRLF-ended header lines; its properties are stated by `Client.HeaderBlockParses`, `Client.GetHeaders` and `Client.PostHeaders` |
| Client.Get | index.php:30-36 | `get` sends method GET to the given URL, with no body, and a header block signed by `get_auth(url, "GET")` for the user |
| Client.Post | index.php:45-52 | `post` sends method POST to the given URL with the data as body and a header block signed by `get_auth(url, "POST")` |
| Client.SplitTokenRecovers | index.php:32 | splitting the token at its last `:` gives back the user, even one holding colons, and a base64 signature |
| Client.HeaderBlockParses | index.php:33 | a receiver reading the header block finds exactly `Content-Type`, `Timestamp` and `Authentication`, with their values intact |
| Client.GetHeaders | index.php:31-34 | a GET's header block carries the signing timestamp and a token that splits back into the user and the GET signature |
| Client.PostHeaders | index.php:46-50 | the same for a POST and its POST signature |
| Client.BackendTarget | index.php:61 | a backend endpoint URL is signed over its own path and an empty query |
| Membership.ValidateUserRequest | index.php:60-61 | `validate_user` POSTs the credentials to the membership URL, signed for the default user `ATMApp` |
| Membership.IsRegistered | index.php:62 | the user counts as not registered exactly when the body is `"1"`; a failed transfer counts as registered |
| Membership.ValidateUserSignedTarget | index.php:61 | the membership request is signed over `/v2/it/Membership/ValidateUser` with an empty query |
| Tickets.Field | index.php:75-79 | `$ticket[key]` is the item's value, or null when the key is missing |
| Tickets.Answered | index.php:72 | definition: the loose `$result != FALSE` (also at index.php:87), false for a failed transfer and for the bodies `""` and `"0"`; its properties are stated by `Tickets.ItemsOf`, `Tickets.WalletFailure` and `Tickets.HistoryFailure` |
| Tickets.ItemsOf | index.php:72-73 | an endpoint contributes its decoded body when the response is not loosely false, and no items otherwise |
| Tickets.Project | index.php:75-82 | definition: the record one `array_push` builds from an item; its properties are stated by `Tickets.ProjectShape` |
| Tickets.Projections | index.php:74-83 | one `foreach` pushes exactly one record per item, in item order |
| Tickets.TicketsOf | index.php:68-101 | definition: wallet projections followed by history projections; its properties are stated by `Tickets.GetTickets`, `Tickets.TicketsLength`, `Tickets.WalletEntries`, `Tickets.HistoryEntries`, `Tickets.ValidatedIff` and `Tickets.Independent` |
| Tickets.WalletRequest | index.php:71 | the wallet call is a signed GET to the wallet URL for the user |
| Tickets.HistoryRequest | index.php:86 | the history call is a signed GET to the wallet-history URL for the user |
| Tickets.GetTickets | index.php:68-101 | the two accumulation loops return exactly `TicketsOf` of the two responses: wallet projections followed by history projections |
| Tickets.ProjectShape | index.php:75-82 | a projected record copies description, duration, journeys, PNR and price, carries the validated flag, copies both date fields from a history item (null when missing) and sets both to null for a wallet item |
| Tickets.ProjectionsSnoc | index.php:74-83 | one more loop iteration appends the projection of the next item |
| Tickets.ProjectionsAppend | index.php:74-83 | projecting a concatenation of item lists is concatenating their projections |
| Tickets.TicketsLength | index.php:68-101 | the result has as many entries as wallet items plus history items |
| Tickets.WalletEntries | index.php:74-83 | the first entries are the wallet items in order, unvalidated, with null dates |
| Tickets.HistoryEntry | index.php:89-98 | each entry after them is its history item, validated, with both dates copied |
| Tickets.HistoryEntries | index.php:89-98 | all entries after the wallet ones are the history items in order, validated, with both dates copied |
| Tickets.ValidatedIff | index.php:80-95 | an entry is marked validated if and only if it comes from the history |
| Tickets.Independent | index.php:72-87 | the result is what the wallet gives alone followed by what the history gives alone |
| Tickets.WalletFailure | index.php:72 | a wallet response of false, `""` or `"0"` contributes nothing; the history entries are the result |
| Tickets.HistoryFailure | index.php:87 | a history response of false, `""` or `"0"` contributes nothing; the wallet entries are the result |
| Tickets.EndpointTargets | index.php:71-86 | the wallet and history calls are signed over their own paths with empty queries |

## Left out

- Network I/O: `stream_context_create` and `file_get_contents` (index.php:35-36, 51-52). A request is a value and `fetch` turns it into a response. Status codes and redirects are not modelled.
- The clock (index.php:12-13): the broken-down UTC fields and the weekday come in as a `DateTime`. Their mutual consistency, such as the weekday matching the date, is not checked.
- `getenv` (index.php:21): replaced by an `Option<string>` parameter. An unset variable gives `false`, which `strtoupper` turns into "".
- HMAC-SHA256 and base64 (index.php:22): foreign library calls. They are the parameter `sign`. The only property assumed is base64 output, which the header lemmas rely on.
- `utf8_encode` (index.php:16, 21): taken as the identity, which holds for ASCII input. Latin-1 to UTF-8 re-encoding of other characters is not modelled.
- `strtolower`/`strtoupper`: ASCII-only case mapping, as PHP 8.2 and later define it. Locale-dependent mapping in older PHP versions is not modelled.
- `json_encode` and `json_decode` (index.php:60, 73, 88): library parsers. The credentials body is a string parameter, and `decode` gives the items of a body. Invalid JSON and non-array results are whatever `decode` returns, typically none.
- A decoded element that is not an associative array, where PHP's `$ticket[...]` on a scalar yields null or a character: items are always maps.
- `print_tickets`, `print_data` and the page template (index.php:106-187): HTML rendering, escaping, Italian text and the `%.2f` price formatting. Prices are carried as opaque JSON values.
- Membership.IsRegistered: PHP 8 compares two numeric strings numerically, so bodies such as `"01"` or `"1.0"` would also equal `"1"`. The precondition restricts bodies to `"1"` or strings with no digit, and PHP numeric-string parsing is not modelled.
- Timestamp.FormatShape, Timestamp.ParseFormat, Auth.GetAuthTimestamp: stated for four-digit years (0 to 9999) only. `Timestamp.FormatYear` still models PHP's sign and longer years.
- Url.ExtractPathAndQuery, Url.ExtractPathOnly: characterise only newline-free URLs that begin with a scheme. `Url.Extract` itself follows PCRE on every string.
- Client.GetHeaders, Client.PostHeaders: require a user name without newlines. A name holding `\n` would inject extra header lines, and that case is not analysed.
