/**
 * `get_tickets`: two signed GETs, one to the wallet (unused tickets) and one
 * to the wallet history (used tickets), whose decoded items are projected
 * into ticket records and appended to one output list, wallet first.
 * The network call and `json_decode` are parameters (`fetch`, `decode`).
 */
module Tickets {
  import opened Wrappers
  import Url
  import Auth
  import Client
  import Timestamp

  const WalletUrl: string := Client.Backend + "/v2/it/ticketing/wallet"
  const HistoryUrl: string := Client.Backend + "/v2/it/ticketing/walletHistory"

  /** A decoded JSON value; numbers keep their literal text, so prices are carried, never computed with. */
  datatype Json = Null | Bool(b: bool) | Number(literal: string) | Text(s: string) | List(elems: seq<Json>) | Object(fields: map<string, Json>)

  /** One element of a decoded response, as the associative array `json_decode($result, TRUE)` gives. */
  type Item = map<string, Json>

  /** `$ticket[key]`: a missing key reads as NULL. */
  function Field(item: Item, key: string): (v: Json)
    ensures key !in item ==> v == Null
    ensures key in item ==> v == item[key]
  {
    if key in item then item[key] else Null
  }

  /** The record `get_tickets` pushes for each item. */
  datatype Ticket = Ticket(
    description: Json,
    duration: Json,
    journeys: Json,
    pnr: Json,
    price: Json,
    validated: bool,
    validationDate: Json,
    expirationDate: Json)

  /** The five fields both loops copy from the upstream item unchanged. */
  predicate Copies(item: Item, t: Ticket) {
    && t.description == Field(item, "Description")
    && t.duration == Field(item, "DurationDescription")
    && t.journeys == Field(item, "MaxValidationsAllowed")
    && t.pnr == Field(item, "MobileTicketId")
    && t.price == Field(item, "Price")
  }

  /** The record for a wallet item (`used` false) or a history item (`used` true). */
  function Project(item: Item, used: bool): Ticket {
    Ticket(
      Field(item, "Description"),
      Field(item, "DurationDescription"),
      Field(item, "MaxValidationsAllowed"),
      Field(item, "MobileTicketId"),
      Field(item, "Price"),
      used,
      if used then Field(item, "ValidationTimeStamp") else Null,
      if used then Field(item, "ExpirationTimeStamp") else Null)
  }

  /** What one `foreach` pushes for `items`, in order. */
  function Projections(items: seq<Item>, used: bool): (r: seq<Ticket>)
    ensures |r| == |items|
    ensures forall i :: 0 <= i < |items| ==> r[i] == Project(items[i], used)
  {
    seq(|items|, i requires 0 <= i < |items| => Project(items[i], used))
  }

  /**
   * `$result != FALSE` for what `@get` returns: false fails, and so do the
   * bodies that convert to false, "" and "0".
   */
  predicate Answered(r: Client.Response) {
    r.Body? && r.text != "" && r.text != "0"
  }

  /** The items one endpoint contributes: the decoded body when it answered, none otherwise. */
  function ItemsOf(r: Client.Response, decode: string -> seq<Item>): (items: seq<Item>)
    ensures !Answered(r) ==> items == []
    ensures Answered(r) ==> items == decode(r.text)
  {
    if Answered(r) then decode(r.text) else []
  }

  /** The list `get_tickets` returns for the two responses. */
  function TicketsOf(wallet: Client.Response, history: Client.Response, decode: string -> seq<Item>): seq<Ticket> {
    Projections(ItemsOf(wallet, decode), false) + Projections(ItemsOf(history, decode), true)
  }

  /** `get($url, $user)` for the wallet endpoint. */
  function WalletRequest(user: string, now: Timestamp.DateTime, env: Option<string>, sign: Auth.Signer): (r: Client.Request)
    requires Timestamp.Valid(now)
    ensures r.verb == "GET" && r.url == WalletUrl && r.content.None?
    ensures Client.SignedFor(r, user, now, env, sign)
  {
    Client.Get(WalletUrl, user, now, env, sign)
  }

  /** `get($url, $user)` for the wallet-history endpoint. */
  function HistoryRequest(user: string, now: Timestamp.DateTime, env: Option<string>, sign: Auth.Signer): (r: Client.Request)
    requires Timestamp.Valid(now)
    ensures r.verb == "GET" && r.url == HistoryUrl && r.content.None?
    ensures Client.SignedFor(r, user, now, env, sign)
  {
    Client.Get(HistoryUrl, user, now, env, sign)
  }

  /**
   * `get_tickets($user)`. Each request is signed at its own time
   * (`walletTime`, `historyTime`); `fetch` is the transfer and `decode`
   * is `json_decode`.
   */
  method GetTickets(
    user: string, walletTime: Timestamp.DateTime, historyTime: Timestamp.DateTime,
    env: Option<string>, sign: Auth.Signer,
    fetch: Client.Request -> Client.Response, decode: string -> seq<Item>)
    returns (output: seq<Ticket>)
    requires Timestamp.Valid(walletTime) && Timestamp.Valid(historyTime)
    ensures output == TicketsOf(fetch(WalletRequest(user, walletTime, env, sign)), fetch(HistoryRequest(user, historyTime, env, sign)), decode)
  {
    output := [];
    // the wallet: tickets not used yet
    var result := fetch(WalletRequest(user, walletTime, env, sign));
    ghost var wallet := result;
    if Answered(result) {
      var data := decode(result.text);
      for i := 0 to |data|
        invariant output == Projections(data[..i], false)
      {
        ProjectionsSnoc(data, i, false);
        output := output + [Project(data[i], false)];
      }
      assert data[..|data|] == data;
    }
    ghost var unused := output;
    assert unused == Projections(ItemsOf(wallet, decode), false);
    // the wallet history: tickets already used
    result := fetch(HistoryRequest(user, historyTime, env, sign));
    ghost var history := result;
    if Answered(result) {
      var data := decode(result.text);
      for i := 0 to |data|
        invariant output == unused + Projections(data[..i], true)
      {
        PushStep(unused, data, i, true);
        output := output + [Project(data[i], true)];
      }
      assert data[..|data|] == data;
    }
    assert output == unused + Projections(ItemsOf(history, decode), true);
  }

  // ------------------------------------------------------------- lemmas

  /** One more iteration of a `foreach` pushes the projection of the next item. */
  lemma ProjectionsSnoc(items: seq<Item>, i: nat, used: bool)
    requires i < |items|
    ensures Projections(items[..i + 1], used) == Projections(items[..i], used) + [Project(items[i], used)]
  {
    assert items[..i + 1][..i] == items[..i];
  }

  /** The same with earlier output in front. */
  lemma PushStep(prefix: seq<Ticket>, items: seq<Item>, i: nat, used: bool)
    requires i < |items|
    ensures prefix + Projections(items[..i + 1], used) == prefix + Projections(items[..i], used) + [Project(items[i], used)]
  {
    ProjectionsSnoc(items, i, used);
  }

  /** Projecting a concatenation is concatenating the projections. */
  lemma {:induction false} ProjectionsAppend(a: seq<Item>, b: seq<Item>, used: bool)
    ensures Projections(a + b, used) == Projections(a, used) + Projections(b, used)
    decreases |b|
  {
    if |b| > 0 {
      var b' := b[..|b| - 1];
      assert (a + b)[..|a + b| - 1] == a + b';
      ProjectionsAppend(a, b', used);
    }
  }

  /** As many tickets as wallet items plus history items. */
  lemma TicketsLength(wallet: Client.Response, history: Client.Response, decode: string -> seq<Item>)
    ensures |TicketsOf(wallet, history, decode)| == |ItemsOf(wallet, decode)| + |ItemsOf(history, decode)|
  {
  }

  /**
   * A projected record copies the common fields and carries the flag; a history
   * record copies both date fields (null when the item lacks them), a wallet record has null dates.
   */
  lemma ProjectShape(item: Item, used: bool)
    ensures var t := Project(item, used);
      && Copies(item, t) && t.validated == used
      && (used ==> t.validationDate == Field(item, "ValidationTimeStamp") && t.expirationDate == Field(item, "ExpirationTimeStamp"))
      && (!used ==> t.validationDate == Null && t.expirationDate == Null)
  {
  }

  /** The first |W| entries are the wallet items in order, unvalidated and without dates. */
  lemma WalletEntries(wallet: Client.Response, history: Client.Response, decode: string -> seq<Item>)
    ensures var w, r := ItemsOf(wallet, decode), TicketsOf(wallet, history, decode);
      forall i :: 0 <= i < |w| ==>
        Copies(w[i], r[i]) && !r[i].validated && r[i].validationDate == Null && r[i].expirationDate == Null
  {
    var w, r := ItemsOf(wallet, decode), TicketsOf(wallet, history, decode);
    forall i | 0 <= i < |w|
      ensures Copies(w[i], r[i]) && !r[i].validated && r[i].validationDate == Null && r[i].expirationDate == Null
    {
      assert r[i] == Project(w[i], false);
      ProjectShape(w[i], false);
    }
  }

  /** Entry j >= |W| of the result is history item j - |W|, validated, with its dates. */
  lemma HistoryEntry(wallet: Client.Response, history: Client.Response, decode: string -> seq<Item>, j: nat)
    requires |ItemsOf(wallet, decode)| <= j < |TicketsOf(wallet, history, decode)|
    ensures var h, t := ItemsOf(history, decode), TicketsOf(wallet, history, decode)[j];
      var item := h[j - |ItemsOf(wallet, decode)|];
      && Copies(item, t) && t.validated
      && t.validationDate == Field(item, "ValidationTimeStamp")
      && t.expirationDate == Field(item, "ExpirationTimeStamp")
  {
    var w, h := ItemsOf(wallet, decode), ItemsOf(history, decode);
    var ws, hs := Projections(w, false), Projections(h, true);
    var i := j - |w|;
    assert |ws| == |w| && hs[i] == Project(h[i], true);
    assert TicketsOf(wallet, history, decode)[j] == hs[i];
    ProjectShape(h[i], true);
  }

  /** The entries after them are the history items in order, validated, with both dates copied. */
  lemma HistoryEntries(wallet: Client.Response, history: Client.Response, decode: string -> seq<Item>)
    ensures var w, h, r := ItemsOf(wallet, decode), ItemsOf(history, decode), TicketsOf(wallet, history, decode);
      forall j :: |w| <= j < |r| ==>
        && Copies(h[j - |w|], r[j]) && r[j].validated
        && r[j].validationDate == Field(h[j - |w|], "ValidationTimeStamp")
        && r[j].expirationDate == Field(h[j - |w|], "ExpirationTimeStamp")
  {
    forall j | |ItemsOf(wallet, decode)| <= j < |TicketsOf(wallet, history, decode)| {
      HistoryEntry(wallet, history, decode, j);
    }
  }

  /** An entry is marked validated exactly when it comes from the history. */
  lemma ValidatedIff(wallet: Client.Response, history: Client.Response, decode: string -> seq<Item>, i: nat)
    requires i < |TicketsOf(wallet, history, decode)|
    ensures TicketsOf(wallet, history, decode)[i].validated <==> i >= |ItemsOf(wallet, decode)|
  {
    var w := ItemsOf(wallet, decode);
    if i >= |w| {
      assert TicketsOf(wallet, history, decode)[i] == Projections(ItemsOf(history, decode), true)[i - |w|];
    }
  }

  /** The two endpoints contribute independently: the result is what each gives when the other fails, concatenated. */
  lemma Independent(wallet: Client.Response, history: Client.Response, decode: string -> seq<Item>)
    ensures TicketsOf(wallet, history, decode)
         == TicketsOf(wallet, Client.Failed, decode) + TicketsOf(Client.Failed, history, decode)
  {
    assert TicketsOf(wallet, Client.Failed, decode) == Projections(ItemsOf(wallet, decode), false);
    assert TicketsOf(Client.Failed, history, decode) == Projections(ItemsOf(history, decode), true);
  }

  /** A wallet response loosely equal to false contributes nothing; the history entries are all there is. */
  lemma WalletFailure(wallet: Client.Response, history: Client.Response, decode: string -> seq<Item>)
    requires wallet.Failed? || wallet == Client.Body("") || wallet == Client.Body("0")
    ensures TicketsOf(wallet, history, decode) == Projections(ItemsOf(history, decode), true)
  {
    assert Projections(ItemsOf(wallet, decode), false) == [];
  }

  /** A history response loosely equal to false contributes nothing; the wallet entries are all there is. */
  lemma HistoryFailure(wallet: Client.Response, history: Client.Response, decode: string -> seq<Item>)
    requires history.Failed? || history == Client.Body("") || history == Client.Body("0")
    ensures TicketsOf(wallet, history, decode) == Projections(ItemsOf(wallet, decode), false)
  {
    assert Projections(ItemsOf(history, decode), true) == [];
  }

  /** Both endpoint requests are signed over their own paths with an empty query. */
  lemma EndpointTargets()
    ensures Auth.SignedTarget(WalletUrl) == Url.Target("/v2/it/ticketing/wallet", "")
    ensures Auth.SignedTarget(HistoryUrl) == Url.Target("/v2/it/ticketing/walletHistory", "")
  {
    Client.BackendTarget("/v2/it/ticketing/wallet");
    Client.BackendTarget("/v2/it/ticketing/walletHistory");
  }
}
