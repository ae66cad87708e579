/** The request handling of server/src/main.rs: the token exchange, the tier
    lookup in the identity response, and the two `/feed` handlers. The network
    is replaced by the response each endpoint gives (`Response`), and every
    handler reports the requests it sent, so that a lemma can say which
    requests a failure prevents. */
module Server {
  import opened Json
  import Types

  datatype Result<T, E> = Ok(value: T) | Err(error: E)

  /** `enum Membership` of main.rs, the tiers a patron can hold. */
  datatype Tier = Bronze | Silver | Gold

  /** `format!("{:?}", tier)`: the variant's name. */
  function DebugName(t: Tier): (r: string)
  {
    match t
    case Bronze => "Bronze"
    case Silver => "Silver"
    case Gold => "Gold"
  }

  /** The membership title the tier is published under. */
  function TierTitle(t: Tier): string
  {
    match t
    case Bronze => "Bronze membership"
    case Silver => "Silver membership"
    case Gold => "Gold membership"
  }

  /** The errors `get_tier` returns: a failed request or decoding (reqwest's
      error), or an `anyhow!` message. */
  datatype TierError = RequestError | Message(text: string)

  // ---------------------------------------------------------------------
  // `str::trim`: strips characters with the Unicode White_Space property
  // from both ends.

  predicate IsWhitespace(c: char)
  {
    ('\U{9}' <= c <= '\U{D}') || c == ' ' || c == '\U{85}' || c == '\U{A0}' ||
    c == '\U{1680}' || ('\U{2000}' <= c <= '\U{200A}') || c == '\U{2028}' || c == '\U{2029}' ||
    c == '\U{202F}' || c == '\U{205F}' || c == '\U{3000}'
  }

  /** Every character of `s` satisfies `p`. */
  predicate AllMatch(s: string, p: char -> bool)
  {
    forall k :: 0 <= k < |s| ==> p(s[k])
  }

  predicate AllWhitespace(s: string)
  {
    AllMatch(s, IsWhitespace)
  }

  /** `trim_start_matches(p)`. */
  function TrimStartMatches(s: string, p: char -> bool): (r: string)
    ensures |r| <= |s|
  {
    if s != [] && p(s[0]) then TrimStartMatches(s[1..], p) else s
  }

  /** `trim_end_matches(p)`. */
  function TrimEndMatches(s: string, p: char -> bool): (r: string)
    ensures |r| <= |s|
  {
    if s != [] && p(s[|s| - 1]) then TrimEndMatches(s[..|s| - 1], p) else s
  }

  /** `str::trim`, which is `trim_matches(char::is_whitespace)`. */
  function Trim(s: string): string
  {
    TrimEndMatches(TrimStartMatches(s, IsWhitespace), IsWhitespace)
  }

  /** `TrimStartMatches` removes exactly the leading run of matching characters. */
  lemma {:induction false} TrimStartSpec(s: string, p: char -> bool)
    ensures TrimStartMatches(s, p) == s[|s| - |TrimStartMatches(s, p)|..]
    ensures AllMatch(s[..|s| - |TrimStartMatches(s, p)|], p)
    ensures TrimStartMatches(s, p) == [] || !p(TrimStartMatches(s, p)[0])
  {
    if s != [] && p(s[0]) {
      TrimStartSpec(s[1..], p);
      var n := |s| - |TrimStartMatches(s, p)|;
      assert forall k :: 1 <= k < n ==> s[..n][k] == s[1..][..n - 1][k - 1];
    }
  }

  /** `TrimEndMatches` removes exactly the trailing run of matching characters. */
  lemma {:induction false} TrimEndSpec(s: string, p: char -> bool)
    ensures TrimEndMatches(s, p) == s[..|TrimEndMatches(s, p)|]
    ensures AllMatch(s[|TrimEndMatches(s, p)|..], p)
    ensures TrimEndMatches(s, p) == [] || !p(TrimEndMatches(s, p)[|TrimEndMatches(s, p)| - 1])
  {
    if s != [] && p(s[|s| - 1]) {
      var init := s[..|s| - 1];
      TrimEndSpec(init, p);
      var n := |TrimEndMatches(s, p)|;
      assert forall k :: 0 <= k < |s| - n - 1 ==> s[n..][k] == init[n..][k];
    }
  }

  /** Trimming both ends keeps the middle of `s` between two runs of matching
      characters, and that middle neither starts nor ends with one. */
  lemma TrimMatchesSpec(s: string, p: char -> bool)
    ensures var a := |s| - |TrimStartMatches(s, p)|; var r := TrimEndMatches(TrimStartMatches(s, p), p);
      && a + |r| <= |s| && r == s[a..a + |r|]
      && AllMatch(s[..a], p) && AllMatch(s[a + |r|..], p)
      && (r == [] || (!p(r[0]) && !p(r[|r| - 1])))
  {
    var t := TrimStartMatches(s, p);
    var a := |s| - |t|;
    var r := TrimEndMatches(t, p);
    TrimStartSpec(s, p);
    assert AllMatch(s[..a], p);
    TrimEndSpec(t, p);
    assert t == s[a..];
    assert r == t[..|r|];
    assert s[a..a + |r|] == r;
    assert s[a + |r|..] == t[|r|..];
    if r != [] {
      assert r[0] == t[0];
    }
  }

  /** `trim` keeps the middle of `s` between whitespace-only ends, and that
      middle neither starts nor ends with whitespace. */
  lemma TrimSpec(s: string)
    ensures var a := |s| - |TrimStartMatches(s, IsWhitespace)|; var r := Trim(s);
      && a + |r| <= |s| && r == s[a..a + |r|]
      && AllWhitespace(s[..a]) && AllWhitespace(s[a + |r|..])
      && (r == [] || (!IsWhitespace(r[0]) && !IsWhitespace(r[|r| - 1])))
  {
    TrimMatchesSpec(s, IsWhitespace);
  }

  /** Conversely, whitespace padding around a string with non-whitespace ends
      is exactly what `trim` takes away; an all-whitespace string trims to
      nothing. */
  lemma TrimPadded(pre: string, t: string, post: string)
    requires AllWhitespace(pre) && AllWhitespace(post)
    requires t == [] || (!IsWhitespace(t[0]) && !IsWhitespace(t[|t| - 1]))
    ensures Trim(pre + t + post) == t
  {
    if t == [] {
      var s := pre + post;
      assert pre + t + post == s + [];
      assert forall k :: 0 <= k < |s| ==> IsWhitespace(s[k]) by {
        forall k | 0 <= k < |s| ensures IsWhitespace(s[k]) {
          if k < |pre| { assert s[k] == pre[k]; } else { assert s[k] == post[k - |pre|]; }
        }
      }
      StripLeading(s, [], IsWhitespace);
    } else {
      StripLeading(pre, t + post, IsWhitespace);
      assert pre + t + post == pre + (t + post);
      StripTrailing(t, post, IsWhitespace);
    }
  }

  lemma {:induction false} StripLeading(pre: string, rest: string, p: char -> bool)
    requires AllMatch(pre, p)
    requires rest == [] || !p(rest[0])
    ensures TrimStartMatches(pre + rest, p) == rest
    decreases |pre|
  {
    if pre != [] {
      assert (pre + rest)[1..] == pre[1..] + rest;
      StripLeading(pre[1..], rest, p);
    }
  }

  lemma {:induction false} StripTrailing(t: string, post: string, p: char -> bool)
    requires AllMatch(post, p)
    requires t == [] || !p(t[|t| - 1])
    ensures TrimEndMatches(t + post, p) == t
    decreases |post|
  {
    if post != [] {
      var s := t + post;
      assert s[..|s| - 1] == t + post[..|post| - 1];
      StripTrailing(t, post[..|post| - 1], p);
    }
  }

  // ---------------------------------------------------------------------
  // Tier lookup (main.rs:140-151).

  /** The arms of the `match` on the trimmed title: exact, case-sensitive
      comparison. */
  function TierOfTitle(trimmed: string): Option<Tier>
  {
    if trimmed == "Bronze membership" then Some(Bronze)
    else if trimmed == "Silver membership" then Some(Silver)
    else if trimmed == "Gold membership" then Some(Gold)
    else None
  }

  /** The title mapping of `get_tier`. */
  function ParseTitle(title: string): (r: Result<Tier, TierError>)
    ensures r.Ok? ==> Trim(title) == TierTitle(r.value)
    ensures r.Err? ==> r.error == Message("Unknown tier: " + Trim(title))
  {
    var trimmed := Trim(title);
    match TierOfTitle(trimmed)
    case Some(t) => Ok(t)
    case None => Err(Message("Unknown tier: " + trimmed))
  }

  /** A title names a tier exactly when, trimmed, it is that tier's title;
      every other title is the "Unknown tier" error carrying the trimmed text. */
  lemma ParseTitleSpec(title: string)
    ensures forall t :: ParseTitle(title) == Ok(t) <==> Trim(title) == TierTitle(t)
    ensures ParseTitle(title).Err? <==> forall t :: Trim(title) != TierTitle(t)
    ensures ParseTitle(title).Err? ==> ParseTitle(title).error == Message("Unknown tier: " + Trim(title))
  {
    assert TierTitle(Bronze) == "Bronze membership";
    assert TierTitle(Silver) == "Silver membership";
    assert TierTitle(Gold) == "Gold membership";
  }

  /** Whitespace around a tier's title does not matter. */
  lemma PaddedTitle(pre: string, t: Tier, post: string)
    requires AllWhitespace(pre) && AllWhitespace(post)
    ensures ParseTitle(pre + TierTitle(t) + post) == Ok(t)
  {
    var title := TierTitle(t);
    assert title[0] == (match t case Bronze => 'B' case Silver => 'S' case Gold => 'G');
    assert title[|title| - 1] == 'p';
    TrimPadded(pre, title, post);
    ParseTitleSpec(pre + title + post);
  }

  /** The comparison is case-sensitive: a lower-case title is unknown, with or
      without padding. */
  lemma CaseSensitive(pre: string, post: string)
    requires AllWhitespace(pre) && AllWhitespace(post)
    ensures ParseTitle(pre + "gold membership" + post) == Err(Message("Unknown tier: gold membership"))
  {
    var s := "gold membership";
    assert !IsWhitespace(s[0]) && !IsWhitespace(s[|s| - 1]);
    TrimPadded(pre, s, post);
    assert TierOfTitle(s) == None;
    assert "Unknown tier: " + s == "Unknown tier: gold membership";
  }

  /** The campaign an `included` entry belongs to. */
  function CampaignOf(m: Types.Membership): string
  {
    m.relationships.campaign.data.id
  }

  /** The loop over `tier.included`: the first entry of the campaign decides. */
  function FindTier(included: seq<Types.Membership>, campaignId: string): (r: Result<Tier, TierError>)
    ensures r.Ok? ==> exists k :: 0 <= k < |included| && CampaignOf(included[k]) == campaignId
    ensures r.Err? ==> r.error.Message?
  {
    if included == [] then Err(Message("No tier found"))
    else if CampaignOf(included[0]) == campaignId then ParseTitle(included[0].attributes.title)
    else FindTier(included[1..], campaignId)
  }

  /** The result is the title mapping of the first entry of the campaign, even
      when that title is unknown and a later entry of the campaign has a known one. */
  lemma {:induction false} FirstMatchDecides(included: seq<Types.Membership>, campaignId: string, k: nat)
    requires k < |included| && CampaignOf(included[k]) == campaignId
    requires forall j :: 0 <= j < k ==> CampaignOf(included[j]) != campaignId
    ensures FindTier(included, campaignId) == ParseTitle(included[k].attributes.title)
  {
    if k > 0 {
      var tail := included[1..];
      assert forall j :: 0 <= j < k - 1 ==> tail[j] == included[j + 1];
      FirstMatchDecides(tail, campaignId, k - 1);
    }
  }

  /** Without an entry of the campaign the result is "No tier found". */
  lemma {:induction false} NoMatch(included: seq<Types.Membership>, campaignId: string)
    requires forall j :: 0 <= j < |included| ==> CampaignOf(included[j]) != campaignId
    ensures FindTier(included, campaignId) == Err(Message("No tier found"))
  {
    if included != [] {
      var tail := included[1..];
      assert forall j :: 0 <= j < |tail| ==> tail[j] == included[j + 1];
      NoMatch(tail, campaignId);
    }
  }

  /** Entries after an entry of the campaign are never examined. */
  lemma {:induction false} LaterEntriesIgnored(xs: seq<Types.Membership>, ys: seq<Types.Membership>, campaignId: string, k: nat)
    requires k < |xs| && CampaignOf(xs[k]) == campaignId
    ensures FindTier(xs + ys, campaignId) == FindTier(xs, campaignId)
  {
    if CampaignOf(xs[0]) != campaignId {
      assert (xs + ys)[1..] == xs[1..] + ys;
      LaterEntriesIgnored(xs[1..], ys, campaignId, k - 1);
    }
  }

  // ---------------------------------------------------------------------
  // The identity response as main.rs declares it (main.rs:88-117). Its
  // `Included` has the fields of types.rs's `Membership` and is not untagged:
  // every entry must be a membership.

  function DecodeMemberships(items: seq<Value>): Option<seq<Types.Membership>>
  {
    DecodeList(items, Types.DecodeMembership)
  }

  function DecodeIdentity(v: Value): (r: Option<seq<Types.Membership>>)
    ensures r.Some? ==> StructFields(v, ["included"]).Some? && StructFields(v, ["included"]).value[0].Array?
    ensures r.Some? ==> |r.value| == |StructFields(v, ["included"]).value[0].items|
  {
    match StructFields(v, ["included"])
    case Some(fs) => if fs[0].Array? then DecodeMemberships(fs[0].items) else None
    case None => None
  }

  /** The memberships as entries of the untagged `Included`. */
  function AsIncluded(ms: seq<Types.Membership>): (r: seq<Types.Included>)
    ensures |r| == |ms|
  {
    seq(|ms|, k requires 0 <= k < |ms| => Types.IncludedMembership(ms[k]))
  }

  /** What the strict schema accepts, the untagged schema of types.rs accepts
      with the same entries, each a membership. */
  lemma {:induction false} StrictImpliesTolerant(items: seq<Value>)
    requires DecodeMemberships(items).Some?
    ensures Types.DecodeIncludedList(items) == Some(AsIncluded(DecodeMemberships(items).value))
  {
    if items != [] {
      StrictImpliesTolerant(items[1..]);
      var ms := DecodeMemberships(items).value;
      assert ms == [ms[0]] + ms[1..];
      assert AsIncluded(ms) == [Types.IncludedMembership(ms[0])] + AsIncluded(ms[1..]);
    }
  }

  /** One entry that is not a membership fails the strict schema, where the
      untagged schema keeps an object entry as `Ignored`. */
  lemma ForeignEntryRejected(items: seq<Value>, k: nat)
    requires k < |items| && Types.DecodeMembership(items[k]).None?
    ensures DecodeMemberships(items).None?
    ensures items[k].Object? ==> Types.DecodeIncluded(items[k]) == Some(Types.IncludedIgnored(Types.Ignored))
  {
    DecodeListSpec(items, Types.DecodeMembership);
    Types.IncludedVariants(items[k]);
  }

  // ---------------------------------------------------------------------
  // Requests and handlers.

  /** The values read from the environment at start-up (main.rs:12-17). */
  datatype Config = Config(clientId: string, clientSecret: string, redirectUri: string, orlaCampaignId: string)

  const TokenUrl: string := "https://www.patreon.com/api/oauth2/token"
  const IdentityUrl: string :=
    "https://www.patreon.com/api/oauth2/v2/identity?include=memberships.currently_entitled_tiers.campaign&fields[tier]=title"

  /** A request the server sends: a form POST or a GET with an `Authorization` header. */
  datatype Request =
    | PostForm(url: string, form: seq<(string, string)>)
    | GetAuthorized(url: string, authorization: string)

  /** An endpoint's answer: no usable answer (a transport error or a body that
      is not JSON), or a JSON body. */
  datatype Response = Unanswered | Answered(body: Value)

  /** The outcome of a handler: the requests it sent, in order, and the string
      it replies with, or `None` when it panicked. */
  datatype Handled = Handled(sent: seq<Request>, reply: Option<string>)

  /** The `params` of `get_access_token`. */
  function TokenForm(code: string, config: Config): seq<(string, string)>
  {
    [("code", code),
     ("grant_type", "authorization_code"),
     ("client_id", config.clientId),
     ("client_secret", config.clientSecret),
     ("redirect_uri", config.redirectUri)]
  }

  /** The value of the first pair with `key`. */
  function FormValue(form: seq<(string, string)>, key: string): Option<string>
  {
    if form == [] then None
    else if form[0].0 == key then Some(form[0].1)
    else FormValue(form[1..], key)
  }

  /** The value at the first occurrence of a key. */
  lemma {:induction false} FormValueAt(form: seq<(string, string)>, key: string, i: nat)
    requires i < |form| && form[i].0 == key
    requires forall j :: 0 <= j < i ==> form[j].0 != key
    ensures FormValue(form, key) == Some(form[i].1)
  {
    if i > 0 {
      var tail := form[1..];
      assert forall j :: 0 <= j < i - 1 ==> tail[j] == form[j + 1];
      FormValueAt(tail, key, i - 1);
    }
  }

  /** The form has five pairs with distinct keys in this order, and each key
      carries its value. */
  lemma TokenFormSpec(code: string, config: Config)
    ensures var f := TokenForm(code, config);
      && |f| == 5
      && [f[0].0, f[1].0, f[2].0, f[3].0, f[4].0] == ["code", "grant_type", "client_id", "client_secret", "redirect_uri"]
      && FormValue(f, "code") == Some(code)
      && FormValue(f, "grant_type") == Some("authorization_code")
      && FormValue(f, "client_id") == Some(config.clientId)
      && FormValue(f, "client_secret") == Some(config.clientSecret)
      && FormValue(f, "redirect_uri") == Some(config.redirectUri)
  {
    var f := TokenForm(code, config);
    FormValueAt(f, "code", 0);
    FormValueAt(f, "grant_type", 1);
    FormValueAt(f, "client_id", 2);
    FormValueAt(f, "client_secret", 3);
    FormValueAt(f, "redirect_uri", 4);
  }

  /** `get_access_token`: the token request and the token it yields, if any.
      main.rs declares its own `AccessToken` (main.rs:63-66); it has the same
      derive and the same single `access_token: String` field as the one of
      types.rs, so `Types.DecodeAccessToken` decodes it. */
  function GetAccessToken(code: string, config: Config, response: Response): (r: (Request, Option<string>))
    ensures r.0 == PostForm(TokenUrl, TokenForm(code, config))
    ensures r.1.Some? <==> response.Answered? && Types.DecodeAccessToken(response.body).Some?
    ensures r.1.Some? ==> Types.DecodeAccessToken(response.body) == Some(Types.AccessToken(r.1.value))
  {
    (PostForm(TokenUrl, TokenForm(code, config)),
     match response
     case Unanswered => None
     case Answered(body) =>
       (match Types.DecodeAccessToken(body)
        case Some(t) => Some(t.accessToken)
        case None => None))
  }

  /** `HeaderValue::from_str` accepts a string when each of its UTF-8 bytes is
      a tab or at least 32 and not 127; every byte of a non-ASCII character is
      at least 128. */
  predicate ValidHeaderValue(s: string)
  {
    forall k :: 0 <= k < |s| ==> s[k] == '\t' || (' ' <= s[k] && s[k] != '\U{7F}')
  }

  /** The outcome of `get_tier`: a panic in the header `unwrap`, or the sent
      request and its result. */
  datatype TierCall = Panicked | Called(sent: Request, result: Result<Tier, TierError>)

  function GetTier(accessToken: string, campaignId: string, response: Response): (r: TierCall)
    ensures r.Panicked? <==> !ValidHeaderValue("Bearer " + accessToken)
    ensures r.Called? ==> r.sent == GetAuthorized(IdentityUrl, "Bearer " + accessToken)
    ensures r.Called? && r.result.Ok? ==>
      response.Answered? && DecodeIdentity(response.body).Some? &&
      FindTier(DecodeIdentity(response.body).value, campaignId) == r.result
    ensures r.Called? && response.Answered? && DecodeIdentity(response.body).Some? ==>
      r.result == FindTier(DecodeIdentity(response.body).value, campaignId)
    ensures r.Called? && (response.Unanswered? || DecodeIdentity(response.body).None?) ==>
      r.result == Err(RequestError)
  {
    var authorization := "Bearer " + accessToken;
    if !ValidHeaderValue(authorization) then Panicked
    else
      Called(GetAuthorized(IdentityUrl, authorization),
        match response
        case Unanswered => Err(RequestError)
        case Answered(body) =>
          (match DecodeIdentity(body)
           case Some(included) => FindTier(included, campaignId)
           case None => Err(RequestError)))
  }

  /** `post_feed`. */
  function PostFeed(code: string, config: Config, tokenResponse: Response, identityResponse: Response): (r: Handled)
    ensures 1 <= |r.sent| <= 2 && r.sent[0] == PostForm(TokenUrl, TokenForm(code, config))
    ensures |r.sent| == 2 ==> GetAccessToken(code, config, tokenResponse).1.Some?
    ensures r.reply.None? ==> |r.sent| == 1
  {
    var (tokenRequest, token) := GetAccessToken(code, config, tokenResponse);
    match token
    case None => Handled([tokenRequest], Some("Token request failed"))
    case Some(accessToken) =>
      (match GetTier(accessToken, config.orlaCampaignId, identityResponse)
       case Panicked => Handled([tokenRequest], None)
       case Called(tierRequest, Err(_)) => Handled([tokenRequest, tierRequest], Some("Tier request failed"))
       case Called(tierRequest, Ok(tier)) => Handled([tokenRequest, tierRequest], Some(DebugName(tier))))
  }

  /** `get_feed`. */
  function GetFeed(code: string, config: Config, tokenResponse: Response): (r: Handled)
    ensures r.sent == [PostForm(TokenUrl, TokenForm(code, config))]
    ensures r.reply.Some?
  {
    var (tokenRequest, token) := GetAccessToken(code, config, tokenResponse);
    match token
    case None => Handled([tokenRequest], Some("Reqwest failed"))
    case Some(accessToken) => Handled([tokenRequest], Some(accessToken))
  }

  // ---------------------------------------------------------------------
  // Handler properties.

  /** The access token is the `access_token` string of the answer. */
  lemma TokenFromAnswer(code: string, config: Config, members: seq<(string, Value)>)
    ensures GetAccessToken(code, config, Answered(Object(members))).1.Some? <==>
      Find(members, "access_token").Found? && Find(members, "access_token").value.String?
    ensures GetAccessToken(code, config, Answered(Object(members))).1.Some? ==>
      Find(members, "access_token") == Found(String(GetAccessToken(code, config, Answered(Object(members))).1.value))
  {
    Types.AccessTokenFromObject(members);
  }

  /** A failed token exchange replies "Token request failed" and sends nothing
      after the token request: `get_tier` is never invoked. */
  lemma TokenFailureStops(code: string, config: Config, tokenResponse: Response, identityResponse: Response)
    requires GetAccessToken(code, config, tokenResponse).1.None?
    ensures PostFeed(code, config, tokenResponse, identityResponse) ==
      Handled([PostForm(TokenUrl, TokenForm(code, config))], Some("Token request failed"))
  {
  }

  /** After a token exchange, the identity request carries the token as a
      bearer credential, and the reply is the tier's name or "Tier request
      failed" as the tier lookup succeeds or fails; an access token the header
      refuses makes the handler panic without further requests. */
  lemma PostFeedAfterToken(code: string, config: Config, tokenResponse: Response, identityResponse: Response, token: string)
    requires GetAccessToken(code, config, tokenResponse).1 == Some(token)
    ensures var h := PostFeed(code, config, tokenResponse, identityResponse);
      var call := GetTier(token, config.orlaCampaignId, identityResponse);
      && (call.Panicked? <==> !ValidHeaderValue("Bearer " + token))
      && (call.Panicked? ==> h == Handled([PostForm(TokenUrl, TokenForm(code, config))], None))
      && (call.Called? ==>
            && h.sent == [PostForm(TokenUrl, TokenForm(code, config)), GetAuthorized(IdentityUrl, "Bearer " + token)]
            && h.reply == Some(if call.result.Ok? then DebugName(call.result.value) else "Tier request failed"))
  {
  }

  /** The reply names a tier exactly when the token exchange succeeded and the
      tier lookup found that tier; the tier names differ from each other and
      from the failure replies. */
  lemma PostFeedNamesTier(code: string, config: Config, tokenResponse: Response, identityResponse: Response, t: Tier)
    ensures PostFeed(code, config, tokenResponse, identityResponse).reply == Some(DebugName(t)) <==>
      && GetAccessToken(code, config, tokenResponse).1.Some?
      && GetTier(GetAccessToken(code, config, tokenResponse).1.value, config.orlaCampaignId, identityResponse)
           == Called(GetAuthorized(IdentityUrl, "Bearer " + GetAccessToken(code, config, tokenResponse).1.value), Ok(t))
  {
    var token := GetAccessToken(code, config, tokenResponse).1;
    assert DebugName(t) != "Token request failed" && DebugName(t) != "Tier request failed";
    forall u | DebugName(u) == DebugName(t) ensures u == t {
      assert DebugName(u)[0] == DebugName(t)[0];
    }
  }

  /** The reply is one of the five strings, or there is none after a panic. */
  lemma PostFeedReplies(code: string, config: Config, tokenResponse: Response, identityResponse: Response)
    ensures var r := PostFeed(code, config, tokenResponse, identityResponse).reply;
      r in {None, Some("Token request failed"), Some("Tier request failed"), Some("Bronze"), Some("Silver"), Some("Gold")}
  {
  }

  /** `get_feed` replies with the access token, or "Reqwest failed" when the
      exchange fails; it sends only the token request. */
  lemma GetFeedSpec(code: string, config: Config, tokenResponse: Response)
    ensures var h := GetFeed(code, config, tokenResponse);
      var token := GetAccessToken(code, config, tokenResponse).1;
      && h.sent == [PostForm(TokenUrl, TokenForm(code, config))]
      && h.reply == Some(if token.Some? then token.value else "Reqwest failed")
  {
  }

  /** In full: with the membership of the campaign first among the entries of a
      decoded identity, `post_feed` replies with the name of its tier. */
  lemma PostFeedEndToEnd(code: string, config: Config, tokenBody: Value, identityBody: Value, k: nat, t: Tier)
    requires Types.DecodeAccessToken(tokenBody).Some?
    requires ValidHeaderValue("Bearer " + Types.DecodeAccessToken(tokenBody).value.accessToken)
    requires DecodeIdentity(identityBody).Some? && k < |DecodeIdentity(identityBody).value|
    requires CampaignOf(DecodeIdentity(identityBody).value[k]) == config.orlaCampaignId
    requires forall j :: 0 <= j < k ==> CampaignOf(DecodeIdentity(identityBody).value[j]) != config.orlaCampaignId
    requires Trim(DecodeIdentity(identityBody).value[k].attributes.title) == TierTitle(t)
    ensures PostFeed(code, config, Answered(tokenBody), Answered(identityBody)).reply == Some(DebugName(t))
  {
    var ms := DecodeIdentity(identityBody).value;
    FirstMatchDecides(ms, config.orlaCampaignId, k);
    ParseTitleSpec(ms[k].attributes.title);
  }

  /** The identity document as the API sends it: `data` and `links` beside
      `included` are skipped, and the entries are those of `included`. */
  lemma IdentityDocument(data: Value, items: seq<Value>, links: Value)
    ensures DecodeIdentity(Object([("data", data), ("included", Array(items)), ("links", links)]))
      == DecodeMemberships(items)
  {
    var m := [("data", data), ("included", Array(items)), ("links", links)];
    assert m[1..][1..][1..] == [];
    assert Find(m[1..][1..], "included") == Missing;
    assert Find(m[1..], "included") == Found(Array(items));
    assert Find(m, "included") == Found(Array(items));
    assert ["included"][1..] == [];
    assert ObjectFields(m, ["included"][1..]) == Some([]);
    assert [Array(items)] + [] == [Array(items)];
  }
}
