/**
  WindowsNotificationService: keeps a cached access token for the push
  service and posts a toast body to the channel of every resolved target.
  The clock and the token endpoint's reply are parameters; the POSTs are
  returned rather than sent.
*/
module NotificationService {
  import opened Wrappers
  import opened Subscription
  import opened Registrations
  import opened Toast

  /** A token is refreshed when it expires within this many seconds (5 minutes). */
  const RefreshWindow := 300

  const TokenUrl := "https://login.live.com/accesstoken.srf"
  const GrantType := "client_credentials"
  const TokenScope := "notify.windows.com"

  /** The title used when the caller gives none (the notify component's default). */
  const TitleDefault := "Home Assistant"

  /** The form posted to the token endpoint. */
  datatype TokenRequest = TokenRequest(url: string, grantType: string, clientId: Option<string>, clientSecret: Option<string>, scope: string)

  /** The token endpoint's reply: `access_token` and `expires_in` (seconds). */
  datatype TokenReply = TokenReply(accessToken: string, expiresIn: int)

  /** The cached token must be replaced before use. */
  predicate NeedsRefresh(expiry: int, now: int)
  {
    expiry < now + RefreshWindow
  }

  /**
    The targets the send loop walks: the given list, or, when it is missing
    or empty, every registration exactly once, in the registry's order.
  */
  function ResolveTargets(targets: Option<seq<string>>, keys: seq<string>, records: map<string, Registration>): (r: seq<string>)
    requires OrderedKeys(keys, records)
    ensures targets.None? || targets.value == [] ==> OrderedKeys(r, records) && r == keys
    ensures targets.Some? && targets.value != [] ==> r == targets.value
  {
    if targets.None? || targets.value == [] then keys else targets.value
  }

  /** The channels of the targets the registry knows, in target order; unknown targets are skipped. */
  function KnownChannels(targets: seq<string>, records: map<string, Registration>): (r: seq<string>)
    ensures |r| <= |targets|
    ensures forall c :: c in r ==> exists t :: t in targets && t in records && records[t].channel == c
    ensures forall t :: t in targets && t in records ==> records[t].channel in r
  {
    if targets == [] then []
    else
      var rest := KnownChannels(targets[1..], records);
      assert forall t :: t in targets[1..] ==> t in targets;
      if targets[0] in records then [records[targets[0]].channel] + rest else rest
  }

  /** Sending to a list in two parts posts the first part's channels, then the second's. */
  lemma {:induction false} KnownChannelsAppend(a: seq<string>, b: seq<string>, records: map<string, Registration>)
    ensures KnownChannels(a + b, records) == KnownChannels(a, records) + KnownChannels(b, records)
  {
    if a == [] {
      assert a + b == b;
    } else {
      assert (a + b)[0] == a[0];
      assert (a + b)[1..] == a[1..] + b;
      KnownChannelsAppend(a[1..], b, records);
    }
  }

  /** When every target is known, the i-th post goes to the i-th target's channel. */
  lemma {:induction false} AllKnownChannels(targets: seq<string>, records: map<string, Registration>)
    requires forall t :: t in targets ==> t in records
    ensures |KnownChannels(targets, records)| == |targets|
    ensures forall i :: 0 <= i < |targets| ==> KnownChannels(targets, records)[i] == records[targets[i]].channel
  {
    if targets != [] {
      AllKnownChannels(targets[1..], records);
      var r := KnownChannels(targets, records);
      forall i | 0 <= i < |targets| ensures r[i] == records[targets[i]].channel {
        if i > 0 { assert targets[i] == targets[1..][i - 1]; }
      }
    }
  }

  /**
    Without targets (none given, or an empty list), a send posts once to
    every registration, in the registry's order.
  */
  lemma FanOutReachesEveryRegistration(targets: Option<seq<string>>, order: seq<string>, records: map<string, Registration>)
    requires targets == None || targets == Some([])
    requires OrderedKeys(order, records)
    ensures var r := KnownChannels(ResolveTargets(targets, order, records), records);
            && |r| == |order| == |records|
            && forall i :: 0 <= i < |order| ==> r[i] == records[order[i]].channel
  {
    AllKnownChannels(order, records);
    DistinctKeysCount(order, records);
  }

  lemma {:induction false} DistinctKeysCount(order: seq<string>, records: map<string, Registration>)
    requires OrderedKeys(order, records)
    ensures |order| == |records|
  {
    if order != [] {
      var k := order[0];
      var rest := records - {k};
      assert OrderedKeys(order[1..], rest) by {
        forall x ensures x in order[1..] <==> x in rest {
          assert x in order <==> x == k || x in order[1..];
        }
      }
      DistinctKeysCount(order[1..], rest);
    } else {
      assert forall x :: x !in records by {
        assert forall x :: x in records ==> x in order;
      }
      assert records == map[];
    }
  }

  /**
    The send loop: look each target up in the registry, skip the ones it
    lacks, and collect the channel of the others.
  */
  method ChannelsToPost(targets: seq<string>, records: map<string, Registration>) returns (channels: seq<string>)
    ensures channels == KnownChannels(targets, records)
  {
    channels := [];
    for i := 0 to |targets|
      invariant channels == KnownChannels(targets[..i], records)
    {
      var target := targets[i];
      KnownChannelsAppend(targets[..i], [target], records);
      assert targets[..i + 1] == targets[..i] + [target];
      if target !in records {
        continue;
      }
      channels := channels + [records[target].channel];
    }
    assert targets[..|targets|] == targets;
  }

  class Service {
    const clientId: Option<string>
    const clientSecret: Option<string>
    const registry: Registry
    var token: Option<string>
    var expiry: int

    /** A new service holds no token, and its expiry is the moment of construction. */
    constructor (clientId: Option<string>, clientSecret: Option<string>, registry: Registry, now: int)
      ensures this.clientId == clientId && this.clientSecret == clientSecret && this.registry == registry
      ensures token.None? && expiry == now
      ensures forall later :: later >= now ==> NeedsRefresh(expiry, later)
    {
      this.clientId := clientId;
      this.clientSecret := clientSecret;
      this.registry := registry;
      token := None;
      expiry := now;
    }

    /**
      get_token: refresh the cached token when it expires within five
      minutes of `now`, using `reply` as the endpoint's answer; `request`
      is the form posted to the endpoint, None when no request is made.
    */
    method GetToken(now: int, reply: TokenReply) returns (bearer: Option<string>, request: Option<TokenRequest>)
      modifies this`token, this`expiry
      ensures request.Some? <==> NeedsRefresh(old(expiry), now)
      ensures request.Some? ==>
        && request.value == TokenRequest(TokenUrl, GrantType, clientId, clientSecret, TokenScope)
        && token == Some(reply.accessToken) && expiry == now + reply.expiresIn
      ensures request.None? ==> token == old(token) && expiry == old(expiry)
      ensures bearer == token
    {
      request := None;
      if expiry < now + RefreshWindow {
        request := Some(TokenRequest(TokenUrl, GrantType, clientId, clientSecret, TokenScope));
        token := Some(reply.accessToken);
        expiry := now + reply.expiresIn;
      }
      bearer := token;
    }

    /**
      Two calls of get_token, at `t0` and then at `t1`: once the first call
      has fetched a token, the second makes no request exactly while that
      token has at least five minutes of its lifetime left, and then hands
      out the same token again.
    */
    method FetchThenReuse(t0: int, r0: TokenReply, t1: int, r1: TokenReply)
      returns (first: Option<string>, firstRequest: Option<TokenRequest>,
               second: Option<string>, secondRequest: Option<TokenRequest>)
      modifies this`token, this`expiry
      ensures firstRequest.Some? ==> first == Some(r0.accessToken)
      ensures firstRequest.Some? ==> (secondRequest.None? <==> t1 <= t0 + r0.expiresIn - RefreshWindow)
      ensures firstRequest.Some? && secondRequest.None? ==> second == Some(r0.accessToken)
      ensures secondRequest.Some? ==> second == Some(r1.accessToken)
    {
      first, firstRequest := GetToken(t0, r0);
      second, secondRequest := GetToken(t1, r1);
    }

    /**
      send_message: fetch the token, compose the toast body, and post it
      to the channel of every known target. Returns the bearer token the
      posts carry, the token request if one was made, the body, and the
      channels posted to in order.
    */
    method SendMessage(now: int, reply: TokenReply, message: string, title: Option<string>,
                       targets: Option<seq<string>>, data: map<string, string>)
      returns (bearer: Option<string>, request: Option<TokenRequest>, body: string, channels: seq<string>)
      requires registry.Valid()
      modifies this`token, this`expiry
      ensures request.Some? <==> NeedsRefresh(old(expiry), now)
      ensures request.Some? ==>
        && request.value == TokenRequest(TokenUrl, GrantType, clientId, clientSecret, TokenScope)
        && token == Some(reply.accessToken) && expiry == now + reply.expiresIn
      ensures request.None? ==> token == old(token) && expiry == old(expiry)
      ensures bearer == token
      ensures body == Render(ToastFor(if title.Some? then title.value else TitleDefault, message, data))
      ensures channels == KnownChannels(ResolveTargets(targets, registry.order, registry.records), registry.records)
    {
      bearer, request := GetToken(now, reply);
      var heading := if title.Some? then title.value else TitleDefault;
      body := ComposeBody(heading, message, data);
      var resolved := if targets.None? || targets.value == [] then registry.order else targets.value;
      assert forall k :: k in registry.order ==> k in registry.records;
      channels := ChannelsToPost(resolved, registry.records);
    }
  }
}
