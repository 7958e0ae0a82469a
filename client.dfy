/**
  The update-decision state machine of the dynamic-DNS client (`DDNSClient.Client`).

  The client keeps the last public IP it saw and the last body the update endpoint
  returned. `Initialize` runs once at start-up, `Update` on every scheduled tick, and
  both call `PerformDnsUpdate` when a change has to be pushed. Network effects are
  inputs: what the IP-detection service answered, what the DNS lookup of the
  hostname found, and what the update endpoint answered. Every update request the
  client issues is recorded as its URI, so whether an update was sent, and with
  which address, can be observed. Ending the process (`Environment.Exit`, or an
  exception nobody catches) is a terminal status after which the client does nothing.
 */
module DdnsClient {
  import opened Wrappers
  import Utf8
  import Base64

  // ---------------------------------------------------------------------------
  // Configuration and the inputs that stand for network effects
  // ---------------------------------------------------------------------------

  /** The four configuration strings (`DDNSConfig`). */
  datatype DdnsConfig = DdnsConfig(username: string, password: string, email: string, hostname: string)

  /** What an update request is built from: the account and the hostname to keep current. */
  datatype UpdateTarget = UpdateTarget(user: string, password: string, hostname: string)

  /** The outcome of asking the IP-detection service for the public address. */
  datatype FetchResult =
    | Fetched(body: string)   // the response body, exactly as received (not trimmed)
    | HttpFailure             // `HttpRequestException`

  /** The outcome of looking up the hostname's current DNS addresses. */
  datatype DnsLookup =
    | Addresses(addrs: seq<string>)  // the addresses found, each in its textual form
    | NoRecord                       // `SocketException`: the hostname has no record

  /** The outcome of issuing an update request. */
  datatype UpdateResponse =
    | Body(text: string)      // the response body (the provider's return code)
    | RequestFailure          // `HttpRequestException`

  /** Whether the process is still running, and how it ended if not. */
  datatype Status =
    | Running
    | Exited(code: int)       // `Environment.Exit(code)`
    | Crashed                 // an exception that no handler catches ends the process

  /** The client's mutable state, and the update requests issued so far. */
  datatype State = State(ip: Option<string>, retCode: Option<string>, status: Status, sent: seq<string>)

  /** The state of a newly constructed client: both fields `null`, nothing sent. */
  const Start := State(None, None, Running, [])

  // ---------------------------------------------------------------------------
  // Request construction
  // ---------------------------------------------------------------------------

  /** The product token the user agent starts with. */
  const Product := "DDNSClient/1.0 "

  /** The `User-Agent` value: the product token followed by the contact e-mail. */
  function UserAgentOf(email: string): (r: string)
    ensures Product <= r && r[|Product|..] == email
  {
    Product + email
  }

  /**
    The `Authorization` value: the word `Basic` immediately followed (no space)
    by the Base64 text of the UTF-8 bytes of `user:password`.
   */
  function AuthorizationOf(user: string, password: string): (r: string)
    ensures "Basic" <= r && |r| > 5 && Base64.IsAlphabet(r[5])
  {
    "Basic" + Base64.Encode(Utf8.Encode(user + ":" + password))
  }

  /** The `user:password` pair carried by an `Authorization` value of that form, if any. */
  function CredentialsOf(header: string): Option<string> {
    if "Basic" <= header then
      match Base64.Decode(header[5..])
      case None => None
      case Some(bytes) => Utf8.Decode(bytes)
    else None
  }

  /** C# string interpolation renders a `null` string as the empty string. */
  function Text(v: Option<string>): (r: string)
    ensures v.Some? ==> r == v.value
    ensures v.None? ==> r == ""
  {
    v.GetOr("")
  }

  /** Everything in an update URI before the address. */
  function UpdatePrefix(t: UpdateTarget): string {
    "https://" + t.user + ":" + t.password + "@domains.google.com/nic/update?hostname="
      + t.hostname + "&myip="
  }

  /** The `myip` value of an update URI for `t`; `None` for a URI not addressed to `t`. */
  function MyIpOf(t: UpdateTarget, uri: string): Option<string> {
    var prefix := UpdatePrefix(t);
    if prefix <= uri then Some(uri[|prefix|..]) else None
  }

  /**
    The update URI: the account in the user-info part, the provider's
    `/nic/update` endpoint, and the hostname and address as query values, none
    of them escaped. It is addressed to `t` and announces exactly `ip`.
   */
  function UpdateUri(t: UpdateTarget, ip: string): (r: string)
    ensures UpdatePrefix(t) <= r
    ensures MyIpOf(t, r) == Some(ip)
  {
    UpdatePrefix(t) + ip
  }

  // ---------------------------------------------------------------------------
  // Response classification
  // ---------------------------------------------------------------------------

  /** `s.StartsWith(prefix)`, compared character by character. */
  function StartsWith(s: string, prefix: string): (b: bool)
    ensures b <==> |prefix| <= |s| && forall i :: 0 <= i < |prefix| ==> s[i] == prefix[i]
  {
    prefix <= s
  }

  /**
    The provider accepted the update: the body starts with `good` or `nochg`,
    that is, its first four characters are `good` or its first five are `nochg`.
   */
  function IsSuccess(body: string): (ok: bool)
    ensures ok <==> (|body| >= 4 && body[..4] == "good") || (|body| >= 5 && body[..5] == "nochg")
  {
    StartsWith(body, "good") || StartsWith(body, "nochg")
  }

  // ---------------------------------------------------------------------------
  // The state machine, one function per operation
  // ---------------------------------------------------------------------------

  /**
    `PerformDNSUpdate`: issue one update request announcing the current `ip`, store
    the body in `retCode`, and exit with code 1 unless the body reports success.
    A failing request throws in a fire-and-forget method and ends the process.
   */
  function AfterDnsUpdate(t: UpdateTarget, s: State, response: UpdateResponse): (r: State)
    ensures r.ip == s.ip && |r.sent| == |s.sent| + 1 && r.sent[..|s.sent|] == s.sent
    ensures MyIpOf(t, r.sent[|s.sent|]) == Some(Text(s.ip))
    ensures response.Body? ==> r.retCode == Some(response.text)
    ensures response.RequestFailure? ==> r.retCode == s.retCode && r.status == Crashed
    ensures s.status == Running ==> (r.status == Running <==> response.Body? && IsSuccess(response.text))
    ensures response.Body? && !IsSuccess(response.text) ==> r.status == Exited(1)
  {
    var issued := s.(sent := s.sent + [UpdateUri(t, Text(s.ip))]);
    match response
    case RequestFailure => issued.(status := Crashed)
    case Body(text) =>
      issued.(retCode := Some(text), status := if IsSuccess(text) then s.status else Exited(1))
  }

  /**
    `Update`: fetch the public IP; when it equals `ip` do nothing, otherwise store it
    and push an update. A failing fetch is not caught and ends the process.
   */
  function AfterUpdate(t: UpdateTarget, s: State, fetch: FetchResult, response: UpdateResponse): (r: State)
    ensures s.sent <= r.sent && |r.sent| <= |s.sent| + 1
    ensures s.status != Running ==> r == s
    ensures s.status == Running && fetch.HttpFailure? ==> r.ip == s.ip && r.status == Crashed
    ensures s.status == Running && fetch.Fetched? ==> r.ip == Some(fetch.body)
  {
    if s.status != Running then s
    else
      match fetch
      case HttpFailure => s.(status := Crashed)
      case Fetched(ip) =>
        if s.ip == Some(ip) then s else AfterDnsUpdate(t, s.(ip := Some(ip)), response)
  }

  /** The value `Initialize` returns once it has finished: 0, unless the process ended. */
  function Finished(s: State): (State, Option<int>) {
    (s, if s.status == Running then Some(0) else None)
  }

  /**
    `Initialize`: fetch the public IP (exit with code 2 on an HTTP failure), store it,
    and push an update when the hostname's first DNS address differs from it or the
    hostname has no record. An empty address list makes `[0]` throw, which nothing
    catches. The second component is the value returned (`None`: it never returns).
   */
  function InitializeOutcome(t: UpdateTarget, s: State, fetch: FetchResult, lookup: DnsLookup,
                             response: UpdateResponse): (r: (State, Option<int>))
    ensures s.sent <= r.0.sent && |r.0.sent| <= |s.sent| + 1
    ensures s.status == Running && fetch.HttpFailure? ==> r.0 == s.(status := Exited(2))
    ensures s.status == Running && fetch.Fetched? ==> r.0.ip == Some(fetch.body)
    ensures r.1.Some? <==> s.status == Running && r.0.status == Running
    ensures r.1.Some? ==> r.1 == Some(0)
  {
    if s.status != Running then (s, None)
    else
      match fetch
      case HttpFailure => (s.(status := Exited(2)), None)
      case Fetched(ip) =>
        var stored := s.(ip := Some(ip));
        match lookup
        case NoRecord => Finished(AfterDnsUpdate(t, stored, response))
        case Addresses(addrs) =>
          if |addrs| == 0 then (stored.(status := Crashed), None)
          else if addrs[0] != ip then Finished(AfterDnsUpdate(t, stored, response))
          else Finished(stored)
  }

  /** One scheduled tick: what the fetch and (if one is issued) the update request return. */
  datatype Tick = Tick(fetch: FetchResult, response: UpdateResponse)

  /** `Update` called once per tick, in order, as the background service's loop calls it. */
  function RunUpdates(t: UpdateTarget, s: State, ticks: seq<Tick>): (r: State)
    ensures s.sent <= r.sent
    ensures r.status == Running ==> s.status == Running
    decreases |ticks|
  {
    if ticks == [] then s
    else RunUpdates(t, AfterUpdate(t, s, ticks[0].fetch, ticks[0].response), ticks[1..])
  }

  /**
    The invariant every reachable state keeps: each request issued went to the
    configured account and hostname; a running client that has issued a request
    last received a success body; exit code 1 means the last body was a failure.
   */
  predicate Consistent(t: UpdateTarget, s: State) {
    (forall i :: 0 <= i < |s.sent| ==> MyIpOf(t, s.sent[i]).Some?) &&
    (s.status == Running && s.sent != [] ==> s.retCode.Some? && IsSuccess(s.retCode.value)) &&
    (s.status == Exited(1) ==> s.retCode.Some? && !IsSuccess(s.retCode.value))
  }

  // ---------------------------------------------------------------------------
  // The client object
  // ---------------------------------------------------------------------------

  class Client {
    const User: string
    const Password: string
    const UserAgent: string
    const Hostname: string
    /** The HTTP client's default request headers, in the order they were added. */
    const Headers: seq<(string, string)>

    var Ip: Option<string>
    var RetCode: Option<string>
    var Status: Status
    /** The URIs of the update requests issued, oldest first. */
    var Sent: seq<string>

    function Target(): UpdateTarget {
      UpdateTarget(User, Password, Hostname)
    }

    function Model(): State
      reads this
    {
      State(Ip, RetCode, Status, Sent)
    }

    ghost predicate Valid()
      reads this
    {
      Consistent(Target(), Model())
    }

    /** Unpacks the configuration and sets up the two default headers. */
    constructor (options: DdnsConfig)
      ensures User == options.username && Password == options.password
      ensures Hostname == options.hostname
      ensures UserAgent == UserAgentOf(options.email)
      ensures Headers == [("Authorization", AuthorizationOf(options.username, options.password)),
                          ("User-Agent", UserAgentOf(options.email))]
      ensures Model() == Start
      ensures Valid()
    {
      User := options.username;
      Password := options.password;
      UserAgent := UserAgentOf(options.email);
      Hostname := options.hostname;
      Headers := [("Authorization", AuthorizationOf(options.username, options.password)),
                  ("User-Agent", UserAgentOf(options.email))];
      Ip, RetCode, Status, Sent := None, None, Running, [];
    }

    /** Sends one update for the current `Ip` and classifies the provider's answer. */
    method PerformDnsUpdate(response: UpdateResponse)
      requires Valid() && Status == Running
      modifies this
      ensures Valid()
      ensures Model() == AfterDnsUpdate(Target(), old(Model()), response)
    {
      var reqUri := UpdateUri(Target(), Text(Ip));
      Sent := Sent + [reqUri];
      match response {
        case RequestFailure =>
          Status := Crashed;
        case Body(text) =>
          RetCode := Some(text);
          if !StartsWith(text, "good") && !StartsWith(text, "nochg") {
            Status := Exited(1);
          }
      }
    }

    /** The first-run decision: compare the fetched IP with the published record. */
    method Initialize(fetch: FetchResult, lookup: DnsLookup, response: UpdateResponse)
      returns (returned: Option<int>)
      requires Valid()
      modifies this
      ensures Valid()
      ensures (Model(), returned) == InitializeOutcome(Target(), old(Model()), fetch, lookup, response)
    {
      if Status != Running {
        return None;
      }
      match fetch {
        case HttpFailure =>
          Status := Exited(2);
          return None;
        case Fetched(ip) =>
          Ip := Some(ip);
          match lookup {
            case NoRecord =>
              PerformDnsUpdate(response);
            case Addresses(addrs) =>
              if |addrs| == 0 {
                Status := Crashed;
                return None;
              }
              if addrs[0] != ip {
                PerformDnsUpdate(response);
              }
          }
      }
      returned := if Status == Running then Some(0) else None;
    }

    /** One tick: push an update only when the fetched IP differs from `Ip`. */
    method Update(fetch: FetchResult, response: UpdateResponse)
      requires Valid()
      modifies this
      ensures Valid()
      ensures Model() == AfterUpdate(Target(), old(Model()), fetch, response)
    {
      if Status != Running {
        return;
      }
      match fetch {
        case HttpFailure =>
          Status := Crashed;
        case Fetched(ip) =>
          if Some(ip) != Ip {
            Ip := Some(ip);
            PerformDnsUpdate(response);
          }
      }
    }
  }

  // ---------------------------------------------------------------------------
  // Request construction: properties
  // ---------------------------------------------------------------------------

  /**
    The `Authorization` value is `Basic` with the credential text glued on (its
    first character is a Base64 letter, never a space), and decoding that text
    gives back exactly `user:password`.
   */
  lemma AuthorizationCarriesCredentials(user: string, password: string)
    ensures var h := AuthorizationOf(user, password);
      |h| > 5 && h[..5] == "Basic" && h[5] != ' ' && Base64.IsAlphabet(h[5]) &&
      CredentialsOf(h) == Some(user + ":" + password)
  {
    var bytes := Utf8.Encode(user + ":" + password);
    var h := AuthorizationOf(user, password);
    assert h[5..] == Base64.Encode(bytes);
    Utf8.DecodeEncode(user + ":" + password);
    Base64.DecodeEncode(bytes);
  }

  /** A known answer: user `a` with password `b` gives `Basic` glued to the Base64 text of `a:b`. */
  lemma AuthorizationExample()
    ensures AuthorizationOf("a", "b") == "BasicYTpi"
  {
    assert "a" + ":" + "b" == "a:b";
    assert Utf8.Encode("a:b") == [97, 58, 98];
    assert 97 / 4 == 24 && 97 % 4 * 16 + 58 / 16 == 19 && 58 % 16 * 4 + 98 / 64 == 41 && 98 % 64 == 34;
    assert Base64.Encode([97, 58, 98]) == "YTpi";
  }

  /** Two clients whose headers agree were configured with the same credentials. */
  lemma AuthorizationDeterminesCredentials(u1: string, p1: string, u2: string, p2: string)
    requires AuthorizationOf(u1, p1) == AuthorizationOf(u2, p2)
    ensures u1 + ":" + p1 == u2 + ":" + p2
  {
    AuthorizationCarriesCredentials(u1, p1);
    AuthorizationCarriesCredentials(u2, p2);
  }

  // ---------------------------------------------------------------------------
  // Response classification: properties
  // ---------------------------------------------------------------------------

  /**
    After one update request on a running client, `retCode` holds the body, the
    client keeps running exactly when the body starts with `good` or `nochg`, and
    otherwise it has exited with code 1. The request announces the current `ip`.
   */
  lemma ResponseClassification(t: UpdateTarget, s: State, body: string)
    requires s.status == Running
    ensures var r := AfterDnsUpdate(t, s, Body(body));
      r.retCode == Some(body) && r.ip == s.ip &&
      (r.status == Running <==> IsSuccess(body)) &&
      (!IsSuccess(body) ==> r.status == Exited(1)) &&
      r.sent == s.sent + [UpdateUri(t, Text(s.ip))] &&
      MyIpOf(t, r.sent[|s.sent|]) == Some(Text(s.ip))
  {
  }

  /** Bodies the provider may answer with, and how they are classified (case matters). */
  lemma ClassificationExamples()
    ensures IsSuccess("good 5.6.7.8") && IsSuccess("good") && IsSuccess("nochg 5.6.7.8")
    ensures !IsSuccess("badauth") && !IsSuccess("nohost") && !IsSuccess("911")
    ensures !IsSuccess("") && !IsSuccess("Good 5.6.7.8") && !IsSuccess(" good") && !IsSuccess("noch")
  {
    assert "good" <= "good 5.6.7.8";
    assert "nochg" <= "nochg 5.6.7.8";
    assert "badauth"[0] != "good"[0] && "badauth"[0] != "nochg"[0];
    assert "nohost"[0] != "good"[0] && "nohost"[2] != "nochg"[2];
    assert "Good 5.6.7.8"[0] != "good"[0] && "Good 5.6.7.8"[0] != "nochg"[0];
    assert " good"[0] != "good"[0] && " good"[0] != "nochg"[0];
  }

  // ---------------------------------------------------------------------------
  // Update: properties
  // ---------------------------------------------------------------------------

  /** A fetched IP equal to `ip` sends nothing and leaves the whole state as it was. */
  lemma UpdateSameIpIsNoOp(t: UpdateTarget, s: State, ip: string, response: UpdateResponse)
    requires s.ip == Some(ip)
    ensures AfterUpdate(t, s, Fetched(ip), response) == s
  {
  }

  /**
    A fetched IP different from `ip` is stored first and then announced by exactly
    one new request.
   */
  lemma UpdateNewIpSendsOne(t: UpdateTarget, s: State, ip: string, response: UpdateResponse)
    requires s.status == Running && s.ip != Some(ip)
    ensures var r := AfterUpdate(t, s, Fetched(ip), response);
      r.ip == Some(ip) && |r.sent| == |s.sent| + 1 && r.sent[..|s.sent|] == s.sent &&
      r.sent[|s.sent|] == UpdateUri(t, ip) && MyIpOf(t, r.sent[|s.sent|]) == Some(ip)
  {
  }

  /**
    A failing fetch leaves `ip`, `retCode` and the requests as they were; nothing
    handles the exception, so the process ends.
   */
  lemma UpdateFetchFailure(t: UpdateTarget, s: State, response: UpdateResponse)
    requires s.status == Running
    ensures var r := AfterUpdate(t, s, HttpFailure, response);
      r.ip == s.ip && r.retCode == s.retCode && r.sent == s.sent && r.status == Crashed
  {
  }

  /** `Update` sends a request exactly when the fetch succeeds with an IP other than `ip`. */
  lemma UpdateSendsIffChanged(t: UpdateTarget, s: State, fetch: FetchResult, response: UpdateResponse)
    requires s.status == Running
    ensures var r := AfterUpdate(t, s, fetch, response);
      s.sent <= r.sent && |r.sent| <= |s.sent| + 1 &&
      (|r.sent| == |s.sent| + 1 <==> fetch.Fetched? && s.ip != Some(fetch.body))
  {
  }

  /**
    The fetched body is compared as received: a trailing newline makes the same
    address count as a change, so an update is sent.
   */
  lemma UntrimmedIpCountsAsChange(t: UpdateTarget, s: State, response: UpdateResponse)
    requires s.status == Running && s.ip == Some("1.2.3.4")
    ensures var r := AfterUpdate(t, s, Fetched("1.2.3.4\n"), response);
      r.ip == Some("1.2.3.4\n") && |r.sent| == |s.sent| + 1
  {
    assert "1.2.3.4\n" != "1.2.3.4";
  }

  // ---------------------------------------------------------------------------
  // Initialize: properties
  // ---------------------------------------------------------------------------

  /** An HTTP failure while fetching the IP exits with code 2 and sends nothing. */
  lemma InitializeHttpFailure(t: UpdateTarget, s: State, lookup: DnsLookup, response: UpdateResponse)
    requires s.status == Running
    ensures InitializeOutcome(t, s, HttpFailure, lookup, response) == (s.(status := Exited(2)), None)
  {
  }

  /**
    After a successful fetch `ip` is the fetched value, and one request announcing it
    is sent exactly when the lookup found no record or a first address other than
    it. When the process goes on, `Initialize` returns 0.
   */
  lemma InitializeSendsIffRecordDiffers(t: UpdateTarget, s: State, ip: string, lookup: DnsLookup,
                                         response: UpdateResponse)
    requires s.status == Running
    requires lookup.Addresses? ==> lookup.addrs != []
    ensures var (r, returned) := InitializeOutcome(t, s, Fetched(ip), lookup, response);
      var differs := lookup.NoRecord? || lookup.addrs[0] != ip;
      r.ip == Some(ip) && r.sent[..|s.sent|] == s.sent &&
      |r.sent| == |s.sent| + (if differs then 1 else 0) &&
      (differs ==> MyIpOf(t, r.sent[|s.sent|]) == Some(ip)) &&
      (!differs ==> r == s.(ip := Some(ip))) &&
      (returned.Some? <==> r.status == Running) && (returned.Some? ==> returned == Some(0))
  {
  }

  /** A lookup that returns no addresses throws at `[0]`; nothing catches it. */
  lemma InitializeEmptyLookup(t: UpdateTarget, s: State, ip: string, response: UpdateResponse)
    requires s.status == Running
    ensures InitializeOutcome(t, s, Fetched(ip), Addresses([]), response)
         == (s.(ip := Some(ip), status := Crashed), None)
  {
  }

  // ---------------------------------------------------------------------------
  // The invariant
  // ---------------------------------------------------------------------------

  /** A new client satisfies the invariant. */
  lemma StartConsistent(t: UpdateTarget)
    ensures Consistent(t, Start)
  {
  }

  /** `PerformDnsUpdate` on a running client keeps the invariant. */
  lemma DnsUpdateKeepsConsistent(t: UpdateTarget, s: State, response: UpdateResponse)
    requires Consistent(t, s) && s.status == Running
    ensures Consistent(t, AfterDnsUpdate(t, s, response))
  {
  }

  /** `Update` keeps the invariant. */
  lemma UpdateKeepsConsistent(t: UpdateTarget, s: State, fetch: FetchResult, response: UpdateResponse)
    requires Consistent(t, s)
    ensures Consistent(t, AfterUpdate(t, s, fetch, response))
  {
  }

  /** `Initialize` keeps the invariant. */
  lemma InitializeKeepsConsistent(t: UpdateTarget, s: State, fetch: FetchResult, lookup: DnsLookup,
                                  response: UpdateResponse)
    requires Consistent(t, s)
    ensures Consistent(t, InitializeOutcome(t, s, fetch, lookup, response).0)
  {
  }

  // ---------------------------------------------------------------------------
  // Repeated ticks
  // ---------------------------------------------------------------------------

  /** Running two batches of ticks one after the other is running them as one batch. */
  lemma {:induction false} RunUpdatesAppend(t: UpdateTarget, s: State, first: seq<Tick>, second: seq<Tick>)
    ensures RunUpdates(t, s, first + second) == RunUpdates(t, RunUpdates(t, s, first), second)
    decreases |first|
  {
    if first == [] {
      assert first + second == second;
    } else {
      assert (first + second)[1..] == first[1..] + second;
      RunUpdatesAppend(t, AfterUpdate(t, s, first[0].fetch, first[0].response), first[1..], second);
    }
  }

  /** Once the process has ended, no tick changes anything or sends anything. */
  lemma {:induction false} HaltedRunIsNoOp(t: UpdateTarget, s: State, ticks: seq<Tick>)
    requires s.status != Running
    ensures RunUpdates(t, s, ticks) == s
    decreases |ticks|
  {
    if ticks != [] {
      HaltedRunIsNoOp(t, s, ticks[1..]);
    }
  }

  /**
    After a batch of ticks that ended the process (for instance a body that is
    neither `good` nor `nochg`), no later tick sends another request.
   */
  lemma NoRequestAfterHalt(t: UpdateTarget, s: State, first: seq<Tick>, later: seq<Tick>)
    requires RunUpdates(t, s, first).status != Running
    ensures RunUpdates(t, s, first + later) == RunUpdates(t, s, first)
  {
    RunUpdatesAppend(t, s, first, later);
    HaltedRunIsNoOp(t, RunUpdates(t, s, first), later);
  }

  /** Ticks that keep fetching the stored IP change nothing and send nothing. */
  lemma {:induction false} SteadyIpSendsNothing(t: UpdateTarget, s: State, ticks: seq<Tick>)
    requires s.ip.Some?
    requires forall i :: 0 <= i < |ticks| ==> ticks[i].fetch == Fetched(s.ip.value)
    ensures RunUpdates(t, s, ticks) == s
    decreases |ticks|
  {
    if ticks != [] {
      assert AfterUpdate(t, s, ticks[0].fetch, ticks[0].response) == s;
      assert forall i :: 0 <= i < |ticks[1..]| ==> ticks[1..][i] == ticks[i + 1];
      SteadyIpSendsNothing(t, s, ticks[1..]);
    }
  }

  /** Requests already issued stay; each tick adds at most one. */
  lemma {:induction false} RunSendsAtMostOnePerTick(t: UpdateTarget, s: State, ticks: seq<Tick>)
    ensures var r := RunUpdates(t, s, ticks);
      s.sent <= r.sent && |r.sent| <= |s.sent| + |ticks|
    decreases |ticks|
  {
    if ticks != [] {
      var next := AfterUpdate(t, s, ticks[0].fetch, ticks[0].response);
      if s.status == Running {
        UpdateSendsIffChanged(t, s, ticks[0].fetch, ticks[0].response);
      }
      RunSendsAtMostOnePerTick(t, next, ticks[1..]);
    }
  }

  /** The `uri` announces an address that one of the ticks fetched. */
  predicate AnnouncesFetched(t: UpdateTarget, uri: string, ticks: seq<Tick>) {
    exists i :: 0 <= i < |ticks| && ticks[i].fetch.Fetched? && MyIpOf(t, uri) == Some(ticks[i].fetch.body)
  }

  /** Every request a batch of ticks issues announces an address fetched during that batch. */
  lemma {:induction false} RunAnnouncesOnlyFetched(t: UpdateTarget, s: State, ticks: seq<Tick>)
    ensures var r := RunUpdates(t, s, ticks);
      s.sent <= r.sent &&
      forall j :: |s.sent| <= j < |r.sent| ==> AnnouncesFetched(t, r.sent[j], ticks)
    decreases |ticks|
  {
    if ticks != [] {
      var tick := ticks[0];
      var next := AfterUpdate(t, s, tick.fetch, tick.response);
      var r := RunUpdates(t, next, ticks[1..]);
      var later := ticks[1..];
      if s.status == Running {
        UpdateSendsIffChanged(t, s, tick.fetch, tick.response);
      }
      RunAnnouncesOnlyFetched(t, next, later);
      forall j | |s.sent| <= j < |r.sent|
        ensures AnnouncesFetched(t, r.sent[j], ticks)
      {
        if j < |next.sent| {
          assert r.sent[j] == next.sent[j];
          UpdateNewIpSendsOne(t, s, tick.fetch.body, tick.response);
          assert ticks[0].fetch.Fetched? && MyIpOf(t, r.sent[j]) == Some(ticks[0].fetch.body);
        } else {
          assert AnnouncesFetched(t, r.sent[j], later);
          var i :| 0 <= i < |later| && later[i].fetch.Fetched? && MyIpOf(t, r.sent[j]) == Some(later[i].fetch.body);
          assert ticks[i + 1] == later[i];
        }
      }
    }
  }

  /** A batch of ticks keeps the invariant. */
  lemma {:induction false} RunKeepsConsistent(t: UpdateTarget, s: State, ticks: seq<Tick>)
    requires Consistent(t, s)
    ensures Consistent(t, RunUpdates(t, s, ticks))
    decreases |ticks|
  {
    if ticks != [] {
      UpdateKeepsConsistent(t, s, ticks[0].fetch, ticks[0].response);
      RunKeepsConsistent(t, AfterUpdate(t, s, ticks[0].fetch, ticks[0].response), ticks[1..]);
    }
  }
}
