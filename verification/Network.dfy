/** One authenticated request with its bounded retries. What the token source and the server answer is an
    arbitrary function of everything that happened before. */
module RequestRetry {
  import opened Wrappers

  /** `unreachable` holds of an error that is a network failure by its type or its text. */
  datatype Failure = Failure(unreachable: bool, message: string)

  datatype FetchAnswer = Rejected(failure: Failure) | Response(status: int, body: string)

  datatype Call =
    | TokenCall(forced: bool, token: Result<string, Failure>)
    | FetchCall(bearer: string, answer: FetchAnswer)

  type Trace = seq<Call>

  datatype Environment = Environment(token: (Trace, bool) -> Result<string, Failure>,
                                     fetch: (Trace, string) -> FetchAnswer)

  datatype Outcome = Payload(body: string) | HttpError(status: int) | Failed(message: string)

  const NETWORK_MESSAGE := "The service cannot be reached. Check the network and refresh."

  function FriendlyMessage(f: Failure): string { if f.unreachable then NETWORK_MESSAGE else f.message }

  predicate IsOk(status: int) { 200 <= status <= 299 }

  // ----- the request as a recursion on the two flags

  function Attempts(authenticationRetried: bool, networkRetried: bool): nat {
    (if authenticationRetried then 0 else 1) + if networkRetried then 0 else 1
  }

  function Request(get: bool, env: Environment, auth: bool, net: bool, t: Trace): (Outcome, Trace)
    decreases Attempts(auth, net), 1
  {
    var a := env.token(t, false);
    var t1 := t + [TokenCall(false, a)];
    if a.Success? then Send(get, env, auth, net, t1, a.value)
    else if get && !net && FriendlyMessage(a.error) == NETWORK_MESSAGE then
      var b := env.token(t1, false);
      var t2 := t1 + [TokenCall(false, b)];
      if b.Success? then Send(get, env, auth, true, t2, b.value) else (Failed(FriendlyMessage(b.error)), t2)
    else (Failed(FriendlyMessage(a.error)), t1)
  }

  function Send(get: bool, env: Environment, auth: bool, net: bool, t: Trace, token: string): (Outcome, Trace)
    decreases Attempts(auth, net), 0
  {
    var a := env.fetch(t, token);
    var t1 := t + [FetchCall(token, a)];
    match a
    case Rejected(f) => if get && !net then Request(get, env, auth, true, t1) else (Failed(FriendlyMessage(f)), t1)
    case Response(status, body) =>
      if status == 401 && !auth then
        var c := env.token(t1, true);
        var t2 := t1 + [TokenCall(true, c)];
        if c.Success? then Request(get, env, true, net, t2) else (Failed(FriendlyMessage(c.error)), t2)
      else if IsOk(status) then (Payload(body), t1)
      else (HttpError(status), t1)
  }

  method RequestJson(mayRetryNetwork: bool, env: Environment) returns (o: Outcome, trace: Trace)
    ensures (o, trace) == Request(mayRetryNetwork, env, false, false, [])
  {
    trace := [];
    var authenticationRetried, networkRetried := false, false;
    while true
      invariant Request(mayRetryNetwork, env, authenticationRetried, networkRetried, trace)
             == Request(mayRetryNetwork, env, false, false, [])
      decreases Attempts(authenticationRetried, networkRetried)
    {
      var token := env.token(trace, false);
      trace := trace + [TokenCall(false, token)];
      if token.Failure? {
        if mayRetryNetwork && !networkRetried && FriendlyMessage(token.error) == NETWORK_MESSAGE {
          networkRetried := true;
          token := env.token(trace, false);
          trace := trace + [TokenCall(false, token)];
          if token.Failure? {
            return Failed(FriendlyMessage(token.error)), trace;
          }
        } else {
          return Failed(FriendlyMessage(token.error)), trace;
        }
      }
      var response := env.fetch(trace, token.value);
      trace := trace + [FetchCall(token.value, response)];
      if response.Rejected? {
        if mayRetryNetwork && !networkRetried {
          networkRetried := true;
          continue;
        }
        return Failed(FriendlyMessage(response.failure)), trace;
      }
      if response.status == 401 && !authenticationRetried {
        authenticationRetried := true;
        var forced := env.token(trace, true);
        trace := trace + [TokenCall(true, forced)];
        if forced.Failure? {
          return Failed(FriendlyMessage(forced.error)), trace;
        }
        continue;
      }
      if IsOk(response.status) {
        return Payload(response.body), trace;
      }
      return HttpError(response.status), trace;
    }
  }

  // ----- what every run keeps

  predicate IsFetch(c: Call) { c.FetchCall? }

  predicate IsForced(c: Call) { c.TokenCall? && c.forced }

  predicate IsOrdinary(c: Call) { c.TokenCall? && !c.forced }

  predicate Is401(c: Call) { c.FetchCall? && c.answer.Response? && c.answer.status == 401 }

  /** A call that got no answer at all. */
  predicate Fails(c: Call) {
    match c
    case TokenCall(_, token) => token.Failure?
    case FetchCall(_, answer) => answer.Rejected?
  }

  function Count(t: Trace, p: Call -> bool): nat {
    if t == [] then 0 else Count(t[..|t| - 1], p) + if p(t[|t| - 1]) then 1 else 0
  }

  lemma {:induction false} CountSnoc(t: Trace, c: Call, p: Call -> bool)
    ensures Count(t + [c], p) == Count(t, p) + if p(c) then 1 else 0
  {
    assert (t + [c])[..|t|] == t;
  }

  function One(b: bool): nat { if b then 1 else 0 }

  /** Every fetch directly follows an ordinary token request and carries the token it got. */
  predicate BearersAreCurrent(t: Trace) {
    forall i :: 0 <= i < |t| && t[i].FetchCall? ==> i > 0 && t[i - 1] == TokenCall(false, Success(t[i].bearer))
  }

  datatype Counts = Counts(fetches: nat, ordinary: nat, forced: nat, unauthorized: nat, failures: nat)

  function CountsOf(t: Trace): Counts {
    Counts(Count(t, IsFetch), Count(t, IsOrdinary), Count(t, IsForced), Count(t, Is401), Count(t, Fails))
  }

  function Plus(n: Counts, c: Call): Counts {
    Counts(n.fetches + One(IsFetch(c)), n.ordinary + One(IsOrdinary(c)), n.forced + One(IsForced(c)),
           n.unauthorized + One(Is401(c)), n.failures + One(Fails(c)))
  }

  lemma {:induction false} CountsSnoc(t: Trace, c: Call)
    ensures CountsOf(t + [c]) == Plus(CountsOf(t), c)
  {
    CountSnoc(t, c, IsFetch);
    CountSnoc(t, c, IsOrdinary);
    CountSnoc(t, c, IsForced);
    CountSnoc(t, c, Is401);
    CountSnoc(t, c, Fails);
  }

  /** Before a token is asked for. */
  predicate Idle(get: bool, auth: bool, net: bool, t: Trace) {
    var n := CountsOf(t);
    && (net ==> get) && n.fetches <= One(auth) + One(net) && n.ordinary <= One(auth) + One(net)
    && n.forced == One(auth) && n.unauthorized == One(auth) && n.failures == One(net)
    && BearersAreCurrent(t)
  }

  /** Before a fetch. */
  predicate Ready(get: bool, auth: bool, net: bool, t: Trace, token: string) {
    var n := CountsOf(t);
    && (net ==> get) && n.fetches <= One(auth) + One(net) && n.ordinary <= 1 + One(auth) + One(net)
    && n.forced == One(auth) && n.unauthorized == One(auth) && n.failures == One(net)
    && BearersAreCurrent(t)
    && t != [] && t[|t| - 1] == TokenCall(false, Success(token))
  }

  /** What a finished request did: how many calls there were, and what its outcome says about the last of them. */
  predicate Reported(get: bool, o: Outcome, t: Trace) {
    var n := CountsOf(t);
    && t != [] && BearersAreCurrent(t)
    && n.fetches <= (if get then 3 else 2) && n.ordinary <= (if get then 3 else 2)
    && n.forced <= 1 && n.unauthorized <= 2 && n.failures <= (if get then 2 else 1)
    && OutcomeIs(get, o, t[|t| - 1], n)
  }

  /** A payload is the last response, and it was a success; an HTTP error is the last response, and a 401 was
      refused a second time; any other failure is the last call, and a reading request gives up on an
      unanswered fetch only when it was the second failure. */
  predicate OutcomeIs(get: bool, o: Outcome, last: Call, n: Counts) {
    match o
    case Payload(body) => last.FetchCall? && last.answer.Response? && last.answer.status / 100 == 2
                          && last.answer.body == body
                          && n.failures <= One(get)
    case HttpError(status) => last.FetchCall? && last.answer.Response? && last.answer.status == status
                              && status / 100 != 2
                              && n.failures <= One(get) && (status == 401 <==> n.unauthorized == 2)
    case Failed(message) =>
      && Fails(last)
      && (var failure := if last.TokenCall? then last.token.error else last.answer.failure;
          message == if failure.unreachable then NETWORK_MESSAGE else failure.message)
      && (get && last.FetchCall? ==> n.failures == 2)
      && (get && IsOrdinary(last) && message == NETWORK_MESSAGE ==> n.failures == 2)
  }

  lemma {:induction false} RequestIsReported(get: bool, env: Environment, auth: bool, net: bool, t: Trace)
    requires Idle(get, auth, net, t)
    ensures var (o, u) := Request(get, env, auth, net, t); Reported(get, o, u)
    decreases Attempts(auth, net), 1
  {
    hide CountsOf;
    var a := env.token(t, false);
    var c1 := TokenCall(false, a);
    CountsSnoc(t, c1);
    if a.Success? {
      SendIsReported(get, env, auth, net, t + [c1], a.value);
    } else if get && !net && FriendlyMessage(a.error) == NETWORK_MESSAGE {
      var b := env.token(t + [c1], false);
      var c2 := TokenCall(false, b);
      CountsSnoc(t + [c1], c2);
      if b.Success? {
        SendIsReported(get, env, auth, true, t + [c1] + [c2], b.value);
      }
    }
  }

  lemma {:induction false} SendIsReported(get: bool, env: Environment, auth: bool, net: bool, t: Trace, token: string)
    requires Ready(get, auth, net, t, token)
    ensures var (o, u) := Send(get, env, auth, net, t, token); Reported(get, o, u)
    decreases Attempts(auth, net), 0
  {
    hide CountsOf;
    var a := env.fetch(t, token);
    var c1 := FetchCall(token, a);
    CountsSnoc(t, c1);
    if a.Rejected? {
      if get && !net {
        RequestIsReported(get, env, auth, true, t + [c1]);
      }
    } else if a.status == 401 && !auth {
      var c := env.token(t + [c1], true);
      var c2 := TokenCall(true, c);
      CountsSnoc(t + [c1], c2);
      if c.Success? {
        RequestIsReported(get, env, true, net, t + [c1] + [c2]);
      }
    }
  }

  /** Every request is bounded, whatever the token source and the server do, and reports its last call. */
  lemma {:induction false} EveryRequestIsBounded(get: bool, env: Environment)
    ensures var (o, t) := Request(get, env, false, false, []); Reported(get, o, t)
  {
    RequestIsReported(get, env, false, false, []);
  }

  // ----- a request that changes something

  /** Nothing follows an unanswered call. */
  predicate StopsAtFailure(t: Trace) { forall i :: 0 <= i < |t| - 1 ==> !Fails(t[i]) }

  lemma {:induction false} NoFailureBefore(t: Trace, n: nat)
    requires n <= |t| && Count(t, Fails) == 0
    ensures forall i :: 0 <= i < n ==> !Fails(t[i])
    decreases |t|
  {
    if t != [] {
      var init := t[..|t| - 1];
      NoFailureBefore(init, |init|);
      assert forall i :: 0 <= i < |init| ==> t[i] == init[i];
    }
  }

  /** A request that is not a read never sends anything again after a fetch that got no answer: the server
      may already have carried it out. */
  lemma {:induction false} WritesAreNotResent(env: Environment)
    ensures var (o, t) := Request(false, env, false, false, []); StopsAtFailure(t)
  {
    var (o, t) := Request(false, env, false, false, []);
    EveryRequestIsBounded(false, env);
    var init, last := t[..|t| - 1], t[|t| - 1];
    assert t == init + [last];
    CountSnoc(init, last, Fails);
    assert Count(init, Fails) == 0;
    NoFailureBefore(init, |init|);
    assert forall i :: 0 <= i < |init| ==> t[i] == init[i];
  }
}
