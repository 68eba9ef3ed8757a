/** The cleanup session of the load test: a cached admin token that is renewed
    after 250 seconds or a 401, and requests that are retried a bounded number of
    times; and the weighted choice of the next action. Times are milliseconds. */
module LoadTest {
  import opened Wrappers

  const MAX_TOKEN_AGE := 250 * 1000
  const RETRY_PAUSE := 2000
  const DEFAULT_ATTEMPTS := 5

  /** One answered login: the token and when the server issued it, and when the answer was there. */
  datatype Issue = Issue(token: Option<string>, issuedAt: int, answeredAt: int)

  /** What the gateway makes of a login: the time until the token is issued and the rest until the answer. */
  datatype LoginAnswer = LoginAnswer(token: Option<string>, untilIssue: nat, untilAnswer: nat)

  /** One request as it was sent; `login` is the number of the login its token is taken from. */
  datatype Attempt = Attempt(token: string, login: nat, sentAt: int, answeredAt: int, status: int)

  /** Gateway and clock: what each login and each request answers, how long it takes, and what happened. */
  class Gateway {
    const loginAnswers: nat -> LoginAnswer
    const answers: nat -> (int, nat)
    var now: int
    var issued: seq<Issue>
    var log: seq<Attempt>

    constructor (loginAnswers: nat -> LoginAnswer, answers: nat -> (int, nat), now: int)
      ensures this.now == now && issued == [] && log == []
    {
      this.loginAnswers, this.answers, this.now, issued, log := loginAnswers, answers, now, [], [];
    }

    method Login() returns (token: Option<string>)
      modifies this`now, this`issued
      ensures |issued| == |old(issued)| + 1 && issued[..|old(issued)|] == old(issued)
      ensures var issue := issued[|old(issued)|];
              issue.token == token && old(now) <= issue.issuedAt <= issue.answeredAt == now
    {
      var answer := loginAnswers(|issued|);
      token := answer.token;
      var issuedAt := now + answer.untilIssue;
      now := issuedAt + answer.untilAnswer;
      issued := issued + [Issue(token, issuedAt, now)];
    }

    method Send(token: string, login: nat) returns (status: int)
      modifies this`now, this`log
      ensures now >= old(now) && log == old(log) + [Attempt(token, login, old(now), now, status)]
    {
      var (answer, elapsed) := answers(|log|);
      status := answer;
      log := log + [Attempt(token, login, now, now + elapsed, status)];
      now := now + elapsed;
    }

    method Sleep(duration: nat)
      modifies this`now
      ensures now == old(now) + duration
    {
      now := now + duration;
    }
  }

  predicate Retried(status: int) { status == 429 || status == 401 }

  /** Login number `login` answered with this token. */
  predicate From(issued: seq<Issue>, login: nat, token: string) {
    0 < login <= |issued| && issued[login - 1].token == Some(token)
  }

  /** The request carries the token of the login it names, not more than 250 seconds after that login's answer. */
  predicate Genuine(a: Attempt, issued: seq<Issue>) {
    From(issued, a.login, a.token) && a.sentAt - issued[a.login - 1].answeredAt <= MAX_TOKEN_AGE
  }

  /** No older token is taken up again, a 401 is followed by the token of a later login, and a 429 by a pause. */
  predicate Follows(a: Attempt, b: Attempt) {
    && a.login <= b.login && (a.status == 401 ==> a.login < b.login)
    && (a.status == 429 ==> a.answeredAt + RETRY_PAUSE <= b.sentAt)
  }

  ghost predicate Fresh(log: seq<Attempt>, issued: seq<Issue>) {
    && (forall i :: 0 <= i < |log| ==> Genuine(log[i], issued))
    && (forall i :: 0 < i < |log| ==> Follows(log[i - 1], log[i]))
  }

  lemma FreshAppend(log: seq<Attempt>, a: Attempt, issued: seq<Issue>)
    requires Fresh(log, issued) && Genuine(a, issued) && (log != [] ==> Follows(log[|log| - 1], a))
    ensures Fresh(log + [a], issued)
  {
    hide Genuine, Follows;
  }

  lemma FreshGrows(log: seq<Attempt>, issued: seq<Issue>, more: seq<Issue>)
    requires Fresh(log, issued) && issued <= more
    ensures Fresh(log, more)
  {
    hide Follows;
  }

  lemma {:induction false} LoginsGrow(log: seq<Attempt>, issued: seq<Issue>, i: nat, j: nat)
    requires Fresh(log, issued) && i < j < |log|
    ensures log[i].login <= log[j].login && (log[i].status == 401 ==> log[i].login < log[j].login)
  {
    assert Follows(log[j - 1], log[j]);
    if i + 1 < j {
      LoginsGrow(log, issued, i, j - 1);
    }
  }

  /** After a 401 every later request, in this call or a later one, carries what a later login answered; the same
      text is sent again only if such a login handed it out again. */
  lemma RejectedTokenIsGone(log: seq<Attempt>, issued: seq<Issue>, i: nat, j: nat)
    requires Fresh(log, issued) && i < j < |log| && log[i].status == 401
    ensures log[i].login < log[j].login && From(issued, log[j].login, log[j].token)
    ensures (forall k :: log[i].login <= k < |issued| ==> issued[k].token != Some(log[i].token)) ==>
              log[j].token != log[i].token
  {
    LoginsGrow(log, issued, i, j);
    assert Genuine(log[j], issued);
  }

  /** Counted from its issue by the server, a token that is sent is at most 250 seconds older than the longest
      time a login took. */
  lemma SentTokenAge(log: seq<Attempt>, issued: seq<Issue>, longest: nat, i: nat)
    requires Fresh(log, issued) && i < |log|
    requires forall k :: 0 <= k < |issued| ==> issued[k].answeredAt - issued[k].issuedAt <= longest
    ensures From(issued, log[i].login, log[i].token)
    ensures log[i].sentAt - issued[log[i].login - 1].issuedAt <= MAX_TOKEN_AGE + longest
  {
    assert Genuine(log[i], issued);
  }

  class TeardownSession {
    const gateway: Gateway
    var token: Option<string>
    var tokenIssuedAt: int
    /** Which login the cached token came from; kept for the log only. */
    var login: nat

    /** The cached token and time are those of an answered login, not older than the last one used. */
    ghost predicate Valid()
      reads this, gateway
    {
      && Fresh(gateway.log, gateway.issued)
      && login <= |gateway.issued|
      && (token.Some? ==> From(gateway.issued, login, token.value) && gateway.issued[login - 1].answeredAt == tokenIssuedAt)
      && (gateway.log != [] ==>
            var last := gateway.log[|gateway.log| - 1];
            && last.login <= login && (last.status == 401 && token.Some? ==> last.login < login)
            && (last.status == 429 ==> last.answeredAt + RETRY_PAUSE <= gateway.now))
    }

    constructor (gateway: Gateway)
      requires gateway.log == []
      ensures Valid() && this.gateway == gateway && token.None?
    {
      this.gateway, token, tokenIssuedAt, login := gateway, None, 0, 0;
    }

    /** A cached token that is taken without a login. */
    predicate Usable()
      reads this, gateway
    {
      token.Some? && token.value != "" && gateway.now - tokenIssuedAt <= MAX_TOKEN_AGE
    }

    /** `currentToken`; `None` where it throws because the login failed. */
    method CurrentToken() returns (r: Option<string>)
      requires Valid()
      modifies this, gateway`now, gateway`issued
      ensures Valid() && gateway.log == old(gateway.log) && gateway.now >= old(gateway.now)
      ensures old(Usable()) ==> r == old(token) && login == old(login) && gateway.issued == old(gateway.issued) && gateway.now == old(gateway.now)
      ensures !old(Usable()) ==>
                |gateway.issued| == |old(gateway.issued)| + 1 && r == gateway.issued[|old(gateway.issued)|].token
                && (r.Some? ==> login == |gateway.issued|)
      ensures old(gateway.issued) <= gateway.issued
      ensures r.Some? ==> token == r && From(gateway.issued, login, r.value)
                          && gateway.now - gateway.issued[login - 1].answeredAt <= MAX_TOKEN_AGE
      ensures r.Some? && gateway.log != [] ==>
                var last := gateway.log[|gateway.log| - 1];
                last.login <= login && (last.status == 401 ==> last.login < login)
    {
      if token.None? || token.value == "" || gateway.now - tokenIssuedAt > MAX_TOKEN_AGE {
        var result := gateway.Login();
        FreshGrows(gateway.log, old(gateway.issued), gateway.issued);
        hide Fresh;
        if result.None? {
          return None;
        }
        token := result;
        login := |gateway.issued|;
        tokenIssuedAt := gateway.now;
      }
      r := token;
    }

    /** One round of the loop: `None` where no token could be had. */
    method SendOnce() returns (status: Option<int>)
      requires Valid()
      modifies this, gateway
      ensures Valid() && old(gateway.issued) <= gateway.issued
      ensures |gateway.issued| == |old(gateway.issued)| + if old(Usable()) then 0 else 1
      ensures status.None? ==> gateway.log == old(gateway.log)
      ensures status.Some? ==>
                |gateway.log| == |old(gateway.log)| + 1 && old(gateway.log) <= gateway.log
                && gateway.log[|old(gateway.log)|].status == status.value
      ensures status.None? <==> !old(Usable()) && gateway.issued[|old(gateway.issued)|].token.None?
    {
      hide Fresh;
      var current := CurrentToken();
      if current.None? {
        return None;
      }
      ghost var log := gateway.log;
      var answer := gateway.Send(current.value, login);
      FreshAppend(log, gateway.log[|log|], gateway.issued);
      if answer == 429 {
        gateway.Sleep(RETRY_PAUSE);
      } else if answer == 401 {
        token := None;
      }
      status := Some(answer);
    }

    /** `request`: `Ok(Some(status))` is a returned response, `Ok(None)` is `null`, `Err` a failed login.
        `maxAttempts` missing or zero means five. */
    method Request(maxAttempts: Option<int>) returns (r: Result<Option<int>, ()>)
      requires Valid()
      modifies this, gateway
      ensures Valid() && old(gateway.log) <= gateway.log && old(gateway.issued) <= gateway.issued
      ensures var sent, limit := gateway.log[|old(gateway.log)|..], Limit(maxAttempts);
              && |sent| <= limit && (maxAttempts == None || maxAttempts == Some(0) ==> limit == 5)
              && (maxAttempts.Some? && maxAttempts.value > 0 ==> limit == maxAttempts.value)
              && match r
                 case Ok(Some(status)) =>
                   sent != [] && sent[|sent| - 1].status == status && !Retried(status)
                   && forall i :: 0 <= i < |sent| - 1 ==> Retried(sent[i].status)
                 case Ok(None) => |sent| == limit && forall i :: 0 <= i < |sent| ==> Retried(sent[i].status)
                 case Err(_) =>
                   |sent| < limit && (forall i :: 0 <= i < |sent| ==> Retried(sent[i].status))
                   && gateway.issued != [] && gateway.issued[|gateway.issued| - 1].token.None?
    {
      hide Fresh, Limit;
      var limit := Limit(maxAttempts);
      LimitIs(maxAttempts);
      ghost var before := gateway.log;
      for attempt := 0 to limit
        invariant Valid() && before <= gateway.log && |gateway.log| == |before| + attempt
        invariant old(gateway.issued) <= gateway.issued
        invariant forall i :: |before| <= i < |gateway.log| ==> Retried(gateway.log[i].status)
      {
        var status := SendOnce();
        if status.None? {
          return Err(());
        } else if !Retried(status.value) {
          return Ok(status);
        }
      }
      r := Ok(None);
    }
  }

  /** `maxAttempts || 5`, then as many rounds as the loop makes. */
  function Limit(maxAttempts: Option<int>): nat {
    if maxAttempts.None? || maxAttempts.value == 0 then DEFAULT_ATTEMPTS
    else if maxAttempts.value < 0 then 0 else maxAttempts.value
  }

  lemma LimitIs(maxAttempts: Option<int>)
    ensures maxAttempts == None || maxAttempts == Some(0) ==> Limit(maxAttempts) == 5
    ensures maxAttempts.Some? && maxAttempts.value > 0 ==> Limit(maxAttempts) == maxAttempts.value
  {
  }

  // ------------------------------------------------------------ weighted choice

  function Cumulated(weights: seq<real>): real {
    if weights == [] then 0.0 else Cumulated(weights[..|weights| - 1]) + weights[|weights| - 1]
  }

  /** `pickAction` for a random number `r`: the action whose interval of cumulated weight holds `r`. */
  method PickAction(weights: seq<real>, r: real) returns (k: nat)
    requires weights != [] && 0.0 <= r
    ensures k < |weights|
    ensures r < Cumulated(weights) ==> Cumulated(weights[..k]) <= r < Cumulated(weights[..k + 1])
    ensures r >= Cumulated(weights) ==> Cumulated(weights[..k + 1]) > r || k == |weights| - 1
  {
    var acc := 0.0;
    for i := 0 to |weights|
      invariant acc == Cumulated(weights[..i]) <= r
    {
      assert weights[..i + 1][..i] == weights[..i];
      acc := acc + weights[i];
      if r < acc {
        return i;
      }
    }
    assert weights[..|weights|] == weights;
    k := |weights| - 1;
  }
}
