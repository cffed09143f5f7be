/**
 Models the admin-token cache of backend/src/endpoints/auth/keycloak.service.ts
 (getAdminToken). A call is suspended at its request to Keycloak, so the cache
 sees two kinds of atomic step in any order: a call starting, and the answer to
 an earlier request arriving. Times are milliseconds, `expires_in` is seconds.
 */
module AdminToken {
  import opened Wrappers

  /** A token as the server issued it. */
  datatype Grant = Grant(token: string, expiresIn: int, issuedAt: int)

  datatype Event =
    | Started(now: int)
    | Answered(now: int, grant: Grant)
    | Refused

  datatype Outcome =
    | FromCache(token: string)
    | Requesting
    | Fetched(token: string)
    | Failed

  datatype CachedToken = CachedToken(token: string, expiresAt: int)

  // ----- what a call should be given, read off the history alone -----

  /** The position of the last answer among the first `n` events. */
  function LastAnswer(events: seq<Event>, n: nat): (last: Option<nat>)
    requires n <= |events|
    ensures last.Some? ==> last.value < n && events[last.value].Answered?
    ensures forall j | 0 <= j < n && events[j].Answered? :: last.Some? && j <= last.value
  {
    if n == 0 then None
    else if events[n - 1].Answered? then Some(n - 1)
    else LastAnswer(events, n - 1)
  }

  /** How much of a grant is left, counted from when its answer arrived. */
  function LeftAt(answer: Event, now: int): int
    requires answer.Answered?
  {
    answer.now + answer.grant.expiresIn * 1000 - now
  }

  function OutcomeOf(events: seq<Event>, i: nat): Outcome
    requires i < |events|
  {
    match events[i]
    case Refused => Failed
    case Answered(_, grant) => Fetched(grant.token)
    case Started(now) =>
      var last := LastAnswer(events, i);
      if last.Some? && LeftAt(events[last.value], now) > 10_000
      then FromCache(events[last.value].grant.token) else Requesting
  }

  function Outcomes(events: seq<Event>): seq<Outcome> {
    seq(|events|, i requires 0 <= i < |events| => OutcomeOf(events, i))
  }

  // ----- the service -----

  class KeycloakService {
    var adminToken: Option<CachedToken>

    constructor ()
      ensures adminToken == None
    {
      adminToken := None;
    }

    /** getAdminToken up to its request; `None` when the call goes on to ask Keycloak. */
    method GetAdminToken(now: int) returns (token: Option<string>)
      ensures token == if adminToken.Some? && adminToken.value.expiresAt > now then Some(adminToken.value.token)
          else None
    {
      if adminToken.Some? && adminToken.value.expiresAt > now {
        return Some(adminToken.value.token);
      }
      token := None;
    }

    /** getAdminToken from the arrival of Keycloak's answer. */
    method ReceiveAdminToken(now: int, data: Grant) returns (token: string)
      modifies this
      ensures token == data.token
      ensures adminToken == Some(CachedToken(data.token, now + (data.expiresIn - 10) * 1000))
    {
      adminToken := Some(CachedToken(data.token, now + (data.expiresIn - 10) * 1000));
      token := adminToken.value.token;
    }

    /** The cache holds the last answer, with ten seconds taken off its life. */
    ghost predicate Holds(events: seq<Event>, n: nat)
      reads this
      requires n <= |events|
    {
      match LastAnswer(events, n)
      case None => adminToken == None
      case Some(j) =>
        && adminToken.Some?
        && adminToken.value.token == events[j].grant.token
        && (forall now :: adminToken.value.expiresAt > now <==> LeftAt(events[j], now) > 10_000)
    }

    /** Any interleaving of starts and answers: each call gets what the history says. */
    method Run(events: seq<Event>) returns (outcomes: seq<Outcome>)
      requires adminToken == None
      modifies this
      ensures outcomes == Outcomes(events)
    {
      outcomes := [];
      for n := 0 to |events|
        invariant Holds(events, n)
        invariant |outcomes| == n && forall i | 0 <= i < n :: outcomes[i] == OutcomeOf(events, i)
      {
        var outcome := Failed;
        match events[n] {
          case Started(now) =>
            var token := GetAdminToken(now);
            outcome := if token.Some? then FromCache(token.value) else Requesting;
          case Answered(now, grant) =>
            var token := ReceiveAdminToken(now, grant);
            outcome := Fetched(token);
          case Refused =>
        }
        outcomes := outcomes + [outcome];
      }
    }
  }

  // ----- what the outcomes mean -----

  /**
   A call is served from the cache exactly when the server issued that token in
   the last answer before the call and more than ten seconds of its granted
   life are left, counted from that answer.
   */
  lemma ServedExactly(events: seq<Event>, i: nat, token: string)
    requires i < |events| && events[i].Started?
    ensures Outcomes(events)[i] == FromCache(token) <==>
            exists j :: 0 <= j < i && IssuedLast(events, j, i) && events[j].grant.token == token
                && events[j].now + events[j].grant.expiresIn * 1000 - events[i].now > 10_000
  {
    var last := LastAnswer(events, i);
    if last.Some? {
      assert IssuedLast(events, last.value, i);
    }
  }

  /**
   A call whose request was answered gets that token, one whose request was
   refused fails; a start never does either.
   */
  lemma AnsweredExactly(events: seq<Event>, i: nat)
    requires i < |events|
    ensures forall token ::
              Outcomes(events)[i] == Fetched(token) <==> events[i].Answered? && events[i].grant.token == token
    ensures Outcomes(events)[i] == Failed <==> events[i] == Refused
  {
  }

  /** Event `j` is an answer and no other answer arrived between it and event `i`. */
  ghost predicate IssuedLast(events: seq<Event>, j: nat, i: nat)
    requires j < i < |events|
  {
    events[j].Answered? && forall k | j < k < i :: !events[k].Answered?
  }

  /** A call goes to Keycloak only when nothing was answered yet or the last answer is within ten seconds of its end. */
  lemma FetchesOnlyWhenSpent(events: seq<Event>, i: nat)
    requires i < |events| && events[i].Started?
    ensures Outcomes(events)[i] == Requesting <==>
            forall j | 0 <= j < i && IssuedLast(events, j, i) ::
              events[j].now + events[j].grant.expiresIn * 1000 - events[i].now <= 10_000
  {
    var last := LastAnswer(events, i);
    if last.Some? {
      assert IssuedLast(events, last.value, i);
    }
  }

  /** At the server a token lives from the moment it was issued. */
  predicate AliveAtServer(grant: Grant, now: int) {
    now < grant.issuedAt + grant.expiresIn * 1000
  }

  /** The cache would serve the answer at `now`. */
  predicate ServedAt(answer: Event, now: int)
    requires answer.Answered?
  {
    now >= answer.now && answer.now + answer.grant.expiresIn * 1000 - now > 10_000
  }

  /**
   A token is never served dead exactly when its answer took at most ten seconds
   to arrive, or was granted for so short a time that it is never served at all.
   */
  lemma NeverServedDead(answer: Event)
    requires answer.Answered?
    ensures (forall now :: ServedAt(answer, now) ==> AliveAtServer(answer.grant, now)) <==>
            answer.now - answer.grant.issuedAt <= 10_000 || answer.grant.expiresIn <= 10
  {
    var latest := answer.now + (answer.grant.expiresIn - 10) * 1000 - 1;
    if answer.now - answer.grant.issuedAt > 10_000 && answer.grant.expiresIn > 10 {
      assert ServedAt(answer, latest) && !AliveAtServer(answer.grant, latest);
    }
  }

  /** Any answer that took longer than that, and is served at all, is served dead to a call at the right moment. */
  lemma SlowAnswerIsServedDead(answer: Event) returns (now: int)
    requires answer.Answered? && answer.now - answer.grant.issuedAt > 10_000 && answer.grant.expiresIn > 10
    ensures Outcomes([answer, Started(now)])[1] == FromCache(answer.grant.token)
    ensures now >= answer.now && !AliveAtServer(answer.grant, now)
  {
    now := answer.now + (answer.grant.expiresIn - 10) * 1000 - 1;
  }

  /** A token of one minute whose answer took eleven seconds, used half a second after its end. */
  lemma DeadTokenServed()
    ensures var grant := Grant("t", 60, 0); var events := [Answered(11_000, grant), Started(60_500)];
      Outcomes(events)[1] == FromCache("t") && !AliveAtServer(grant, 60_500)
  {
    assert LastAnswer([Answered(11_000, Grant("t", 60, 0)), Started(60_500)], 1) == Some(0);
  }

  /**
   So in every interleaving whose answers arrive within ten seconds, a token
   from the cache is still alive at the server.
   */
  lemma ServedTokensAreAlive(events: seq<Event>, i: nat)
    requires i < |events| && Outcomes(events)[i].FromCache?
    requires forall j | 0 <= j < i && events[j].Answered? :: events[j].now - events[j].grant.issuedAt <= 10_000
    ensures exists j :: 0 <= j < i && events[j].Answered? && events[j].grant.token == Outcomes(events)[i].token &&
                        AliveAtServer(events[j].grant, events[i].now)
  {
    var j := LastAnswer(events, i).value;
    assert AliveAtServer(events[j].grant, events[i].now);
  }
}
