/**
 Models recoverPasswordRequest of backend/src/endpoints/auth/auth.service.ts:
 within a window an address is served once, and so is a caller's IP, and the
 answer does not tell which addresses have accounts.

 `lower` is `toLowerCase()`. A cache entry is live for
 RECOVERY_THROTTLE_MS; whether it still is at that very millisecond is left to
 the cache (`liveAtLimit`).
 */
module RecoveryThrottle {
  import opened Wrappers
  import PersonName

  const RECOVERY_THROTTLE_MS := 60_000

  datatype Request = Request(time: int, email: Option<string>, ip: Option<string>)

  datatype Rules = Rules(lower: string -> string, liveAtLimit: bool)

  datatype Reply = Acknowledged | TooManyRequests | MailFailed

  // ----- keys and windows -----

  const EMAIL_KEY := "recover-password-request:email:"
  const IP_KEY := "recover-password-request:ip:"

  /** The address as the key spells it; a missing one counts as empty. */
  function Address(q: Request, rules: Rules): string {
    rules.lower(PersonName.Trim(if q.email.Some? then q.email.value else ""))
  }

  /** An absent or empty IP gives no second key. */
  function ThrottleKeys(q: Request, rules: Rules): seq<string> {
    [EMAIL_KEY + Address(q, rules)] + if q.ip.Some? && q.ip.value != "" then [IP_KEY + q.ip.value] else []
  }

  predicate Shares(p: Request, q: Request, rules: Rules) {
    exists key :: key in ThrottleKeys(p, rules) && key in ThrottleKeys(q, rules)
  }

  /** The addresses are the same once trimmed and lower-cased, a missing one being empty. */
  predicate SameAddress(p: Request, q: Request, rules: Rules) {
    rules.lower(PersonName.Trim(match p.email case None => "" case Some(email) => email)) ==
    rules.lower(PersonName.Trim(match q.email case None => "" case Some(email) => email))
  }

  /**
   Two requests share a key exactly when their addresses, as keys spell them,
   or their IPs are equal: an address never collides with an IP.
   */
  lemma SharesMeansSameAddressOrIp(p: Request, q: Request, rules: Rules)
    ensures Shares(p, q, rules) <==> SameAddress(p, q, rules) || (p.ip == q.ip && p.ip.Some? && p.ip.value != "")
  {
    var e, e' := EMAIL_KEY + Address(p, rules), EMAIL_KEY + Address(q, rules);
    assert e in ThrottleKeys(p, rules) && e' in ThrottleKeys(q, rules);
    assert e[25] == e'[25] == 'e';
    assert e[|EMAIL_KEY|..] == Address(p, rules) && e'[|EMAIL_KEY|..] == Address(q, rules);
    if p.ip.Some? && p.ip.value != "" {
      var k := IP_KEY + p.ip.value;
      assert k in ThrottleKeys(p, rules) && k[25] == 'i' && k[|IP_KEY|..] == p.ip.value;
    }
    if q.ip.Some? && q.ip.value != "" {
      var k := IP_KEY + q.ip.value;
      assert k in ThrottleKeys(q, rules) && k[25] == 'i' && k[|IP_KEY|..] == q.ip.value;
    }
  }

  predicate Live(setAt: int, now: int, rules: Rules) {
    now - setAt < RECOVERY_THROTTLE_MS || (now - setAt == RECOVERY_THROTTLE_MS && rules.liveAtLimit)
  }

  // ----- the rule, without a cache -----

  /** A request is let in unless an earlier one that was let in shares a key with it and is less than a window old. */
  ghost predicate LetIn(history: seq<Request>, i: nat, rules: Rules)
    requires i < |history|
    decreases i
  {
    forall j | 0 <= j < i && LetIn(history, j, rules) :: !Blocks(history[j], history[i], rules)
  }

  predicate Blocks(p: Request, q: Request, rules: Rules) {
    Shares(p, q, rules) && Live(p.time, q.time, rules)
  }

  ghost predicate TimeOrdered(history: seq<Request>) {
    forall i, j | 0 <= i < j < |history| :: history[i].time <= history[j].time
  }

  /**
   What a request meets: whether the lookup by its address finds a user (without
   an address it finds any there is), and whether mail can be delivered just
   then.
   */
  datatype Moment = Moment(hasAccount: bool, mailWorks: bool)

  /** The answer the rule gives. */
  ghost function Answer(history: seq<Request>, i: nat, rules: Rules, moment: Moment): Reply
    requires i < |history|
  {
    if !LetIn(history, i, rules) then TooManyRequests
    else if moment.hasAccount && !moment.mailWorks then MailFailed
    else Acknowledged
  }

  ghost function Answers(history: seq<Request>, moments: seq<Moment>, rules: Rules): seq<Reply>
    requires |moments| == |history|
  {
    seq(|history|, i requires 0 <= i < |history| => Answer(history, i, rules, moments[i]))
  }

  /** Requests let in for the same address or from the same IP are at least a window apart. */
  lemma LetInAreApart(history: seq<Request>, i: nat, j: nat, rules: Rules)
    requires i < j < |history| && LetIn(history, i, rules) && LetIn(history, j, rules)
    requires SameAddress(history[i], history[j], rules)
        || (history[i].ip == history[j].ip && history[i].ip.Some? && history[i].ip.value != "")
    ensures history[j].time - history[i].time >= 60_000
  {
    SharesMeansSameAddressOrIp(history[i], history[j], rules);
  }

  /**
   A request is turned away exactly when one let in before it has its address
   or its IP and is less than a minute old.
   */
  lemma LetInExactly(history: seq<Request>, i: nat, rules: Rules)
    requires i < |history|
    ensures LetIn(history, i, rules) <==>
      forall j | 0 <= j < i && LetIn(history, j, rules)
                 && (SameAddress(history[j], history[i], rules)
                     || (history[j].ip == history[i].ip && history[j].ip.Some? && history[j].ip.value != "")) ::
        history[i].time - history[j].time > 60_000
            || (history[i].time - history[j].time == 60_000 && !rules.liveAtLimit)
  {
    forall j | 0 <= j < i
      ensures Shares(history[j], history[i], rules) <==>
              SameAddress(history[j], history[i], rules)
              || (history[j].ip == history[i].ip && history[j].ip.Some? && history[j].ip.value != "")
    {
      SharesMeansSameAddressOrIp(history[j], history[i], rules);
    }
    hide Shares, SameAddress;
  }

  /** The answers: too many, a failed delivery to an account, or the one acknowledgement. */
  lemma AnsweredExactly(history: seq<Request>, moments: seq<Moment>, i: nat, rules: Rules)
    requires |moments| == |history| && i < |history|
    ensures Answers(history, moments, rules)[i] == TooManyRequests <==> !LetIn(history, i, rules)
    ensures Answers(history, moments, rules)[i] == MailFailed <==>
      LetIn(history, i, rules) && moments[i].hasAccount && !moments[i].mailWorks
  {
    hide LetIn;
  }

  function Without<T>(history: seq<T>, k: nat): seq<T>
    requires k < |history|
  {
    history[..k] + history[k + 1..]
  }

  /** Where request `i` stands once request `k` is gone. */
  function Moved(i: nat, k: nat): nat
    requires i != k
  {
    if i < k then i else i - 1
  }

  /** Without a rejected request, request `i` is treated the same. */
  ghost predicate Unmoved(history: seq<Request>, k: nat, i: nat, rules: Rules)
    requires k < |history| && i < |history| && i != k
  {
    LetIn(history, i, rules) <==> LetIn(Without(history, k), Moved(i, k), rules)
  }

  /** A rejected request never extends a window: without it every other request is treated the same. */
  lemma {:induction false} RejectedNeverExtends(history: seq<Request>, k: nat, i: nat, rules: Rules)
    requires k < |history| && !LetIn(history, k, rules) && i < |history| && i != k
    ensures Unmoved(history, k, i, rules)
    decreases i
  {
    forall j | 0 <= j < i && j != k
      ensures Unmoved(history, k, j, rules)
    {
      RejectedNeverExtends(history, k, j, rules);
    }
    if LetIn(history, i, rules) {
      StillLetIn(history, k, i, rules);
    } else {
      StillBlocked(history, k, i, rules);
    }
  }

  lemma WithoutAt(history: seq<Request>, k: nat, i: nat)
    requires k < |history| && i < |history| && i != k
    ensures Moved(i, k) < |Without(history, k)| && Without(history, k)[Moved(i, k)] == history[i]
  {
  }

  lemma BlockedBy(history: seq<Request>, j: nat, i: nat, rules: Rules)
    requires j < i < |history| && LetIn(history, j, rules) && Blocks(history[j], history[i], rules)
    ensures !LetIn(history, i, rules)
  {
  }

  lemma StillBlocked(history: seq<Request>, k: nat, i: nat, rules: Rules)
    requires k < |history| && !LetIn(history, k, rules) && i < |history| && i != k && !LetIn(history, i, rules)
    requires forall j | 0 <= j < i && j != k :: Unmoved(history, k, j, rules)
    ensures !LetIn(Without(history, k), Moved(i, k), rules)
  {
    var j :| 0 <= j < i && LetIn(history, j, rules) && Blocks(history[j], history[i], rules);
    WithoutAt(history, k, j);
    WithoutAt(history, k, i);
    assert Unmoved(history, k, j, rules);
    hide Blocks, LetIn, Without;
    var shorter := Without(history, k);
    BlockedBy(shorter, Moved(j, k), Moved(i, k), rules);
  }

  lemma StillLetIn(history: seq<Request>, k: nat, i: nat, rules: Rules)
    requires k < |history| && !LetIn(history, k, rules) && i < |history| && i != k && LetIn(history, i, rules)
    requires forall j | 0 <= j < i && j != k :: Unmoved(history, k, j, rules)
    ensures LetIn(Without(history, k), Moved(i, k), rules)
  {
    hide Blocks;
    var shorter, i' := Without(history, k), Moved(i, k);
    assert shorter[i'] == history[i];
    forall j' | 0 <= j' < i' && LetIn(shorter, j', rules)
      ensures !Blocks(shorter[j'], shorter[i'], rules)
    {
      var j := if j' < k then j' else j' + 1;
      assert Moved(j, k) == j' && history[j] == shorter[j'];
      assert Unmoved(history, k, j, rules);
    }
  }

  /** Dropping a rejected request changes no other answer. */
  lemma RejectedLeavesNoTrace(history: seq<Request>, moments: seq<Moment>, k: nat, rules: Rules)
    requires |moments| == |history| && k < |history| && !LetIn(history, k, rules)
    ensures Answers(Without(history, k), Without(moments, k), rules) == Without(Answers(history, moments, rules), k)
  {
    hide LetIn;
    var shorter, fewer := Without(history, k), Without(moments, k);
    forall i' | 0 <= i' < |shorter|
      ensures Answers(shorter, fewer, rules)[i'] == Without(Answers(history, moments, rules), k)[i']
    {
      var i := if i' < k then i' else i' + 1;
      RejectedNeverExtends(history, k, i, rules);
      assert Moved(i, k) == i' && fewer[i'] == moments[i];
    }
  }

  function Mails(moments: seq<Moment>): seq<bool> {
    seq(|moments|, i requires 0 <= i < |moments| => moments[i].mailWorks)
  }

  ghost predicate NoFailureReachesAnAccount(history: seq<Request>, moments: seq<Moment>, rules: Rules)
    requires |moments| == |history|
  {
    forall i | 0 <= i < |history| && LetIn(history, i, rules) :: moments[i].hasAccount ==> moments[i].mailWorks
  }

  /**
   The answers are those an empty user table would give exactly when no
   request let in for an account meets a mail failure.
   */
  lemma AnswersHideAccounts(history: seq<Request>, moments: seq<Moment>, nobody: seq<Moment>, rules: Rules)
    requires |moments| == |history| && Mails(nobody) == Mails(moments)
    requires |nobody| == |moments| && forall moment | moment in nobody :: !moment.hasAccount
    ensures Answers(history, moments, rules) == Answers(history, nobody, rules)
        <==> NoFailureReachesAnAccount(history, moments, rules)
  {
    hide LetIn;
    forall i | 0 <= i < |history|
      ensures Answers(history, moments, rules)[i] == Answers(history, nobody, rules)[i] <==>
              (LetIn(history, i, rules) ==> moments[i].hasAccount ==> moments[i].mailWorks)
    {
      assert Mails(nobody)[i] == Mails(moments)[i] && !nobody[i].hasAccount;
    }
    if NoFailureReachesAnAccount(history, moments, rules) {
      assert Answers(history, moments, rules) == Answers(history, nobody, rules);
    }
  }

  // ----- the service -----

  /** Some request among the first `n` was let in under `key`, at `time`. */
  ghost predicate Spent(history: seq<Request>, n: nat, rules: Rules, key: string, time: int)
    requires n <= |history|
  {
    exists j :: 0 <= j < n && SpentBy(history, j, rules, key) && history[j].time == time
  }

  ghost predicate SpentBy(history: seq<Request>, j: nat, rules: Rules, key: string)
    requires j < |history|
  {
    LetIn(history, j, rules) && key in ThrottleKeys(history[j], rules)
  }

  /** The cache knows, for each key, the last request let in under it. */
  ghost predicate Remembers(cache: map<string, int>, history: seq<Request>, n: nat, rules: Rules)
    requires n <= |history|
  {
    && (forall key | key in cache :: Spent(history, n, rules, key, cache[key]))
    && (forall j, key | 0 <= j < n && SpentBy(history, j, rules, key) :: key in cache && history[j].time <= cache[key])
  }

  predicate Hit(cache: map<string, int>, key: string, now: int, rules: Rules) {
    key in cache && Live(cache[key], now, rules)
  }

  predicate AnyHit(cache: map<string, int>, q: Request, rules: Rules) {
    exists key :: key in ThrottleKeys(q, rules) && Hit(cache, key, q.time, rules)
  }

  function Mark(cache: map<string, int>, q: Request, rules: Rules): map<string, int> {
    cache + map key | key in ThrottleKeys(q, rules) :: q.time
  }

  /** Looking the keys up in the cache decides the rule. */
  lemma HitMeansBlocked(cache: map<string, int>, history: seq<Request>, n: nat, rules: Rules)
    requires n < |history| && TimeOrdered(history) && Remembers(cache, history, n, rules)
    ensures LetIn(history, n, rules) <==> !AnyHit(cache, history[n], rules)
  {
    if AnyHit(cache, history[n], rules) {
      HitBlocks(cache, history, n, rules);
    }
    if !LetIn(history, n, rules) {
      BlockedHits(cache, history, n, rules);
    }
  }

  lemma HitBlocks(cache: map<string, int>, history: seq<Request>, n: nat, rules: Rules)
    requires n < |history| && Remembers(cache, history, n, rules) && AnyHit(cache, history[n], rules)
    ensures !LetIn(history, n, rules)
  {
    hide ThrottleKeys;
    var q := history[n];
    var key :| key in ThrottleKeys(q, rules) && Hit(cache, key, q.time, rules);
    assert Spent(history, n, rules, key, cache[key]);
    var j :| 0 <= j < n && SpentBy(history, j, rules, key) && history[j].time == cache[key];
    assert Shares(history[j], q, rules);
    assert Blocks(history[j], q, rules);
  }

  lemma BlockedHits(cache: map<string, int>, history: seq<Request>, n: nat, rules: Rules)
    requires n < |history| && TimeOrdered(history) && Remembers(cache, history, n, rules) && !LetIn(history, n, rules)
    ensures AnyHit(cache, history[n], rules)
  {
    var q := history[n];
    var j :| 0 <= j < n && LetIn(history, j, rules) && Blocks(history[j], q, rules);
    hide LetIn, ThrottleKeys;
    var key :| key in ThrottleKeys(history[j], rules) && key in ThrottleKeys(q, rules);
    assert SpentBy(history, j, rules, key);
    assert Hit(cache, key, q.time, rules);
  }

  /** A request let in leaves its time under each of its keys. */
  lemma MarkRemembers(cache: map<string, int>, history: seq<Request>, n: nat, rules: Rules)
    requires n < |history| && TimeOrdered(history) && Remembers(cache, history, n, rules) && LetIn(history, n, rules)
    ensures Remembers(Mark(cache, history[n], rules), history, n + 1, rules)
  {
    hide LetIn, ThrottleKeys;
    var after := Mark(cache, history[n], rules);
    forall key | key in after
      ensures Spent(history, n + 1, rules, key, after[key])
    {
      if key in ThrottleKeys(history[n], rules) {
        assert SpentBy(history, n, rules, key);
      } else {
        assert Spent(history, n, rules, key, cache[key]);
      }
    }
    forall j, key | 0 <= j < n + 1 && SpentBy(history, j, rules, key)
      ensures key in after && history[j].time <= after[key]
    {
      if key !in ThrottleKeys(history[n], rules) {
        assert j < n;
      }
    }
  }

  lemma SkipRemembers(cache: map<string, int>, history: seq<Request>, n: nat, rules: Rules)
    requires n < |history| && Remembers(cache, history, n, rules) && !LetIn(history, n, rules)
    ensures Remembers(cache, history, n + 1, rules)
  {
    hide LetIn, ThrottleKeys;
    forall key | key in cache
      ensures Spent(history, n + 1, rules, key, cache[key])
    {
      assert Spent(history, n, rules, key, cache[key]);
    }
  }

  class RecoveryService {
    /** Each key with the time it was last set. */
    var cache: map<string, int>
    const rules: Rules

    constructor (rules: Rules)
      ensures cache == map[] && this.rules == rules
    {
      cache := map[];
      this.rules := rules;
    }

    method RecoverPasswordRequest(q: Request, moment: Moment) returns (reply: Reply)
      modifies this`cache
      ensures reply == TooManyRequests <==> AnyHit(old(cache), q, rules)
      ensures cache == if reply == TooManyRequests then old(cache) else Mark(old(cache), q, rules)
      ensures reply != TooManyRequests
          ==> reply == if moment.hasAccount && !moment.mailWorks then MailFailed else Acknowledged
    {
      var throttleKeys := ThrottleKeys(q, rules);
      for i := 0 to |throttleKeys|
        invariant forall j | 0 <= j < i :: !Hit(cache, throttleKeys[j], q.time, rules)
      {
        if Hit(cache, throttleKeys[i], q.time, rules) {
          return TooManyRequests;
        }
      }
      cache := Mark(cache, q, rules);
      if !moment.hasAccount { return Acknowledged; }
      if !moment.mailWorks { return MailFailed; }
      reply := Acknowledged;
    }

    /** A whole history, one request after the other: the cache computes the rule. */
    method Serve(history: seq<Request>, moments: seq<Moment>) returns (replies: seq<Reply>)
      requires TimeOrdered(history) && |moments| == |history| && cache == map[]
      modifies this`cache
      ensures replies == Answers(history, moments, rules)
    {
      hide LetIn, AnyHit, Mark;
      replies := [];
      for n := 0 to |history|
        invariant |replies| == n
        invariant forall i | 0 <= i < n :: replies[i] == Answer(history, i, rules, moments[i])
        invariant Remembers(cache, history, n, rules)
      {
        HitMeansBlocked(cache, history, n, rules);
        if LetIn(history, n, rules) {
          MarkRemembers(cache, history, n, rules);
        } else {
          SkipRemembers(cache, history, n, rules);
        }
        var reply := RecoverPasswordRequest(history[n], moments[n]);
        replies := replies + [reply];
      }
    }
  }
}
