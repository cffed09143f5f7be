/**
 Models verifyCompanyCertificate and verifyAllCompanyCertificate of
 backend/src/endpoints/certificate/certificate.service.ts: the check of one
 company, and the batched form that asks ICID about at most 50 certificates at
 a time and must give the same answers.
 */
module Certificates {
  import opened Wrappers
  import opened Tables

  /** Timestamps in milliseconds; a nullable column is an Option. '' is no Hedera file. */
  datatype Cert = Cert(companyId: Id, expiry: Option<int>, created: Option<int>, fileId: string)

  /** One entry of a request to ICID: the company and the file to check. */
  datatype Entry = Entry(ifricId: string, fileId: string)

  // ----- the latest certificate -----

  /** `x` comes strictly before `y` under DESC, which puts NULL first. */
  predicate BeforeDesc(x: Option<int>, y: Option<int>) {
    match (x, y)
    case (None, Some(_)) => true
    case (Some(a), Some(b)) => a > b
    case _ => false
  }

  /** ORDER BY expiry_on DESC, created_on DESC. */
  predicate Sooner(x: Cert, y: Cert) {
    BeforeDesc(x.expiry, y.expiry) || (x.expiry == y.expiry && BeforeDesc(x.created, y.created))
  }

  /** A row the ordered query may list first for the company; rows that tie may come in any order. */
  ghost predicate IsLatest(certs: set<Cert>, companyId: Id, c: Cert) {
    && c in certs && c.companyId == companyId
    && forall o | o in certs && o.companyId == companyId :: !Sooner(o, c)
  }

  ghost predicate HasCert(certs: set<Cert>, companyId: Id) {
    exists c :: c in certs && c.companyId == companyId
  }

  /** Without ties the two queries cannot but pick the same row. */
  lemma LatestIsUnique(certs: set<Cert>, companyId: Id, c: Cert, c': Cert)
    requires IsLatest(certs, companyId, c) && IsLatest(certs, companyId, c')
    requires forall x, y | x in certs && y in certs && x.companyId == y.companyId == companyId && x.expiry == y.expiry
        && x.created == y.created :: x == y
    ensures c == c'
  {
    assert !Sooner(c', c) && !Sooner(c, c');
  }

  /** `a` may be listed before `b`: NULL comes first, then the later timestamp; equal ones in any order. */
  predicate ListedNoLater(a: Option<int>, b: Option<int>) {
    a == None || (b != None && a.value >= b.value)
  }

  /** The first row of a company: no other expires later, and of those that expire then none was created later. */
  lemma LatestExactly(certs: set<Cert>, companyId: Id, c: Cert)
    ensures IsLatest(certs, companyId, c) <==>
      && c in certs && c.companyId == companyId
      && forall o | o in certs && o.companyId == companyId ::
           ListedNoLater(c.expiry, o.expiry) && (c.expiry == o.expiry ==> ListedNoLater(c.created, o.created))
  {
  }

  // ----- the verdict -----

  /** `expiry_on < new Date()`; a null date compares as 0. */
  predicate Expired(c: Cert, now: int) {
    (if c.expiry.Some? then c.expiry.value else 0) < now
  }

  predicate NeedsIcid(c: Cert, now: int) {
    !Expired(c, now) && c.fileId != ""
  }

  function Verdict(c: Option<Cert>, ifricId: string, now: int, revoked: Entry -> bool): bool {
    c.Some? && !Expired(c.value, now) && (c.value.fileId == "" || !revoked(Entry(ifricId, c.value.fileId)))
  }

  /**
   A certificate is good from now on until the moment it expires, and if it
   has a file, as long as that is not revoked.
   */
  predicate IsValid(expiry: Option<int>, fileId: string, ifricId: string, now: int, revoked: Entry -> bool) {
    && now <= (match expiry case None => 0 case Some(date) => date)
    && (fileId != "" ==> !revoked(Entry(ifricId, fileId)))
  }

  lemma VerdictExactly(c: Cert, ifricId: string, now: int, revoked: Entry -> bool)
    ensures Verdict(Some(c), ifricId, now, revoked) <==> IsValid(c.expiry, c.fileId, ifricId, now, revoked)
    ensures !Verdict(None, ifricId, now, revoked)
    ensures NeedsIcid(c, now) <==> now <= (match c.expiry case None => 0 case Some(date) => date) && c.fileId != ""
  {
  }

  /** What the single check does; `first` is the row its ordered query lists first. */
  method VerifyCompanyCertificate(
    companies: map<Id, string>, certs: set<Cert>, ifricId: string, first: map<Id, Cert>, now: int,
    revoked: Entry -> bool)
    returns (r: Option<bool>)
    requires forall k | k in companies :: if k in first then IsLatest(certs, k, first[k]) else !HasCert(certs, k)
    requires forall k, l | k in companies && l in companies && companies[k] == companies[l] :: k == l
    ensures r.None? <==> ifricId !in companies.Values
    ensures forall k | k in companies && companies[k] == ifricId ::
      r == Some(k in first && IsValid(first[k].expiry, first[k].fileId, ifricId, now, revoked))
    ensures forall k | k in companies && companies[k] == ifricId ::
      r == Some(Verdict(if k in first then Some(first[k]) else None, ifricId, now, revoked))
  {
    if k :| k in companies && companies[k] == ifricId {
      if k !in first { return Some(false); }
      var certificate := first[k];
      if Expired(certificate, now) { return Some(false); }
      if certificate.fileId == "" { return Some(true); }
      var answer := revoked(Entry(ifricId, certificate.fileId));
      return Some(!answer);
    }
    r := None;
  }

  // ----- the batched form -----

  const BATCH_SIZE := 50

  /** SELECT DISTINCT ON (company_id) over the queried companies. */
  ghost predicate IsDistinctOn(companies: map<Id, string>, queried: set<Id>, certs: set<Cert>, rows: seq<Cert>) {
    && queried <= companies.Keys
    && (forall i | 0 <= i < |rows| :: rows[i].companyId in queried && IsLatest(certs, rows[i].companyId, rows[i]))
    && (forall i, j | 0 <= i < j < |rows| :: rows[i].companyId != rows[j].companyId)
    && (forall k | k in queried && HasCert(certs, k) :: exists i :: 0 <= i < |rows| && rows[i].companyId == k)
  }

  /** ICID's batch reply is the single reply, entry by entry, and says nothing else. */
  ghost predicate IsPointwise(batch: seq<Entry>, reply: map<string, bool>, revoked: Entry -> bool) {
    && (forall e | e in batch :: e.ifricId in reply && reply[e.ifricId] == !revoked(e))
    && (forall id | id in reply :: exists e :: e in batch && e.ifricId == id)
  }

  ghost predicate NamesEachCompanyOnce(batch: seq<Entry>) {
    forall i, j | 0 <= i < j < |batch| :: batch[i].ifricId != batch[j].ifricId
  }

  /** ICID answers so whenever it is asked about some companies, each with one certificate. */
  ghost predicate AnswersPointwise(reply: seq<Entry> -> map<string, bool>, revoked: Entry -> bool) {
    forall b: seq<Entry> | 0 < |b| && NamesEachCompanyOnce(b) :: IsPointwise(b, reply(b), revoked)
  }

  function EntryOf(companies: map<Id, string>, c: Cert): Entry
    requires c.companyId in companies
  {
    Entry(companies[c.companyId], c.fileId)
  }

  /** The entries ICID has to be asked about, in row order. */
  function ToCheck(companies: map<Id, string>, rows: seq<Cert>, now: int): (r: seq<Entry>)
    requires forall c | c in rows :: c.companyId in companies
    ensures |r| <= |rows|
    ensures forall e | e in r :: exists c :: c in rows && NeedsIcid(c, now) && e == EntryOf(companies, c)
  {
    if rows == [] then []
    else
      var c := rows[|rows| - 1];
      ToCheck(companies, rows[..|rows| - 1], now) + if NeedsIcid(c, now) then [EntryOf(companies, c)] else []
  }

  function Flatten(calls: seq<seq<Entry>>): seq<Entry> {
    if calls == [] then [] else Flatten(calls[..|calls| - 1]) + calls[|calls| - 1]
  }

  /** The result holds the verdict of row `c`. */
  ghost predicate Settled(companies: map<Id, string>, result: map<string, bool>, c: Cert, now: int,
      revoked: Entry -> bool)
    requires c.companyId in companies
  {
    var id := companies[c.companyId];
    id in result && result[id] == Verdict(Some(c), id, now, revoked)
  }

  ghost predicate RowsKnown(companies: map<Id, string>, rows: seq<Cert>) {
    && (forall k, l | k in companies && l in companies && companies[k] == companies[l] :: k == l)
    && (forall c | c in rows :: c.companyId in companies)
    && (forall i, j | 0 <= i < j < |rows| :: rows[i].companyId != rows[j].companyId)
  }

  /** The companies the rows are about. */
  function Ids(companies: map<Id, string>, rows: seq<Cert>): set<string>
    requires forall c | c in rows :: c.companyId in companies
  {
    set c | c in rows :: companies[c.companyId]
  }

  lemma ToCheckSplits(companies: map<Id, string>, rows: seq<Cert>, more: seq<Cert>, now: int)
    requires forall c | c in rows + more :: c.companyId in companies
    ensures (forall c | c in rows :: c in rows + more) && forall c | c in more :: c in rows + more
    ensures ToCheck(companies, rows + more, now) == ToCheck(companies, rows, now) + ToCheck(companies, more, now)
  {
    assert forall c | c in rows :: c in rows + more;
    assert forall c | c in more :: c in rows + more;
    if more == [] {
      assert rows + more == rows;
    } else {
      var init := more[..|more| - 1];
      assert (rows + more)[..|rows + more| - 1] == rows + init;
      assert forall c | c in rows + init :: c in rows + more;
      ToCheckSplits(companies, rows, init, now);
    }
  }

  /** `after` holds nothing about other companies than `ids` that `before` did not hold. */
  ghost predicate AgreesOutside(before: map<string, bool>, after: map<string, bool>, ids: set<string>) {
    && after.Keys <= before.Keys + ids
    && forall id | id in before && id !in ids :: id in after && after[id] == before[id]
  }

  /** Of the first `j` rows, those that need no call have their verdict, and other companies are as before. */
  ghost predicate LocallySettled(
    companies: map<Id, string>, batch: seq<Cert>, j: nat, now: int, revoked: Entry -> bool, before: map<string, bool>,
    result: map<string, bool>)
    requires j <= |batch| && forall c | c in batch :: c.companyId in companies
  {
    && (forall p | 0 <= p < j && !NeedsIcid(batch[p], now) :: Settled(companies, result, batch[p], now, revoked))
    && AgreesOutside(before, result, Ids(companies, batch))
  }

  lemma NothingSettled(companies: map<Id, string>, batch: seq<Cert>, now: int, revoked: Entry -> bool,
      before: map<string, bool>)
    requires forall c | c in batch :: c.companyId in companies
    ensures LocallySettled(companies, batch, 0, now, revoked, before, before)
  {
  }

  lemma RowSettled(
    companies: map<Id, string>, batch: seq<Cert>, j: nat, now: int, revoked: Entry -> bool, before: map<string, bool>,
    result: map<string, bool>)
    requires RowsKnown(companies, batch) && j < |batch|
        && LocallySettled(companies, batch, j, now, revoked, before, result)
    ensures var c := batch[j]; var id := companies[c.companyId];
      && (NeedsIcid(c, now) ==> LocallySettled(companies, batch, j + 1, now, revoked, before, result))
      && (Expired(c, now) ==> LocallySettled(companies, batch, j + 1, now, revoked, before, result[id := false]))
      && (!Expired(c, now) && c.fileId == ""
          ==> LocallySettled(companies, batch, j + 1, now, revoked, before, result[id := true]))
  {
    if NeedsIcid(batch[j], now) {
      hide Settled, AgreesOutside;
    } else {
      RowAnswered(companies, batch, j, now, revoked, before, result, !Expired(batch[j], now));
    }
  }

  lemma RowAnswered(
    companies: map<Id, string>, batch: seq<Cert>, j: nat, now: int, revoked: Entry -> bool, before: map<string, bool>,
    result: map<string, bool>,
    verdict: bool)
    requires RowsKnown(companies, batch) && j < |batch|
        && LocallySettled(companies, batch, j, now, revoked, before, result)
    requires verdict == Verdict(Some(batch[j]), companies[batch[j].companyId], now, revoked)
    ensures LocallySettled(companies, batch, j + 1, now, revoked, before,
        result[companies[batch[j].companyId] := verdict])
  {
    hide Verdict, NeedsIcid;
    var id := companies[batch[j].companyId];
    assert batch[j] in batch && id in Ids(companies, batch);
    forall p | 0 <= p < j ensures companies[batch[p].companyId] != id {
      assert batch[p].companyId != batch[j].companyId;
    }
    hide RowsKnown, Ids;
  }

  /** One batch: the rows that need no call are settled on the spot, the others are listed. */
  method SettleLocally(companies: map<Id, string>, batch: seq<Cert>, now: int, revoked: Entry -> bool,
      before: map<string, bool>)
    returns (result: map<string, bool>, icidPassingIds: seq<Entry>)
    requires RowsKnown(companies, batch)
    ensures icidPassingIds == ToCheck(companies, batch, now)
    ensures LocallySettled(companies, batch, |batch|, now, revoked, before, result)
  {
    hide AgreesOutside, Settled, Verdict, Ids;
    result, icidPassingIds := before, [];
    NothingSettled(companies, batch, now, revoked, before);
    for j := 0 to |batch|
      invariant icidPassingIds == ToCheck(companies, batch[..j], now)
      invariant LocallySettled(companies, batch, j, now, revoked, before, result)
    {
      var ifricId := companies[batch[j].companyId];
      RowSettled(companies, batch, j, now, revoked, before, result);
      assert batch[..j + 1][..j] == batch[..j];
      if Expired(batch[j], now) {
        result := result[ifricId := false];
      } else if batch[j].fileId == "" {
        result := result[ifricId := true];
      } else {
        icidPassingIds := icidPassingIds + [Entry(ifricId, batch[j].fileId)];
      }
    }
    assert batch[..|batch|] == batch;
  }

  /** `{ ...result, ...response.data }` settles the listed rows and disturbs no other. */
  lemma ReplySettles(companies: map<Id, string>, batch: seq<Cert>, now: int, revoked: Entry -> bool,
      result: map<string, bool>, reply: map<string, bool>)
    requires RowsKnown(companies, batch)
    requires forall p | 0 <= p < |batch| && !NeedsIcid(batch[p], now) ::
        Settled(companies, result, batch[p], now, revoked)
    requires IsPointwise(ToCheck(companies, batch, now), reply, revoked)
    ensures forall p | 0 <= p < |batch| :: Settled(companies, result + reply, batch[p], now, revoked)
    ensures reply.Keys <= Ids(companies, batch)
  {
    forall p | 0 <= p < |batch| ensures Settled(companies, result + reply, batch[p], now, revoked) {
      var id := companies[batch[p].companyId];
      if id in reply {
        var e :| e in ToCheck(companies, batch, now) && e.ifricId == id;
        var c :| c in batch && NeedsIcid(c, now) && e == EntryOf(companies, c);
        assert c.companyId == batch[p].companyId;
        var q :| 0 <= q < |batch| && batch[q] == c;
        assert q == p;
        assert reply[id] == !revoked(e);
      } else {
        if NeedsIcid(batch[p], now) {
          ToCheckHas(companies, batch, now, p);
        }
      }
    }
    forall id | id in reply ensures id in Ids(companies, batch) {
      var e :| e in ToCheck(companies, batch, now) && e.ifricId == id;
    }
  }

  lemma {:induction false} ToCheckHas(companies: map<Id, string>, rows: seq<Cert>, now: int, p: nat)
    requires forall c | c in rows :: c.companyId in companies
    requires p < |rows| && NeedsIcid(rows[p], now)
    ensures EntryOf(companies, rows[p]) in ToCheck(companies, rows, now)
  {
    if p == |rows| - 1 {
    } else {
      ToCheckHas(companies, rows[..|rows| - 1], now, p);
    }
  }

  /** A batch asks about no company twice, so the premise about ICID's replies applies to it. */
  lemma {:induction false} BatchNamesOnce(companies: map<Id, string>, rows: seq<Cert>, now: int)
    requires RowsKnown(companies, rows)
    ensures NamesEachCompanyOnce(ToCheck(companies, rows, now))
  {
    if rows == [] {
    } else {
      var init, last := rows[..|rows| - 1], rows[|rows| - 1];
      BatchNamesOnce(companies, init, now);
      forall e | e in ToCheck(companies, init, now) ensures e.ifricId != companies[last.companyId] {
        var c :| c in init && NeedsIcid(c, now) && e == EntryOf(companies, c);
        assert c in rows;
      }
    }
  }

  method VerifyBatch(
    companies: map<Id, string>, batch: seq<Cert>, now: int, revoked: Entry -> bool,
    reply: seq<Entry> -> map<string, bool>,
    before: map<string, bool>, callsBefore: seq<seq<Entry>>)
    returns (result: map<string, bool>, calls: seq<seq<Entry>>)
    requires RowsKnown(companies, batch) && |batch| <= BATCH_SIZE
    requires AnswersPointwise(reply, revoked)
    ensures forall p | 0 <= p < |batch| :: Settled(companies, result, batch[p], now, revoked)
    ensures AgreesOutside(before, result, Ids(companies, batch))
    ensures Flatten(calls) == Flatten(callsBefore) + ToCheck(companies, batch, now)
    ensures forall b | b in calls :: b in callsBefore || 0 < |b| <= BATCH_SIZE
  {
    var icidPassingIds;
    result, icidPassingIds := SettleLocally(companies, batch, now, revoked, before);
    calls := callsBefore;
    BatchNamesOnce(companies, batch, now);
    hide RowsKnown, AgreesOutside, Settled, NamesEachCompanyOnce, IsPointwise;
    if |icidPassingIds| > 0 {
      ReplySettles(companies, batch, now, revoked, result, reply(icidPassingIds));
      ReplyStaysInside(before, result, reply(icidPassingIds), Ids(companies, batch));
      calls := callsBefore + [icidPassingIds];
      assert calls[..|calls| - 1] == callsBefore;
      result := result + reply(icidPassingIds);
    } else {
      NothingToAsk(revoked);
      ReplySettles(companies, batch, now, revoked, result, map[]);
      assert result + map[] == result;
    }
  }

  lemma NothingToAsk(revoked: Entry -> bool)
    ensures IsPointwise([], map[], revoked)
  {
  }

  lemma ReplyStaysInside(before: map<string, bool>, result: map<string, bool>, reply: map<string, bool>,
      ids: set<string>)
    requires AgreesOutside(before, result, ids) && reply.Keys <= ids
    ensures AgreesOutside(before, result + reply, ids)
  {
  }

  lemma SliceKnown(companies: map<Id, string>, rows: seq<Cert>, i: nat, next: nat)
    requires RowsKnown(companies, rows) && i <= next <= |rows|
    ensures RowsKnown(companies, rows[i..next])
    ensures forall c | c in rows[..i] + rows[i..next] :: c.companyId in companies
    ensures forall c | c in rows :: c.companyId in companies
  {
  }

  /** Where the loop stands after the first `i` rows. */
  ghost predicate Progress(
    companies: map<Id, string>, rows: seq<Cert>, i: nat, now: int, revoked: Entry -> bool, result: map<string, bool>,
    calls: seq<seq<Entry>>)
    requires i <= |rows| && forall c | c in rows :: c.companyId in companies
  {
    && (forall p | 0 <= p < i :: Settled(companies, result, rows[p], now, revoked))
    && result.Keys <= Ids(companies, rows[..i])
    && Flatten(calls) == ToCheck(companies, rows[..i], now)
  }

  lemma BatchProgresses(
    companies: map<Id, string>, rows: seq<Cert>, i: nat, next: nat, now: int, revoked: Entry -> bool,
    before: map<string, bool>, result: map<string, bool>, callsBefore: seq<seq<Entry>>, calls: seq<seq<Entry>>)
    requires RowsKnown(companies, rows) && i <= next <= |rows|
    requires Progress(companies, rows, i, now, revoked, before, callsBefore)
    requires AgreesOutside(before, result, Ids(companies, rows[i..next]))
    requires forall p | 0 <= p < next - i :: Settled(companies, result, rows[i..next][p], now, revoked)
    requires Flatten(calls) == Flatten(callsBefore) + ToCheck(companies, rows[i..next], now)
    ensures Progress(companies, rows, next, now, revoked, result, calls)
  {
    hide RowsKnown, Settled, AgreesOutside, Ids;
    SliceKnown(companies, rows, i, next);
    assert rows[..next] == rows[..i] + rows[i..next];
    ToCheckSplits(companies, rows[..i], rows[i..next], now);
    StillSettled(companies, rows, i, next, now, revoked, before, result);
  }

  /** The loop over the rows in slices of fifty. */
  method VerifyRows(companies: map<Id, string>, rows: seq<Cert>, now: int, revoked: Entry -> bool,
      reply: seq<Entry> -> map<string, bool>)
    returns (result: map<string, bool>, calls: seq<seq<Entry>>)
    requires RowsKnown(companies, rows)
    requires AnswersPointwise(reply, revoked)
    ensures Progress(companies, rows, |rows|, now, revoked, result, calls)
    ensures forall b | b in calls :: 0 < |b| <= BATCH_SIZE
  {
    hide Progress, Settled, AgreesOutside, IsPointwise, Ids, ToCheck;
    result, calls := map[], [];
    NoProgress(companies, rows, now, revoked);
    var i := 0;
    while i < |rows|
      invariant 0 <= i <= |rows|
      invariant Progress(companies, rows, i, now, revoked, result, calls)
      invariant forall b | b in calls :: 0 < |b| <= BATCH_SIZE
    {
      var next := if i + BATCH_SIZE <= |rows| then i + BATCH_SIZE else |rows|;
      SliceKnown(companies, rows, i, next);
      ghost var before, callsBefore := result, calls;
      result, calls := VerifyBatch(companies, rows[i..next], now, revoked, reply, result, calls);
      BatchProgresses(companies, rows, i, next, now, revoked, before, result, callsBefore, calls);
      i := next;
    }
  }

  lemma NoProgress(companies: map<Id, string>, rows: seq<Cert>, now: int, revoked: Entry -> bool)
    requires forall c | c in rows :: c.companyId in companies
    ensures Progress(companies, rows, 0, now, revoked, map[], [])
  {
  }

  /** A later batch is about other companies, so it leaves earlier verdicts alone. */
  lemma StillSettled(companies: map<Id, string>, rows: seq<Cert>, i: nat, next: nat, now: int, revoked: Entry -> bool,
      before: map<string, bool>, result: map<string, bool>)
    requires RowsKnown(companies, rows) && i <= next <= |rows|
    requires forall p | 0 <= p < i :: Settled(companies, before, rows[p], now, revoked)
    requires before.Keys <= Ids(companies, rows[..i])
    requires AgreesOutside(before, result, Ids(companies, rows[i..next]))
    requires forall p | 0 <= p < next - i :: Settled(companies, result, rows[i..next][p], now, revoked)
    ensures forall p | 0 <= p < next :: Settled(companies, result, rows[p], now, revoked)
    ensures result.Keys <= Ids(companies, rows[..next])
  {
    forall p | 0 <= p < i ensures Settled(companies, result, rows[p], now, revoked) {
      EarlierIdIsOutside(companies, rows, i, next, p);
    }
    assert forall p | i <= p < next :: rows[p] == rows[i..next][p - i];
    assert rows[..next] == rows[..i] + rows[i..next];
  }

  lemma EarlierIdIsOutside(companies: map<Id, string>, rows: seq<Cert>, i: nat, next: nat, p: nat)
    requires RowsKnown(companies, rows) && p < i <= next <= |rows|
    requires forall c | c in rows[i..next] :: c.companyId in companies
    ensures companies[rows[p].companyId] !in Ids(companies, rows[i..next])
  {
    forall c | c in rows[i..next] ensures companies[c.companyId] != companies[rows[p].companyId] {
      var q :| i <= q < next && rows[q] == c;
    }
  }

  /** The queried companies: those a listed id names. */
  function Queried(companies: map<Id, string>, ids: seq<string>): set<Id> {
    set k | k in companies && companies[k] in ids
  }

  lemma RowsNeedCompanies(companies: map<Id, string>, queried: set<Id>, certs: set<Cert>, rows: seq<Cert>)
    requires IsDistinctOn(companies, queried, certs, rows)
    ensures rows != [] ==> queried != {}
  {
    if rows != [] {
      assert rows[0].companyId in queried;
    }
  }

  predicate AnsweredAs(result: map<string, bool>, id: string, answer: bool) {
    id in result && result[id] == answer
  }

  /**
   What is asked, all batches together: about each row that has a file and has
   not expired, and about nothing else.
   */
  lemma {:induction false} AskedExactly(companies: map<Id, string>, rows: seq<Cert>, now: int, e: Entry)
    requires forall c | c in rows :: c.companyId in companies
    ensures e in ToCheck(companies, rows, now) <==>
      exists p :: && 0 <= p < |rows| && rows[p].fileId != "" && e == Entry(companies[rows[p].companyId], rows[p].fileId)
                  && now <= (match rows[p].expiry case None => 0 case Some(date) => date)
  {
    if e in ToCheck(companies, rows, now) {
      var c :| c in rows && NeedsIcid(c, now) && e == EntryOf(companies, c);
      var p :| 0 <= p < |rows| && rows[p] == c;
      VerdictExactly(rows[p], "", now, _ => false);
    }
    if p :| && 0 <= p < |rows| && rows[p].fileId != "" && e == Entry(companies[rows[p].companyId], rows[p].fileId)
            && now <= (match rows[p].expiry case None => 0 case Some(date) => date) {
      VerdictExactly(rows[p], "", now, _ => false);
      ToCheckHas(companies, rows, now, p);
    }
  }

  lemma {:induction false} FlattenHas(calls: seq<seq<Entry>>, e: Entry)
    ensures e in Flatten(calls) <==> exists b :: b in calls && e in b
  {
    if calls == [] {
    } else {
      var init, last := calls[..|calls| - 1], calls[|calls| - 1];
      FlattenHas(init, e);
      assert calls == init + [last];
    }
  }

  method VerifyAllCompanyCertificate(
    companies: map<Id, string>, certs: set<Cert>, ids: seq<string>, rows: seq<Cert>, now: int,
    revoked: Entry -> bool, reply: seq<Entry> -> map<string, bool>)
    returns (r: Option<map<string, bool>>, calls: seq<seq<Entry>>)
    requires forall k, l | k in companies && l in companies && companies[k] == companies[l] :: k == l
    requires IsDistinctOn(companies, Queried(companies, ids), certs, rows)
    requires AnswersPointwise(reply, revoked)
    ensures r.None? <==> forall id | id in ids :: id !in companies.Values
    ensures r.Some? ==> forall p | 0 <= p < |rows| :: AnsweredAs(r.value, companies[rows[p].companyId],
        IsValid(rows[p].expiry, rows[p].fileId, companies[rows[p].companyId], now, revoked))
    ensures r.Some? ==> forall id | id in r.value && r.value[id] ::
              exists p :: 0 <= p < |rows| && companies[rows[p].companyId] == id
    ensures r.Some? ==> forall p | 0 <= p < |rows| :: Settled(companies, r.value, rows[p], now, revoked)
    ensures r.Some? ==> forall id | id in r.value && r.value[id] :: id in Ids(companies, rows)
    ensures Flatten(calls) == ToCheck(companies, rows, now)
    ensures forall b | b in calls :: 0 < |b| <= 50
  {
    forall p | 0 <= p < |rows| ensures Verdict(Some(rows[p]), companies[rows[p].companyId], now, revoked) <==>
        IsValid(rows[p].expiry, rows[p].fileId, companies[rows[p].companyId], now, revoked) {
      VerdictExactly(rows[p], companies[rows[p].companyId], now, revoked);
    }
    hide Verdict, IsValid;
    var companyData := Queried(companies, ids);
    RowsNeedCompanies(companies, companyData, certs, rows);
    calls := [];
    if companyData == {} {
      assert forall k | k in companies && companies[k] in ids :: k in Queried(companies, ids);
      return None, [];
    }
    var k :| k in companyData;
    assert companies[k] in companies.Values;
    if rows == [] {
      return Some(map id | id in ids :: false), [];
    }
    var result;
    result, calls := VerifyRows(companies, rows, now, revoked, reply);
    r := Some(result);
    assert rows[..|rows|] == rows;
  }

  /** `result[id] ?? false`, as getAllCompanies reads the batched answer. */
  function Read(result: map<string, bool>, id: string): bool {
    id in result && result[id]
  }

  /** The row the single query lists first, when both queries break ties alike. */
  ghost predicate SameTieBreak(rows: seq<Cert>, first: map<Id, Cert>) {
    forall i | 0 <= i < |rows| && rows[i].companyId in first :: first[rows[i].companyId] == rows[i]
  }

  /**
   The batched check is the single check: for every listed id that names a
   company, what getAllCompanies reads from the batched result is what the
   single check answers.
   */
  method BatchedEqualsSingle(
    companies: map<Id, string>, certs: set<Cert>, ids: seq<string>, rows: seq<Cert>, first: map<Id, Cert>, now: int,
    revoked: Entry -> bool, reply: seq<Entry> -> map<string, bool>, k: Id)
    returns (batched: Option<map<string, bool>>, single: Option<bool>)
    requires forall k, l | k in companies && l in companies && companies[k] == companies[l] :: k == l
    requires IsDistinctOn(companies, Queried(companies, ids), certs, rows)
    requires forall k | k in companies :: if k in first then IsLatest(certs, k, first[k]) else !HasCert(certs, k)
    requires SameTieBreak(rows, first)
    requires AnswersPointwise(reply, revoked)
    requires k in companies && companies[k] in ids
    ensures batched.Some? && single == Some(Read(batched.value, companies[k]))
  {
    var calls;
    batched, calls := VerifyAllCompanyCertificate(companies, certs, ids, rows, now, revoked, reply);
    single := VerifyCompanyCertificate(companies, certs, companies[k], first, now, revoked);
    assert k in Queried(companies, ids);
    if k in first {
      var i :| 0 <= i < |rows| && rows[i].companyId == k;
      assert Settled(companies, batched.value, rows[i], now, revoked);
    } else {
      assert companies[k] !in Ids(companies, rows);
    }
  }
}
