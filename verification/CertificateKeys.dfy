/**
 Models the endpoints of backend/src/endpoints/certificate/certificate.service.ts
 that create, reveal and delete the private key of a company's certificate:
 whom they let through, and that the key revealed is the one that was stored.
 */
module CertificateKeys {
  import opened Wrappers
  import opened Tables
  import opened AccessControl
  import opened AccessLaws
  import opened RegistryInvariants
  import opened PrivateKeys
  import Certificates

  /** The columns of `certificates` these endpoints read or write. */
  datatype KeyRow = KeyRow(companyId: Id, expiry: Option<int>, created: Option<int>, privateKey: string)

  // ----- the latest certificate -----

  function AsCert(row: KeyRow): Certificates.Cert {
    Certificates.Cert(row.companyId, row.expiry, row.created, "")
  }

  /** In the order of the checks of certificates. */
  predicate Sooner(x: KeyRow, y: KeyRow) {
    Certificates.Sooner(AsCert(x), AsCert(y))
  }

  /** A row the ordered query may list first; rows that tie may come in any order. */
  predicate ListedFirst(rows: map<Id, KeyRow>, companyId: Id, id: Id) {
    && id in rows && rows[id].companyId == companyId
    && forall o | o in rows && rows[o].companyId == companyId :: !Sooner(rows[o], rows[id])
  }

  /** No other certificate of the company expires later, and of those that expire then none was created later. */
  lemma ListedFirstExactly(rows: map<Id, KeyRow>, companyId: Id, id: Id)
    ensures ListedFirst(rows, companyId, id) <==>
      && id in rows && rows[id].companyId == companyId
      && forall o | o in rows && rows[o].companyId == companyId ::
           && Certificates.ListedNoLater(rows[id].expiry, rows[o].expiry)
           && (rows[id].expiry == rows[o].expiry ==> Certificates.ListedNoLater(rows[id].created, rows[o].created))
  {
  }

  predicate IsLatest(rows: map<Id, KeyRow>, companyId: Id, latest: Option<Id>) {
    match latest
    case None => forall id | id in rows :: rows[id].companyId != companyId
    case Some(id) => ListedFirst(rows, companyId, id)
  }

  /** Some certificate comes first, if the company has any. */
  lemma {:induction false} FirstExists(rows: map<Id, KeyRow>, companyId: Id, some: set<Id>) returns (first: Id)
    requires some != {} && forall id | id in some :: id in rows && rows[id].companyId == companyId
    ensures first in some && forall o | o in some :: !Sooner(rows[o], rows[first])
    decreases some
  {
    var id :| id in some;
    if some == {id} {
      first := id;
    } else {
      assert some - {id} != {};
      var other := FirstExists(rows, companyId, some - {id});
      first := if Sooner(rows[id], rows[other]) then id else other;
      assert forall o | o in some :: o == id || o in some - {id};
    }
  }

  lemma LatestExists(rows: map<Id, KeyRow>, companyId: Id, id: Id)
    requires id in rows && rows[id].companyId == companyId
    ensures exists first :: ListedFirst(rows, companyId, first)
  {
    var own := set o | o in rows && rows[o].companyId == companyId;
    assert id in own;
    var first := FirstExists(rows, companyId, own);
    assert forall o | o in rows && rows[o].companyId == companyId :: o in own;
    assert ListedFirst(rows, companyId, first);
  }

  /** A certificate that comes before every other of its company is the one that is revealed. */
  lemma NewestIsLatest(rows: map<Id, KeyRow>, companyId: Id, newest: Id, latest: Option<Id>)
    requires newest in rows && rows[newest].companyId == companyId && IsLatest(rows, companyId, latest)
    requires forall o | o in rows && o != newest && rows[o].companyId == companyId :: Sooner(rows[newest], rows[o])
    ensures latest == Some(newest)
  {
  }

  // ----- who is let through -----

  /** assertCompanyMatch, assertPermission, and the company itself. */
  ghost function Checked(db: Tables, c: Claims, ifricId: string, right: Right): Result<Id> {
    if !Authorised(db, c, ifricId, right) then Err(Error.Forbidden)
    else match FindCompany(db, ifricId) case None => Err(NoCompany) case Some(k) => Ok(k)
  }

  /** Refused unless the token names the company and the caller holds the right; then answered by the company row. */
  lemma CheckedExactly(db: Tables, c: Claims, ifricId: string, right: Right)
    ensures Checked(db, c, ifricId, right) == Err(Error.Forbidden) <==> !MayAct(db, c, ifricId, right)
    ensures forall k :: Checked(db, c, ifricId, right) == Ok(k) ==>
              MayAct(db, c, ifricId, right) && k in db.companies && db.companies[k].ifricId == ifricId
    ensures Checked(db, c, ifricId, right) == Err(NoCompany) <==>
      MayAct(db, c, ifricId, right) && forall k | k in db.companies :: db.companies[k].ifricId != ifricId
  {
    AuthorisedExactly(db, c, ifricId, right);
    hide Authorised, MayAct;
  }

  method Check(db: Tables, c: Claims, ifricId: string, right: Right) returns (r: Result<Id>)
    requires UniqueCompanies(db.companies)
    ensures r == Checked(db, c, ifricId, right)
  {
    if !Authorised(db, c, ifricId, right) {
      r := Err(Error.Forbidden);
    } else if k :| k in db.companies && db.companies[k].ifricId == ifricId {
      r := Ok(k);
    } else {
      r := Err(NoCompany);
    }
  }

  // ----- the stored keys -----

  /** A stored key stands for a plain one: '' for a deleted key, any other text for what it decrypts to. */
  ghost predicate StandsFor(crypto: Crypto, stored: string, plain: Option<string>) {
    if stored == "" then plain == None
    else plain.Some? && DecryptPrivateKey(crypto, stored) == Ok(plain.value)
  }

  class KeyTable {
    var rows: map<Id, KeyRow>
    const crypto: Crypto

    /** The keys as their owners know them: None once deleted. */
    ghost var plain: map<Id, Option<string>>

    ghost predicate Valid()
      reads this
    {
      && Sound(crypto) && rows.Keys == plain.Keys
      && forall id | id in rows :: StandsFor(crypto, rows[id].privateKey, plain[id])
    }

    constructor (crypto: Crypto)
      requires Sound(crypto)
      ensures Valid() && rows == map[] && plain == map[] && this.crypto == crypto
    {
      this.crypto := crypto;
      rows := map[];
      plain := map[];
    }

    /** find(...)[0]. */
    method Latest(companyId: Id) returns (latest: Option<Id>)
      ensures IsLatest(rows, companyId, latest)
    {
      if id :| id in rows && ListedFirst(rows, companyId, id) {
        latest := Some(id);
      } else {
        latest := None;
        forall id | id in rows ensures rows[id].companyId != companyId {
          if rows[id].companyId == companyId { LatestExists(rows, companyId, id); }
        }
      }
    }

    /**
     generateCompanyCertificate: ICID answers with a key pair or throws, the user
     is looked up after that, and nothing is stored unless all went well.
     */
    method Generate(
      db: Tables, c: Claims, ifricId: string, icidKey: Option<string>, userEmail: string, expiry: int, now: int, id: Id,
      iv: Bytes)
      returns (r: Result<()>)
      requires Valid() && UniqueCompanies(db.companies) && id !in rows && |iv| == IV_LENGTH
      requires icidKey.Some? ==> Encodes(crypto, icidKey.value)
      modifies this
      ensures Valid()
      ensures r == if Checked(db, c, ifricId, Create).Err? then Err(Checked(db, c, ifricId, Create).error)
                   else if icidKey.None? then Err(IcidFailed)
                   else if !EmailTaken(db.users, userEmail) then Err(NoUser)
                   else if crypto.keyBytes.None? then Err(NotConfigured)
                   else if |crypto.keyBytes.value| != KEY_LENGTH then Err(Malformed)
                   else Ok(())
      ensures r.Err? ==> rows == old(rows) && plain == old(plain)
      ensures r.Ok? ==>
        && plain == old(plain)[id := icidKey]
        && id in rows && rows == old(rows)[id := rows[id]]
        && rows[id].(privateKey := "") == KeyRow(Checked(db, c, ifricId, Create).value, Some(expiry), Some(now), "")
    {
      var checked := Check(db, c, ifricId, Create);
      if checked.Err? { return Err(checked.error); }
      if icidKey.None? { return Err(IcidFailed); }
      if !EmailTaken(db.users, userEmail) { return Err(NoUser); }
      var encrypted := EncryptPrivateKey(crypto, icidKey.value, iv);
      if encrypted.Err? { return Err(encrypted.error); }
      DecryptUndoesEncrypt(crypto, icidKey.value, iv);
      rows := rows[id := KeyRow(checked.value, Some(expiry), Some(now), encrypted.value)];
      plain := plain[id := icidKey];
      r := Ok(());
    }

    /** revealPrivateKey: the plain key of the company's latest certificate, any number of times, to nobody else. */
    method Reveal(db: Tables, c: Claims, ifricId: string) returns (r: Result<string>, ghost latest: Option<Id>)
      requires Valid() && UniqueCompanies(db.companies)
      ensures Checked(db, c, ifricId, Read).Err? ==> r == Err(Checked(db, c, ifricId, Read).error)
      ensures Checked(db, c, ifricId, Read).Ok? ==>
        && IsLatest(rows, Checked(db, c, ifricId, Read).value, latest)
        && r == if latest.None? then Err(NoCertificate)
                else match plain[latest.value] case None => Err(AlreadyRevealed) case Some(key) => Ok(key)
    {
      latest := None;
      var checked := Check(db, c, ifricId, Read);
      if checked.Err? { return Err(checked.error), None; }
      var record := Latest(checked.value);
      latest := record;
      if record.None? { return Err(NoCertificate), latest; }
      assert StandsFor(crypto, rows[record.value].privateKey, plain[record.value]);
      if rows[record.value].privateKey == "" { return Err(AlreadyRevealed), latest; }
      r := DecryptPrivateKey(crypto, rows[record.value].privateKey);
    }

    /** deletePrivateKey: blanks the key of the latest certificate only. */
    method DeletePrivateKey(db: Tables, c: Claims, ifricId: string) returns (r: Result<()>, ghost latest: Option<Id>)
      requires Valid() && UniqueCompanies(db.companies)
      modifies this
      ensures Valid()
      ensures r == if Checked(db, c, ifricId, Delete).Err? then Err(Checked(db, c, ifricId, Delete).error)
                   else if latest.None? then Err(NoCertificate) else Ok(())
      ensures Checked(db, c, ifricId, Delete).Ok? ==> IsLatest(old(rows), Checked(db, c, ifricId, Delete).value, latest)
      ensures r.Err? ==> rows == old(rows) && plain == old(plain)
      ensures r.Ok? ==>
        && plain == old(plain)[latest.value := None]
        && rows == old(rows)[latest.value := old(rows)[latest.value].(privateKey := "")]
    {
      latest := None;
      var checked := Check(db, c, ifricId, Delete);
      if checked.Err? { return Err(checked.error), None; }
      var record := Latest(checked.value);
      latest := record;
      if record.None? { return Err(NoCertificate), latest; }
      rows := rows[record.value := rows[record.value].(privateKey := "")];
      plain := plain[record.value := None];
      r := Ok(());
    }
  }
}
