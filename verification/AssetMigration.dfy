/**
 Models backend/src/migrations/1785000000000-MergeAssetsRetireProductRbac.ts:
 one grant per user is kept, and company_assets and company_twins are merged
 into assets, with `down` going back as far as it can.

 A table maps `_id` to the rest of the row; a nullable column is an Option, and
 two NULLs never violate a unique constraint. A statement that violates one
 fails the migration, which runs in a transaction.
 */
module AssetMigration {
  import opened Wrappers

  /** A char(24) `_id`, in its order. */
  type RowId = nat

  datatype ProductGrant = ProductGrant(userId: Option<RowId>, product: Option<string>, groupId: Option<RowId>)
  datatype RoleGrant = RoleGrant(userId: Option<RowId>, groupId: Option<RowId>)

  /** (company_id, asset_ifric_id) in company_assets, (manufacturer_company_id, asset_ifric_id) in company_twins. */
  datatype Key = Key(companyId: Option<RowId>, urn: Option<string>)

  datatype Physical = Physical(key: Key)
  datatype Twin = Twin(key: Key, owner: Option<RowId>, factoryId: Option<string>)
  datatype Asset = Asset(key: Key, owner: Option<RowId>, factoryId: Option<string>, isTwin: bool)

  /** Equal under a unique constraint: no column is NULL. */
  predicate Clash(k: Key, l: Key) {
    k == l && k.companyId.Some? && k.urn.Some?
  }

  // ----- one grant per user -----

  /** The self-join DELETE: a row goes if some row of the same user has a lower `_id`. */
  function Deduplicated(rows: map<RowId, ProductGrant>): map<RowId, ProductGrant> {
    map a | a in rows && !(exists b ::
        b in rows && a > b && rows[a].userId.Some? && rows[b].userId == rows[a].userId) :: rows[a]
  }

  lemma {:induction false} LowestOf(ids: set<RowId>) returns (least: RowId)
    requires ids != {}
    ensures least in ids && forall i | i in ids :: least <= i
    decreases ids
  {
    var some :| some in ids;
    if ids == {some} {
      least := some;
    } else {
      assert ids - {some} != {};
      var other := LowestOf(ids - {some});
      least := if some < other then some else other;
      assert forall i | i in ids :: i == some || i in ids - {some};
    }
  }

  /** What survives is exactly the lowest row of each user, with its columns, and every row without a user. */
  lemma LowestGrantSurvives(rows: map<RowId, ProductGrant>)
    ensures forall a :: a in Deduplicated(rows) <==>
      a in rows && (rows[a].userId.None? || forall b | b in rows && rows[b].userId == rows[a].userId :: a <= b)
    ensures forall a | a in Deduplicated(rows) :: Deduplicated(rows)[a] == rows[a]
  {
  }

  /** So each user that had a grant has exactly one, and the new unique constraint can be added. */
  lemma OneGrantPerUser(rows: map<RowId, ProductGrant>, user: RowId)
    requires exists a :: a in rows && rows[a].userId == Some(user)
    ensures exists a :: a in Deduplicated(rows) && rows[a].userId == Some(user)
    ensures forall a, b | a in Deduplicated(rows) && b in Deduplicated(rows)
        && rows[a].userId == rows[b].userId == Some(user) :: a == b
  {
    var mine := set a | a in rows && rows[a].userId == Some(user);
    var one :| one in rows && rows[one].userId == Some(user);
    assert one in mine;
    var least := LowestOf(mine);
    assert forall b | b in rows && rows[b].userId == Some(user) :: b in mine;
    LowestGrantSurvives(rows);
  }

  // ----- the merge, row by row -----

  function FromPhysical(a: map<RowId, Physical>): map<RowId, Asset> {
    map id | id in a :: Asset(a[id].key, None, None, false)
  }

  ghost predicate UniqueKeys(assets: map<RowId, Asset>) {
    forall i, j | i in assets && j in assets && i != j :: !Clash(assets[i].key, assets[j].key)
  }

  predicate UniquePhysical(a: map<RowId, Physical>) {
    forall i, j | i in a && j in a && i != j :: !Clash(a[i].key, a[j].key)
  }

  ghost predicate UniqueTwins(t: map<RowId, Twin>) {
    forall i, j | i in t && j in t && i != j :: !Clash(t[i].key, t[j].key)
  }

  function Overlaid(row: Asset, t: Twin): Asset {
    row.(owner := t.owner, factoryId := t.factoryId, isTwin := true)
  }

  function FromTwin(t: Twin): Asset {
    Asset(t.key, t.owner, t.factoryId, true)
  }

  /** A scan lists every row once. */
  ghost predicate IsScan(t: map<RowId, Twin>, scan: seq<RowId>) {
    && (forall id :: id in scan <==> id in t)
    && forall i, j | 0 <= i < j < |scan| :: scan[i] != scan[j]
  }

  // ----- the merge as a whole -----

  ghost predicate HasTwin(a: map<RowId, Physical>, t: map<RowId, Twin>, id: RowId)
    requires id in a
  {
    exists x :: x in t && Clash(a[id].key, t[x].key)
  }

  ghost predicate HasPhysical(a: map<RowId, Physical>, t: map<RowId, Twin>, x: RowId)
    requires x in t
  {
    exists id :: id in a && Clash(a[id].key, t[x].key)
  }

  /** The merged table: physical rows, overlaid with their twin if there is one, and the remaining twins. */
  ghost predicate IsMerge(a: map<RowId, Physical>, t: map<RowId, Twin>, assets: map<RowId, Asset>) {
    && HasMergedRows(a, t, assets)
    && (forall id | id in a && !HasTwin(a, t, id) :: assets[id] == Asset(a[id].key, None, None, false))
    && TwinsOverlaid(a, t, assets)
    && (forall x | x in t && !HasPhysical(a, t, x) :: assets[x] == FromTwin(t[x]))
  }

  ghost predicate HasMergedRows(a: map<RowId, Physical>, t: map<RowId, Twin>, assets: map<RowId, Asset>) {
    forall id :: id in assets <==> id in a || (id in t && !HasPhysical(a, t, id))
  }

  ghost predicate TwinsOverlaid(a: map<RowId, Physical>, t: map<RowId, Twin>, assets: map<RowId, Asset>) {
    forall id, x | id in a && x in t && Clash(a[id].key, t[x].key) :: id in assets && assets[id] == FromTwin(t[x])
  }

  /**
   Nothing makes a statement fail: physical keys are unique, and a twin that
   becomes a row of its own has an id of its own.
   */
  ghost predicate CanMerge(a: map<RowId, Physical>, t: map<RowId, Twin>) {
    && UniquePhysical(a)
    && forall x | x in t && !HasPhysical(a, t, x) :: x !in a
  }

  function Take(t: map<RowId, Twin>, ids: seq<RowId>): map<RowId, Twin>
    requires forall id | id in ids :: id in t
  {
    map id | id in ids :: t[id]
  }

  lemma KeysOfMerge(a: map<RowId, Physical>, t: map<RowId, Twin>, assets: map<RowId, Asset>, row: RowId)
    requires IsMerge(a, t, assets) && row in assets
    ensures if row in a then assets[row].key == a[row].key else row in t && assets[row].key == t[row].key
  {
    if row in a && HasTwin(a, t, row) {
      var x :| x in t && Clash(a[row].key, t[x].key);
    }
  }

  /** The new twin's key is that of a physical row: that row, and no other, takes the twin's fields. */
  lemma OverlaidTable(a: map<RowId, Physical>, t: map<RowId, Twin>, assets: map<RowId, Asset>, x: RowId, twin: Twin,
      id: RowId)
    requires x !in t && IsMerge(a, t, assets) && id in a && Clash(a[id].key, twin.key)
    requires forall i | i in a && i != id :: !Clash(a[i].key, twin.key)
    requires forall y | y in t :: !Clash(a[id].key, t[y].key)
    ensures IsMerge(a, t[x := twin], assets[id := FromTwin(twin)])
  {
    var t', merged := t[x := twin], assets[id := FromTwin(twin)];
    TwinsGrow(a, t, x, twin);
    OverlaidTwins(a, t, assets, x, twin, id);
    assert HasMergedRows(a, t', merged);
    assert !HasTwin(a, t, id) && HasPhysical(a, t', x);
    hide HasTwin, HasPhysical, Clash, TwinsOverlaid;
  }

  lemma OverlaidTwins(a: map<RowId, Physical>, t: map<RowId, Twin>, assets: map<RowId, Asset>, x: RowId, twin: Twin,
      id: RowId)
    requires TwinsOverlaid(a, t, assets) && id in a
    requires forall i | i in a && i != id :: !Clash(a[i].key, twin.key)
    requires forall y | y in t :: !Clash(a[id].key, t[y].key)
    ensures TwinsOverlaid(a, t[x := twin], assets[id := FromTwin(twin)])
  {
    hide Clash;
  }

  lemma TwinsGrow(a: map<RowId, Physical>, t: map<RowId, Twin>, x: RowId, twin: Twin)
    requires x !in t
    ensures var t' := t[x := twin];
      && (HasPhysical(a, t', x) <==> exists i :: i in a && Clash(a[i].key, twin.key))
      && (forall y | y in t :: HasPhysical(a, t', y) <==> HasPhysical(a, t, y))
      && (forall i | i in a :: HasTwin(a, t', i) <==> HasTwin(a, t, i) || Clash(a[i].key, twin.key))
  {
    var t' := t[x := twin];
    assert t'[x] == twin;
    forall y | y in t ensures HasPhysical(a, t', y) <==> HasPhysical(a, t, y) { assert t'[y] == t[y]; }
    forall i | i in a ensures HasTwin(a, t', i) <==> HasTwin(a, t, i) || Clash(a[i].key, twin.key) {
      assert forall y | y in t :: t'[y] == t[y];
    }
  }

  /** The new twin's key is new: it becomes a row of its own. */
  lemma NewTable(a: map<RowId, Physical>, t: map<RowId, Twin>, assets: map<RowId, Asset>, x: RowId, twin: Twin)
    requires x !in t && x !in a && IsMerge(a, t, assets)
    requires forall i | i in a :: !Clash(a[i].key, twin.key)
    ensures IsMerge(a, t[x := twin], assets[x := FromTwin(twin)])
  {
    TwinsGrow(a, t, x, twin);
    hide HasTwin, HasPhysical;
  }

  lemma CanMergeGrows(a: map<RowId, Physical>, t: map<RowId, Twin>, x: RowId, twin: Twin)
    requires x !in t
    ensures CanMerge(a, t[x := twin]) <==> CanMerge(a, t) && (Shared(a, twin) || x !in a)
  {
    TwinsGrow(a, t, x, twin);
  }

  // ----- how many rows, and which keys -----

  lemma RowsOfMerge(a: map<RowId, Physical>, t: map<RowId, Twin>, assets: map<RowId, Asset>)
      returns (own: set<RowId>, shared: set<RowId>)
    requires CanMerge(a, t) && IsMerge(a, t, assets)
    ensures shared == set x | x in t && HasPhysical(a, t, x)
    ensures own + shared == t.Keys && own !! shared && assets.Keys == a.Keys + own && a.Keys !! own
  {
    shared := set x | x in t && HasPhysical(a, t, x);
    own := t.Keys - shared;
    hide HasPhysical, HasTwin, UniquePhysical;
  }

  /** The row count: both tables together, less the keys they share. */
  lemma SizeOfMerge(a: map<RowId, Physical>, t: map<RowId, Twin>, assets: map<RowId, Asset>)
    requires CanMerge(a, t) && IsMerge(a, t, assets)
    ensures |assets| == |a| + |t| - |set x | x in t && HasPhysical(a, t, x)|
  {
    var own, shared := RowsOfMerge(a, t, assets);
    hide IsMerge, CanMerge, HasPhysical;
    assert |own + shared| == |own| + |shared|;
    assert |assets.Keys| == |a.Keys| + |own|;
  }

  /** One row per (company, URN) key that occurs in either source table, and no two rows with the same key. */
  lemma MergeHasOneRowPerKey(a: map<RowId, Physical>, t: map<RowId, Twin>, assets: map<RowId, Asset>, key: Key)
    requires UniquePhysical(a) && UniqueTwins(t) && CanMerge(a, t) && IsMerge(a, t, assets) && Clash(key, key)
    ensures UniqueKeys(assets)
    ensures (exists r :: r in assets && assets[r].key == key) <==>
      (exists i :: i in a && a[i].key == key) || (exists x :: x in t && t[x].key == key)
  {
    forall r | r in assets
        ensures if r in a then assets[r].key == a[r].key
        else r in t && assets[r].key == t[r].key && !HasPhysical(a, t, r) {
      KeysOfMerge(a, t, assets, r);
    }
    forall x | x in t && t[x].key == key ensures exists r :: r in assets && assets[r].key == key {
      if HasPhysical(a, t, x) {
        var i :| i in a && Clash(a[i].key, t[x].key);
        assert assets[i].key == key;
      } else {
        assert assets[x].key == key;
      }
    }
  }

  // ----- the merge, column by column -----

  /** Where both columns of a key are set, and the migration can be done, what becomes of each source row. */
  lemma MergeOnColumns(a: map<RowId, Physical>, t: map<RowId, Twin>, assets: map<RowId, Asset>)
    requires IsMerge(a, t, assets)
    ensures forall i, x | i in a && x in t && a[i].key == t[x].key && a[i].key.companyId != None
        && a[i].key.urn != None ::
              i in assets && assets[i] == Asset(a[i].key, t[x].owner, t[x].factoryId, true)
    ensures forall i | i in a
        && (forall x | x in t && a[i].key == t[x].key :: a[i].key.companyId == None || a[i].key.urn == None) ::
              i in assets && assets[i] == Asset(a[i].key, None, None, false)
    ensures forall x | x in t
        && (forall i | i in a && a[i].key == t[x].key :: a[i].key.companyId == None || a[i].key.urn == None) ::
              x in assets && assets[x] == Asset(t[x].key, t[x].owner, t[x].factoryId, true)
    ensures forall id | id in assets :: id in a || id in t
  {
  }

  /** Both columns are set and equal. */
  predicate SameAsset(k: Key, l: Key) {
    k.companyId != None && k.urn != None && k.companyId == l.companyId && k.urn == l.urn
  }

  /** It can be done unless two physical rows are of the same asset, or a twin without one has the id of another. */
  lemma CanMergeOnColumns(a: map<RowId, Physical>, t: map<RowId, Twin>)
    ensures CanMerge(a, t) <==>
      && (forall i, j | i in a && j in a && SameAsset(a[i].key, a[j].key) :: i == j)
      && forall x | x in t && x in a :: exists i :: i in a && SameAsset(a[i].key, t[x].key)
  {
    assert forall k, l :: Clash(k, l) <==> SameAsset(k, l);
    hide Clash, SameAsset;
  }

  /** What `down` writes, from which rows. */
  lemma SplitOnColumns(assets: map<RowId, Asset>, r: RowId)
    ensures r in SplitPhysical(assets) <==> r in assets && !assets[r].isTwin
    ensures r in SplitTwins(assets) <==> r in assets && assets[r].isTwin
    ensures r in SplitPhysical(assets) ==> SplitPhysical(assets)[r].key == assets[r].key
    ensures r in SplitTwins(assets) ==>
              && SplitTwins(assets)[r].key == assets[r].key && SplitTwins(assets)[r].owner == assets[r].owner
              && SplitTwins(assets)[r].factoryId == assets[r].factoryId
  {
  }

  /** Dropping and adding the product column keeps user and role. */
  lemma RolesOnColumns(rows: map<RowId, ProductGrant>, roles: map<RowId, RoleGrant>)
    ensures RolesOf(rows).Keys == rows.Keys && WithoutProduct(roles).Keys == roles.Keys
    ensures forall g | g in rows ::
        RolesOf(rows)[g].userId == rows[g].userId && RolesOf(rows)[g].groupId == rows[g].groupId
    ensures forall g | g in roles ::
              && WithoutProduct(roles)[g].userId == roles[g].userId
                  && WithoutProduct(roles)[g].groupId == roles[g].groupId
              && WithoutProduct(roles)[g].product == None
  {
  }

  // ----- the way back -----

  /** What `down` writes to company_assets and company_twins. */
  function SplitPhysical(assets: map<RowId, Asset>): map<RowId, Physical> {
    map r | r in assets && !assets[r].isTwin :: Physical(assets[r].key)
  }

  function SplitTwins(assets: map<RowId, Asset>): map<RowId, Twin> {
    map r | r in assets && assets[r].isTwin :: Twin(assets[r].key, assets[r].owner, assets[r].factoryId)
  }

  /**
   `up` after `down` always succeeds, and gives back the same table exactly
   when no row that is not a twin carries an owner or a factory.
   */
  lemma UpAfterDown(assets: map<RowId, Asset>, merged: map<RowId, Asset>)
    requires UniqueKeys(assets) && IsMerge(SplitPhysical(assets), SplitTwins(assets), merged)
    ensures UniqueTwins(SplitTwins(assets)) && CanMerge(SplitPhysical(assets), SplitTwins(assets))
    ensures merged == assets
        <==> forall i | i in assets && !assets[i].isTwin :: assets[i].owner.None? && assets[i].factoryId.None?
  {
    var a, t := SplitPhysical(assets), SplitTwins(assets);
    SplitIsMergeable(assets);
    assert forall i | i in a :: !HasTwin(a, t, i);
    hide HasTwin, HasPhysical, UniquePhysical, UniqueTwins, UniqueKeys;
    assert merged.Keys == assets.Keys;
    assert forall x | x in assets && assets[x].isTwin :: x in t && merged[x] == assets[x];
    assert forall i | i in assets && !assets[i].isTwin ::
        i in a && merged[i] == Asset(assets[i].key, None, None, false);
  }

  lemma SplitIsMergeable(assets: map<RowId, Asset>)
    requires UniqueKeys(assets)
    ensures var a, t := SplitPhysical(assets), SplitTwins(assets);
      && UniquePhysical(a) && UniqueTwins(t) && CanMerge(a, t) && forall x | x in t :: !HasPhysical(a, t, x)
  {
  }

  /** The row a twin is found in after the merge: its physical row's, or its own. */
  ghost function HomeOf(a: map<RowId, Physical>, t: map<RowId, Twin>, x: RowId): RowId
    requires x in t
  {
    if i :| i in a && Clash(a[i].key, t[x].key) then i else x
  }

  /**
   `down` after `up`: every twin comes back with its fields, under the `_id` of
   the physical row it was merged with if there was one; every physical row
   without a twin comes back as it was; and nothing else does.
   */
  lemma DownAfterUp(a: map<RowId, Physical>, t: map<RowId, Twin>, assets: map<RowId, Asset>)
    requires UniquePhysical(a) && UniqueTwins(t) && CanMerge(a, t) && IsMerge(a, t, assets)
    ensures forall x | x in t :: HomeOf(a, t, x) in SplitTwins(assets) && SplitTwins(assets)[HomeOf(a, t, x)] == t[x]
    ensures forall r | r in SplitTwins(assets) :: exists x :: x in t && r == HomeOf(a, t, x)
    ensures forall i :: i in SplitPhysical(assets) <==> i in a && !HasTwin(a, t, i)
    ensures forall i | i in SplitPhysical(assets) :: SplitPhysical(assets)[i] == a[i]
  {
    TwinsComeBack(a, t, assets);
    PhysicalComesBack(a, t, assets);
    hide HomeOf, SplitTwins, SplitPhysical, IsMerge, HasTwin;
  }

  lemma PhysicalComesBack(a: map<RowId, Physical>, t: map<RowId, Twin>, assets: map<RowId, Asset>)
    requires IsMerge(a, t, assets)
    ensures forall i :: i in SplitPhysical(assets) <==> i in a && !HasTwin(a, t, i)
    ensures forall i | i in SplitPhysical(assets) :: SplitPhysical(assets)[i] == a[i]
  {
    forall i | i in assets ensures assets[i].isTwin <==> !(i in a && !HasTwin(a, t, i)) {
      if i in a && HasTwin(a, t, i) {
        var x :| x in t && Clash(a[i].key, t[x].key);
        assert assets[i] == FromTwin(t[x]);
      }
    }
    hide HasTwin, HasPhysical;
  }

  lemma TwinsComeBack(a: map<RowId, Physical>, t: map<RowId, Twin>, assets: map<RowId, Asset>)
    requires UniquePhysical(a) && UniqueTwins(t) && CanMerge(a, t) && IsMerge(a, t, assets)
    ensures forall x | x in t :: HomeOf(a, t, x) in SplitTwins(assets) && SplitTwins(assets)[HomeOf(a, t, x)] == t[x]
    ensures forall r | r in SplitTwins(assets) :: exists x :: x in t && r == HomeOf(a, t, x)
  {
    forall x | x in t ensures HomeOf(a, t, x) in SplitTwins(assets) && SplitTwins(assets)[HomeOf(a, t, x)] == t[x] {
      assert FromTwin(t[x]).isTwin;
    }
    forall r | r in SplitTwins(assets) ensures exists x :: x in t && r == HomeOf(a, t, x) {
      if r in a {
        assert HasTwin(a, t, r);
        var x :| x in t && Clash(a[r].key, t[x].key);
        assert HomeOf(a, t, x) == r;
      } else {
        assert HomeOf(a, t, r) == r;
      }
    }
  }

  /** So the source tables themselves come back exactly when no key was in both. */
  lemma DownAfterUpIsIdentity(a: map<RowId, Physical>, t: map<RowId, Twin>, assets: map<RowId, Asset>)
    requires UniquePhysical(a) && UniqueTwins(t) && CanMerge(a, t) && IsMerge(a, t, assets)
    ensures SplitPhysical(assets) == a && SplitTwins(assets) == t <==> forall x | x in t :: !HasPhysical(a, t, x)
  {
    DownAfterUp(a, t, assets);
    hide IsMerge, CanMerge, UniquePhysical, UniqueTwins;
    if x :| x in t && HasPhysical(a, t, x) {
      var i :| i in a && Clash(a[i].key, t[x].key);
      assert HasTwin(a, t, i) && i !in SplitPhysical(assets);
    } else {
      HomesWithoutShares(a, t);
      hide SplitPhysical, SplitTwins, HomeOf, HasTwin, HasPhysical;
      assert forall r | r in SplitTwins(assets) :: r in t;
      assert SplitPhysical(assets) == a && SplitTwins(assets) == t;
    }
  }

  lemma HomesWithoutShares(a: map<RowId, Physical>, t: map<RowId, Twin>)
    requires forall x | x in t :: !HasPhysical(a, t, x)
    ensures forall x | x in t :: HomeOf(a, t, x) == x
    ensures forall i | i in a :: !HasTwin(a, t, i)
  {
  }

  // ----- the migration -----

  datatype CompanyProduct = CompanyProduct(product: Option<string>, companyId: Option<RowId>, billingId: Option<string>)

  /** The tables it reads and writes; a dropped table is empty. */
  class Database {
    var productGrants: map<RowId, ProductGrant>
    var roleGrants: map<RowId, RoleGrant>
    var companyProducts: map<RowId, CompanyProduct>
    var companyAssets: map<RowId, Physical>
    var companyTwins: map<RowId, Twin>
    var assets: map<RowId, Asset>

    /** The unique constraints of the tables that have one; company_assets has none. */
    ghost predicate Constrained()
      reads this
    {
      && UniqueProductGrants(productGrants) && UniqueRoles(roleGrants)
      && UniqueTwins(companyTwins) && UniqueKeys(assets)
    }

    constructor (
      productGrants: map<RowId, ProductGrant>, companyProducts: map<RowId, CompanyProduct>,
      companyAssets: map<RowId, Physical>, companyTwins: map<RowId, Twin>)
      requires UniqueProductGrants(productGrants) && UniqueTwins(companyTwins)
      ensures Constrained()
      ensures this.productGrants == productGrants && this.companyProducts == companyProducts
      ensures this.companyAssets == companyAssets && this.companyTwins == companyTwins
      ensures roleGrants == map[] && assets == map[]
    {
      this.productGrants, this.companyProducts := productGrants, companyProducts;
      this.companyAssets, this.companyTwins := companyAssets, companyTwins;
      roleGrants, assets := map[], map[];
    }

    /**
     Whether it can be done depends on company_assets, which has no constraint;
     where it fails, it changes nothing.
     */
    method Up(scan: seq<RowId>) returns (ok: bool)
      requires Constrained() && IsScan(companyTwins, scan)
      modifies this
      ensures Constrained()
      ensures ok <==> CanMerge(old(companyAssets), old(companyTwins))
      ensures ok ==>
        && IsMerge(old(companyAssets), old(companyTwins), assets)
        && roleGrants == RolesOf(Deduplicated(old(productGrants)))
        && productGrants == map[] && companyProducts == map[] && companyAssets == map[] && companyTwins == map[]
      ensures !ok ==>
        && productGrants == old(productGrants) && roleGrants == old(roleGrants)
        && companyProducts == old(companyProducts) && companyAssets == old(companyAssets)
        && companyTwins == old(companyTwins) && assets == old(assets)
    {
      hide IsMerge, CanMerge, UniqueKeys, UniqueTwins, UniqueRoles, Deduplicated, RolesOf;
      ok := false;
      var merged;
      if UniquePhysical(companyAssets) {
        ok, merged := InsertFromTwins(companyAssets, companyTwins, scan);
      } else {
        NoMergeWithoutUniqueKeys(companyAssets, companyTwins);
      }
      if ok {
        MergeIsConstrained(companyAssets, companyTwins, merged);
        RolesSurviveDownAndUp(productGrants, map[]);
        NoTwinsAreUnique();
        roleGrants, productGrants, companyProducts := RolesOf(Deduplicated(productGrants)), map[], map[];
        assets, companyAssets, companyTwins := merged, map[], map[];
      }
    }

    /** The tables take their old shapes again; what company_products held does not come back. */
    method Down()
      requires Constrained()
      modifies this
      ensures Constrained()
      ensures companyAssets == SplitPhysical(old(assets)) && companyTwins == SplitTwins(old(assets)) && assets == map[]
      ensures companyProducts == map[]
      ensures roleGrants == map[] && productGrants == WithoutProduct(old(roleGrants))
    {
      SplitIsMergeable(assets);
      companyAssets := SplitPhysical(assets);
      companyTwins := SplitTwins(assets);
      assets := map[];
      companyProducts := map[];
      productGrants := WithoutProduct(roleGrants);
      roleGrants := map[];
    }
  }

  lemma NoMergeWithoutUniqueKeys(a: map<RowId, Physical>, t: map<RowId, Twin>)
    requires !UniquePhysical(a)
    ensures !CanMerge(a, t)
  {
  }

  lemma NoTwinsAreUnique()
    ensures UniqueTwins(map[])
  {
  }

  /** The merged table satisfies the unique constraint it is created with. */
  lemma MergeIsConstrained(a: map<RowId, Physical>, t: map<RowId, Twin>, assets: map<RowId, Asset>)
    requires UniquePhysical(a) && UniqueTwins(t) && CanMerge(a, t) && IsMerge(a, t, assets)
    ensures UniqueKeys(assets)
  {
    MergeHasOneRowPerKey(a, t, assets, Key(Some(0), Some("")));
  }

  ghost predicate UniqueProductGrants(rows: map<RowId, ProductGrant>) {
    forall g, h | g in rows && h in rows && rows[g].userId.Some? && rows[g].product.Some?
                  && rows[g].userId == rows[h].userId && rows[g].product == rows[h].product :: g == h
  }

  // ----- the grants, there and back -----

  /** DROP COLUMN product_ifric_id. */
  function RolesOf(rows: map<RowId, ProductGrant>): map<RowId, RoleGrant> {
    map g | g in rows :: RoleGrant(rows[g].userId, rows[g].groupId)
  }

  /** ADD COLUMN product_ifric_id: NULL in every row. */
  function WithoutProduct(rows: map<RowId, RoleGrant>): map<RowId, ProductGrant> {
    map g | g in rows :: ProductGrant(rows[g].userId, None, rows[g].groupId)
  }

  /** The unique constraint `up` adds: no user has two roles. */
  ghost predicate UniqueRoles(rows: map<RowId, RoleGrant>) {
    forall g, h | g in rows && h in rows && rows[g].userId.Some? && rows[g].userId == rows[h].userId :: g == h
  }

  /** After `up` the constraint holds, and then `down` and another `up` change no role. */
  lemma RolesSurviveDownAndUp(rows: map<RowId, ProductGrant>, roles: map<RowId, RoleGrant>)
    ensures UniqueRoles(RolesOf(Deduplicated(rows)))
    ensures RolesOf(Deduplicated(WithoutProduct(roles))) == roles <==> UniqueRoles(roles)
  {
    LowestGrantSurvives(rows);
    var back := WithoutProduct(roles);
    LowestGrantSurvives(back);
    if UniqueRoles(roles) {
      assert Deduplicated(back) == back;
      assert RolesOf(back) == roles;
    } else {
      var g, h :| g in roles && h in roles && roles[g].userId.Some? && roles[g].userId == roles[h].userId && g != h;
      var later := if g < h then h else g;
      assert back[g].userId == back[h].userId && later !in Deduplicated(back);
    }
  }

  /** `up` and then `down` give the grants back exactly when no user had two of them and none named a product. */
  lemma GrantsComeBackExactly(rows: map<RowId, ProductGrant>)
    ensures WithoutProduct(RolesOf(Deduplicated(rows))) == rows <==>
      && (forall g | g in rows :: rows[g].product.None?)
      && (forall g, h | g in rows && h in rows && rows[g].userId.Some? && rows[g].userId == rows[h].userId :: g == h)
  {
    LowestGrantSurvives(rows);
    var back := WithoutProduct(RolesOf(Deduplicated(rows)));
    assert back.Keys == Deduplicated(rows).Keys;
    if g, h :| g in rows && h in rows && rows[g].userId.Some? && rows[g].userId == rows[h].userId && g != h {
      assert (if g < h then h else g) !in back;
    } else {
      assert back.Keys == rows.Keys;
    }
    if g :| g in rows && rows[g].product.Some? {
      assert g in back ==> back[g] != rows[g];
    }
  }

  /** Some physical row has the twin's key, so the twin needs no row of its own. */
  ghost predicate Shared(a: map<RowId, Physical>, twin: Twin) {
    exists i :: i in a && Clash(a[i].key, twin.key)
  }

  /** One row of the second INSERT: it updates the row with the same key, adds one, or fails on the primary key. */
  method InsertTwin(ghost a: map<RowId, Physical>, ghost taken: map<RowId, Twin>, assets: map<RowId, Asset>, id: RowId,
      twin: Twin)
    returns (ok: bool, merged: map<RowId, Asset>)
    requires UniquePhysical(a) && IsMerge(a, taken, assets) && id !in taken
    requires forall y | y in taken :: !Clash(taken[y].key, twin.key)
    ensures ok <==> Shared(a, twin) || id !in a
    ensures ok ==> IsMerge(a, taken[id := twin], merged)
  {
    hide IsMerge;
    ok, merged := true, assets;
    if row :| row in assets && Clash(assets[row].key, twin.key) {
      ClashIsPhysical(a, taken, assets, twin, row);
      OverlaidTable(a, taken, assets, id, twin, row);
      merged := assets[row := Overlaid(assets[row], twin)];
    } else {
      NoClashInSource(a, taken, assets, twin);
      if id in assets {
        KeysOfMerge(a, taken, assets, id);
        ok := false;
      } else {
        RowsInclude(a, taken, assets);
        NewTable(a, taken, assets, id, twin);
        merged := assets[id := FromTwin(twin)];
      }
    }
  }

  /** Both INSERT ... SELECT statements, the second visiting the twins in the order of the scan. */
  method InsertFromTwins(a: map<RowId, Physical>, t: map<RowId, Twin>, scan: seq<RowId>)
    returns (ok: bool, assets: map<RowId, Asset>)
    requires UniquePhysical(a) && UniqueTwins(t) && IsScan(t, scan)
    ensures ok <==> CanMerge(a, t)
    ensures ok ==> IsMerge(a, t, assets)
  {
    hide UniqueTwins, IsMerge, CanMerge, Clash;
    assets := FromPhysical(a);
    ghost var taken := map[];
    NoTwinsYet(a);
    for i := 0 to |scan|
      invariant taken == Take(t, scan[..i])
      invariant CanMerge(a, taken) && IsMerge(a, taken, assets)
    {
      var twin := t[scan[i]];
      assert Take(t, scan[..i + 1]) == taken[scan[i] := twin];
      NextTwinIsNew(t, scan, i);
      CanMergeGrows(a, taken, scan[i], twin);
      ok, assets := InsertTwin(a, taken, assets, scan[i], twin);
      if !ok {
        CannotMergeLater(a, t, scan, i);
        return;
      }
      taken := taken[scan[i] := twin];
    }
    assert scan[..|scan|] == scan && Take(t, scan) == t;
    ok := true;
  }

  lemma NoTwinsYet(a: map<RowId, Physical>)
    requires UniquePhysical(a)
    ensures CanMerge(a, map[]) && IsMerge(a, map[], FromPhysical(a))
  {
  }

  lemma NextTwinIsNew(t: map<RowId, Twin>, scan: seq<RowId>, i: nat)
    requires UniqueTwins(t) && IsScan(t, scan) && i < |scan|
    ensures scan[i] !in Take(t, scan[..i])
    ensures forall y | y in Take(t, scan[..i]) :: !Clash(Take(t, scan[..i])[y].key, t[scan[i]].key)
  {
  }

  /** A row with the twin's key is the one physical row with that key, and the update makes it the twin's. */
  lemma ClashIsPhysical(a: map<RowId, Physical>, t: map<RowId, Twin>, assets: map<RowId, Asset>, twin: Twin, row: RowId)
    requires UniquePhysical(a) && IsMerge(a, t, assets) && row in assets && Clash(assets[row].key, twin.key)
    requires forall y | y in t :: !Clash(t[y].key, twin.key)
    ensures row in a && Clash(a[row].key, twin.key) && Overlaid(assets[row], twin) == FromTwin(twin)
    ensures forall i | i in a && i != row :: !Clash(a[i].key, twin.key)
    ensures forall y | y in t :: !Clash(a[row].key, t[y].key)
  {
    KeysOfMerge(a, t, assets, row);
  }

  lemma NoClashInSource(a: map<RowId, Physical>, t: map<RowId, Twin>, assets: map<RowId, Asset>, twin: Twin)
    requires IsMerge(a, t, assets) && forall row | row in assets :: !Clash(assets[row].key, twin.key)
    ensures forall i | i in a :: !Clash(a[i].key, twin.key)
  {
    forall i | i in a ensures !Clash(a[i].key, twin.key) {
      KeysOfMerge(a, t, assets, i);
    }
  }

  lemma RowsInclude(a: map<RowId, Physical>, t: map<RowId, Twin>, assets: map<RowId, Asset>)
    requires IsMerge(a, t, assets)
    ensures a.Keys <= assets.Keys
  {
  }

  /** A twin whose id a physical row has, and whose key none has, fails the statement whatever comes after it. */
  lemma CannotMergeLater(a: map<RowId, Physical>, t: map<RowId, Twin>, scan: seq<RowId>, i: nat)
    requires IsScan(t, scan) && i < |scan| && scan[i] in a
    requires !Shared(a, t[scan[i]])
    ensures !CanMerge(a, t)
  {
    assert scan[i] in t && !HasPhysical(a, t, scan[i]);
  }
}
