/**
 Models backend/src/migrations/1787000000000-SeedCompanyCategories.ts: removing
 duplicate category names, then inserting every predefined one that is missing.

 The table is a sequence in the order of `ctid`; a NULL name is None and equals
 nothing.
 */
module CategorySeed {
  import opened Wrappers

  type RowId = nat

  datatype Category = Category(id: RowId, name: Option<string>)

  const COMPANY_CATEGORY_NAMES := [
    "manufacturer", "machine_builder", "factory_owner", "user", "public",
    "service_provider", "retailer", "logistics", "recycler"]

  predicate Named(rows: seq<Category>, name: string) {
    exists i :: 0 <= i < |rows| && rows[i].name == Some(name)
  }

  /** No name occurs twice: what the unique index demands. */
  ghost predicate UniqueNames(rows: seq<Category>) {
    forall i, j | 0 <= i < j < |rows| && rows[i].name.Some? :: rows[i].name != rows[j].name
  }

  /** The self-join DELETE: a row goes if some earlier row has its name. */
  function Deduplicated(rows: seq<Category>): seq<Category> {
    if rows == [] then []
    else
      var init, last := rows[..|rows| - 1], rows[|rows| - 1];
      Deduplicated(init) + if last.name.Some? && Named(init, last.name.value) then [] else [last]
  }

  lemma {:induction false} DeduplicatedNames(rows: seq<Category>)
    ensures UniqueNames(Deduplicated(rows))
    ensures forall name :: Named(Deduplicated(rows), name) <==> Named(rows, name)
    decreases |rows|
  {
    if rows == [] {
    } else {
      var init, last := rows[..|rows| - 1], rows[|rows| - 1];
      DeduplicatedNames(init);
      assert rows == init + [last];
      AppendNames(init, last);
      AppendNames(Deduplicated(init), last);
      assert Deduplicated(rows) == Deduplicated(init) || Deduplicated(rows) == Deduplicated(init) + [last];
      assert Deduplicated(init) + [] == Deduplicated(init);
    }
  }

  /** What survives is, name by name, exactly the first row: a row is kept when no earlier row has its name. */
  lemma {:induction false} FirstOfNameSurvives(rows: seq<Category>, c: Category)
    ensures c in Deduplicated(rows) <==>
      exists i :: 0 <= i < |rows| && rows[i] == c && (c.name.None? || !Named(rows[..i], c.name.value))
    decreases |rows|
  {
    if rows == [] {
    } else {
      var init, last := rows[..|rows| - 1], rows[|rows| - 1];
      FirstOfNameSurvives(init, c);
      assert forall i | 0 <= i <= |init| :: rows[..i] == init[..i];
      if i :| 0 <= i < |init| && init[i] == c && (c.name.None? || !Named(init[..i], c.name.value)) {
        assert rows[i] == c && rows[..i] == init[..i];
      }
      if i :| 0 <= i < |rows| && rows[i] == c && (c.name.None? || !Named(rows[..i], c.name.value)) {
        if i < |init| { assert init[i] == c && rows[..i] == init[..i]; }
      }
    }
  }

  lemma {:induction false} DeduplicatedIsIdentity(rows: seq<Category>)
    requires UniqueNames(rows)
    ensures Deduplicated(rows) == rows
    decreases |rows|
  {
    if rows == [] {
    } else {
      var init, last := rows[..|rows| - 1], rows[|rows| - 1];
      DeduplicatedIsIdentity(init);
      assert !(last.name.Some? && Named(init, last.name.value));
    }
  }

  /** The row the k-th INSERT adds. */
  function Inserted(ids: seq<RowId>, k: nat): Category
    requires |ids| == |COMPANY_CATEGORY_NAMES| && k < |ids|
  {
    Category(ids[k], Some(COMPANY_CATEGORY_NAMES[k]))
  }

  /** `c` was added by one of the first `n` of the INSERT statements. */
  ghost predicate InsertedBy(c: Category, ids: seq<RowId>, n: nat)
    requires |ids| == |COMPANY_CATEGORY_NAMES| && n <= |ids|
  {
    exists k :: 0 <= k < n && c == Inserted(ids, k)
  }

  /** The table after `up`: the survivors, untouched, then for each missing name a new row with the id drawn for it. */
  ghost predicate IsSeeded(before: seq<Category>, after: seq<Category>, ids: seq<RowId>)
    requires |ids| == |COMPANY_CATEGORY_NAMES|
  {
    && Deduplicated(before) <= after
    && UniqueNames(after)
    && (forall name :: Named(after, name) <==> Named(before, name) || name in COMPANY_CATEGORY_NAMES)
    && forall i | |Deduplicated(before)| <= i < |after| :: InsertedBy(after[i], ids, |ids|)
  }

  class CategoryTable {
    var rows: seq<Category>

    constructor (rows: seq<Category>)
      ensures this.rows == rows
    {
      this.rows := rows;
    }

    /** `ids` are the nine ids generateId returns for the nine INSERT statements. */
    method Up(ids: seq<RowId>)
      requires |ids| == |COMPANY_CATEGORY_NAMES|
      modifies this
      ensures IsSeeded(old(rows), rows, ids)
    {
      rows := Deduplicated(rows);
      DeduplicatedNames(old(rows));
      ghost var survivors := rows;
      for i := 0 to |COMPANY_CATEGORY_NAMES|
        invariant survivors <= rows && UniqueNames(rows)
        invariant forall name :: Named(rows, name) <==> Named(old(rows), name) || name in COMPANY_CATEGORY_NAMES[..i]
        invariant forall k | |survivors| <= k < |rows| :: InsertedBy(rows[k], ids, i)
      {
        var name := COMPANY_CATEGORY_NAMES[i];
        ghost var before := rows;
        if !Named(rows, name) {
          rows := rows + [Category(ids[i], Some(name))];
          assert forall n :: Named(rows, n) <==> Named(before, n) || n == name by {
            AppendNames(before, Category(ids[i], Some(name)));
          }
          assert InsertedBy(Inserted(ids, i), ids, i + 1);
        }
        InsertedEarlier(ids, i);
        assert forall n :: n in COMPANY_CATEGORY_NAMES[..i + 1] <==> n in COMPANY_CATEGORY_NAMES[..i] || n == name;
      }
    }

    method Down()
      modifies this
      ensures rows == WithoutPredefined(old(rows))
    {
      rows := WithoutPredefined(rows);
    }
  }

  lemma InsertedEarlier(ids: seq<RowId>, n: nat)
    requires |ids| == |COMPANY_CATEGORY_NAMES| && n < |ids|
    ensures forall c | InsertedBy(c, ids, n) :: InsertedBy(c, ids, n + 1)
  {
  }

  lemma AppendNames(rows: seq<Category>, c: Category)
    ensures forall n :: Named(rows + [c], n) <==> Named(rows, n) || c.name == Some(n)
  {
    forall n ensures Named(rows + [c], n) <==> Named(rows, n) || c.name == Some(n) {
      if Named(rows, n) {
        var i :| 0 <= i < |rows| && rows[i].name == Some(n);
        assert (rows + [c])[i] == rows[i];
      }
      assert (rows + [c])[|rows|] == c;
    }
  }

  function WithoutPredefined(rows: seq<Category>): seq<Category> {
    if rows == [] then []
    else
      (if rows[0].name.Some? && rows[0].name.value in COMPANY_CATEGORY_NAMES then []
          else [rows[0]]) + WithoutPredefined(rows[1..])
  }

  lemma {:induction false} OthersStay(rows: seq<Category>, c: Category)
    ensures c in WithoutPredefined(rows) <==> c in rows && !(c.name.Some? && c.name.value in COMPANY_CATEGORY_NAMES)
  {
    if rows == [] {
    } else {
      OthersStay(rows[1..], c);
      assert c in rows <==> c == rows[0] || c in rows[1..];
    }
  }

  // ----- what the migration promises -----

  lemma PredefinedExactly(name: string)
    ensures name in COMPANY_CATEGORY_NAMES <==> name in {
      "manufacturer", "machine_builder", "factory_owner", "user", "public", "service_provider", "retailer", "logistics",
      "recycler"}
  {
  }

  /** Every predefined name is there exactly once. */
  lemma EachPredefinedNameOnce(before: seq<Category>, after: seq<Category>, ids: seq<RowId>, name: string)
    requires |ids| == |COMPANY_CATEGORY_NAMES| && IsSeeded(before, after, ids) && name in COMPANY_CATEGORY_NAMES
    ensures exists i :: 0 <= i < |after| && after[i].name == Some(name)
    ensures forall i, j | 0 <= i < |after| && 0 <= j < |after| && after[i].name == after[j].name == Some(name) :: i == j
  {
    assert Named(after, name);
  }

  /** Running it on a table it has already seeded changes nothing, whatever ids it generates. */
  lemma SeedingAgainChangesNothing(before: seq<Category>, once: seq<Category>, ids: seq<RowId>, twice: seq<Category>,
      ids': seq<RowId>)
    requires |ids| == |ids'| == |COMPANY_CATEGORY_NAMES| && IsSeeded(before, once, ids) && IsSeeded(once, twice, ids')
    ensures twice == once
  {
    DeduplicatedIsIdentity(once);
    LaterRowsAreNew(once, twice);
  }

  /**
   A name that was missing gets the row of its own INSERT, with the id drawn
   for that one; no other INSERT adds anything.
   */
  lemma InsertedExactly(before: seq<Category>, after: seq<Category>, ids: seq<RowId>, k: nat)
    requires |ids| == |COMPANY_CATEGORY_NAMES| && IsSeeded(before, after, ids) && k < |ids|
    ensures Inserted(ids, k) in after[|Deduplicated(before)|..] <==> !Named(before, COMPANY_CATEGORY_NAMES[k])
  {
    var name, n := COMPANY_CATEGORY_NAMES[k], |Deduplicated(before)|;
    DeduplicatedNames(before);
    assert name in COMPANY_CATEGORY_NAMES;
    if Named(before, name) {
      hide Deduplicated;
      var i :| 0 <= i < n && Deduplicated(before)[i].name == Some(name);
      assert after[i] == Deduplicated(before)[i];
    } else {
      assert Named(after, name) && !Named(Deduplicated(before), name);
      assert forall j | 0 <= j < n :: after[j] == Deduplicated(before)[j];
      hide Deduplicated;
      var i :| 0 <= i < |after| && after[i].name == Some(name);
      var l :| 0 <= l < |ids| && after[i] == Inserted(ids, l);
      PredefinedNamesDiffer(k, l);
      assert after[n..][i - n] == Inserted(ids, k);
    }
  }

  lemma PredefinedNamesDiffer(k: nat, l: nat)
    requires k < |COMPANY_CATEGORY_NAMES| && l < |COMPANY_CATEGORY_NAMES|
    requires COMPANY_CATEGORY_NAMES[k] == COMPANY_CATEGORY_NAMES[l]
    ensures k == l
  {
    assert |COMPANY_CATEGORY_NAMES[k]| == |COMPANY_CATEGORY_NAMES[l]|;
    assert COMPANY_CATEGORY_NAMES[k][0] == COMPANY_CATEGORY_NAMES[l][0];
    assert COMPANY_CATEGORY_NAMES[k][2] == COMPANY_CATEGORY_NAMES[l][2];
  }

  lemma LaterRowsAreNew(rows: seq<Category>, longer: seq<Category>)
    requires rows <= longer && UniqueNames(longer)
    ensures |rows| < |longer| && longer[|rows|].name.Some? ==> !Named(rows, longer[|rows|].name.value)
  {
    assert forall i | 0 <= i < |rows| :: rows[i] == longer[i];
  }

  /**
   A category that was there before keeps its row, id included, if it was the
   first of its name; `down` then removes it only if its name is predefined.
   */
  lemma SurvivorsKeepTheirRow(before: seq<Category>, after: seq<Category>, ids: seq<RowId>, i: nat)
    requires |ids| == |COMPANY_CATEGORY_NAMES| && IsSeeded(before, after, ids) && i < |before|
    requires before[i].name.Some? ==> !Named(before[..i], before[i].name.value)
    ensures before[i] in after
    ensures before[i] in WithoutPredefined(after)
        <==> !(before[i].name.Some? && before[i].name.value in COMPANY_CATEGORY_NAMES)
  {
    FirstOfNameSurvives(before, before[i]);
    OthersStay(after, before[i]);
  }
}
