/**
 Models backend/src/common/public-company.service.ts: what a company shows
 across the company boundary, with the categories of a whole batch resolved in
 two queries; and the same join as getAllCompanies writes it.
 */
module PublicCompany {
  import opened Wrappers
  import opened Tables

  /** Rows of company_category_mappings and company_categories in the order the queries return them. */
  datatype MappingRow = MappingRow(companyId: Id, categoryId: Id)
  datatype CategoryRow = CategoryRow(id: Id, name: string)

  datatype Row = Row(id: Id, company: Company)

  datatype Projection = Projection(
    ifricId: string, name: string, address1: string, zip: string, city: string, country: string,
    industry: string, image: Option<string>, category: Option<string>)

  // ----- the two queries and the two Maps -----

  /** find({ company_id: In(ids) }). */
  function MappingsOf(mappings: seq<MappingRow>, ids: seq<Id>): seq<MappingRow> {
    if mappings == [] then []
    else
      var last := mappings[|mappings| - 1];
      MappingsOf(mappings[..|mappings| - 1], ids) + if last.companyId in ids then [last] else []
  }

  /** find({ _id: In(new Set(...)) }). */
  function CategoriesOf(categories: seq<CategoryRow>, ids: set<Id>): seq<CategoryRow> {
    if categories == [] then []
    else
      var last := categories[|categories| - 1];
      CategoriesOf(categories[..|categories| - 1], ids) + if last.id in ids then [last] else []
  }

  /** new Map(entries): a later entry for a key replaces an earlier one. */
  function NameById(categories: seq<CategoryRow>): map<Id, string> {
    if categories == [] then map[]
    else var last := categories[|categories| - 1]; NameById(categories[..|categories| - 1])[last.id := last.name]
  }

  function CategoryIds(mappings: seq<MappingRow>): set<Id> {
    set m | m in mappings :: m.categoryId
  }

  /** Entries whose category has no row are filtered out before the Map is built. */
  function NameByCompany(mappings: seq<MappingRow>, names: map<Id, string>): map<Id, string> {
    if mappings == [] then map[]
    else
      var before, last := NameByCompany(mappings[..|mappings| - 1], names), mappings[|mappings| - 1];
      if last.categoryId in names then before[last.companyId := names[last.categoryId]] else before
  }

  function ResolveCategoryNames(mappings: seq<MappingRow>, categories: seq<CategoryRow>,
      ids: seq<Id>): map<Id, string> {
    var found := MappingsOf(mappings, ids);
    if found == [] then map[]
    else NameByCompany(found, NameById(CategoriesOf(categories, CategoryIds(found))))
  }

  function Get(m: map<Id, string>, k: Id): Option<string> {
    if k in m then Some(m[k]) else None
  }

  function IdsOf(companies: seq<Row>): (ids: seq<Id>)
    ensures |ids| == |companies| && forall i | 0 <= i < |ids| :: ids[i] == companies[i].id
  {
    seq(|companies|, i requires 0 <= i < |companies| => companies[i].id)
  }

  /** The object literal: the id, the eight listed fields' worth of columns, and the category. */
  function Project(row: Row, category: Option<string>): Projection {
    var p := row.company.profile;
    Projection(row.company.ifricId, row.company.name, p.address1, p.zip, p.city, p.country, p.industry, p.image,
        category)
  }

  function ToPublicCompanies(mappings: seq<MappingRow>, categories: seq<CategoryRow>,
      companies: seq<Row>): (r: seq<Projection>)
    ensures |r| == |companies|
  {
    var names := ResolveCategoryNames(mappings, categories, IdsOf(companies));
    seq(|companies|, i requires 0 <= i < |companies| => Project(companies[i], Get(names, companies[i].id)))
  }

  function ToPublicCompany(mappings: seq<MappingRow>, categories: seq<CategoryRow>,
      company: Option<Row>): Option<Projection> {
    match company
    case None => None
    case Some(row) => Some(ToPublicCompanies(mappings, categories, [row])[0])
  }

  // ----- the category of one company, without batching -----

  /** The name of a category row, last row first. */
  function CategoryName(categories: seq<CategoryRow>, id: Id): Option<string> {
    if categories == [] then None
    else
      var last := categories[|categories| - 1];
      if last.id == id then Some(last.name) else CategoryName(categories[..|categories| - 1], id)
  }

  /** The name of the company's last mapping that leads to a category at all. */
  function CategoryOf(mappings: seq<MappingRow>, categories: seq<CategoryRow>, companyId: Id): Option<string> {
    if mappings == [] then None
    else
      var last := mappings[|mappings| - 1];
      if last.companyId == companyId && CategoryName(categories, last.categoryId).Some?
          then CategoryName(categories, last.categoryId)
      else CategoryOf(mappings[..|mappings| - 1], categories, companyId)
  }

  // ----- the batch is the single lookup, company by company -----

  lemma {:induction false} NameByIdIsCategoryName(categories: seq<CategoryRow>, id: Id)
    ensures Get(NameById(categories), id) == CategoryName(categories, id)
    decreases |categories|
  {
    if categories == [] {
    } else {
      NameByIdIsCategoryName(categories[..|categories| - 1], id);
    }
  }

  lemma {:induction false} QueriedCategoryHasItsName(categories: seq<CategoryRow>, ids: set<Id>, id: Id)
    requires id in ids
    ensures CategoryName(CategoriesOf(categories, ids), id) == CategoryName(categories, id)
    decreases |categories|
  {
    if categories == [] {
    } else {
      var init, last := categories[..|categories| - 1], categories[|categories| - 1];
      QueriedCategoryHasItsName(init, ids, id);
      var found := CategoriesOf(init, ids);
      assert (found + [last])[..|found|] == found;
      assert found + [] == found;
    }
  }

  lemma {:induction false} MapIsLastKnownMapping(mappings: seq<MappingRow>, names: map<Id, string>,
      categories: seq<CategoryRow>, companyId: Id)
    requires forall m | m in mappings :: Get(names, m.categoryId) == CategoryName(categories, m.categoryId)
    ensures Get(NameByCompany(mappings, names), companyId) == CategoryOf(mappings, categories, companyId)
    decreases |mappings|
  {
    if mappings == [] {
    } else {
      MapIsLastKnownMapping(mappings[..|mappings| - 1], names, categories, companyId);
      assert mappings[|mappings| - 1] in mappings;
    }
  }

  lemma {:induction false} QueriedMappingsDecide(mappings: seq<MappingRow>, ids: seq<Id>, categories: seq<CategoryRow>,
      companyId: Id)
    requires companyId in ids
    ensures CategoryOf(MappingsOf(mappings, ids), categories, companyId) == CategoryOf(mappings, categories, companyId)
    decreases |mappings|
  {
    if mappings == [] {
    } else {
      var init, last := mappings[..|mappings| - 1], mappings[|mappings| - 1];
      QueriedMappingsDecide(init, ids, categories, companyId);
      var found := MappingsOf(init, ids);
      assert (found + [last])[..|found|] == found;
      assert found + [] == found;
    }
  }

  lemma ResolvesEachCategory(mappings: seq<MappingRow>, categories: seq<CategoryRow>, ids: seq<Id>, companyId: Id)
    requires companyId in ids
    ensures Get(ResolveCategoryNames(mappings, categories, ids), companyId) == CategoryOf(mappings, categories,
        companyId)
  {
    var found := MappingsOf(mappings, ids);
    var names := NameById(CategoriesOf(categories, CategoryIds(found)));
    forall m | m in found ensures Get(names, m.categoryId) == CategoryName(categories, m.categoryId) {
      NameByIdIsCategoryName(CategoriesOf(categories, CategoryIds(found)), m.categoryId);
      QueriedCategoryHasItsName(categories, CategoryIds(found), m.categoryId);
    }
    MapIsLastKnownMapping(found, names, categories, companyId);
    QueriedMappingsDecide(mappings, ids, categories, companyId);
  }

  /** A batch gives each company the projection it would get alone, in the same place, whatever else is in the batch. */
  lemma BatchIsPointwise(mappings: seq<MappingRow>, categories: seq<CategoryRow>, companies: seq<Row>, i: nat)
    requires i < |companies|
    ensures Some(ToPublicCompanies(mappings, categories, companies)[i]) == ToPublicCompany(mappings, categories,
        Some(companies[i]))
    ensures ToPublicCompanies(mappings, categories, companies)[i] == Project(companies[i],
        CategoryOf(mappings, categories, companies[i].id))
  {
    assert IdsOf(companies)[i] == companies[i].id && IdsOf([companies[i]])[0] == companies[i].id;
    ResolvesEachCategory(mappings, categories, IdsOf(companies), companies[i].id);
    ResolvesEachCategory(mappings, categories, IdsOf([companies[i]]), companies[i].id);
  }

  /** Which column each field shows, and that it shows nothing else. */
  lemma ProjectionExactly(mappings: seq<MappingRow>, categories: seq<CategoryRow>, companies: seq<Row>, i: nat)
    requires i < |companies|
    ensures var shown, company := ToPublicCompanies(mappings, categories, companies)[i], companies[i].company;
      && shown.ifricId == company.ifricId && shown.name == company.name
      && shown.address1 == company.profile.address1 && shown.zip == company.profile.zip
      && shown.city == company.profile.city && shown.country == company.profile.country
      && shown.industry == company.profile.industry && shown.image == company.profile.image
      && shown.category == CategoryOf(mappings, categories, companies[i].id)
  {
    BatchIsPointwise(mappings, categories, companies, i);
  }

  /** The public columns of two rows agree; nothing is said about e-mail or the private columns. */
  predicate LooksAlike(row: Row, row': Row) {
    && row.id == row'.id && row.company.ifricId == row'.company.ifricId && row.company.name == row'.company.name
    && row.company.profile.(privateColumns := "") == row'.company.profile.(privateColumns := "")
  }

  /** Companies that differ only in what is private are projected to the same answer. */
  lemma PrivateColumnsNeverShow(mappings: seq<MappingRow>, categories: seq<CategoryRow>, companies: seq<Row>,
      companies': seq<Row>)
    requires |companies| == |companies'| && forall i | 0 <= i < |companies| :: LooksAlike(companies[i], companies'[i])
    ensures ToPublicCompanies(mappings, categories, companies) == ToPublicCompanies(mappings, categories, companies')
  {
    assert IdsOf(companies) == IdsOf(companies');
    forall i | 0 <= i < |companies|
      ensures ToPublicCompanies(mappings, categories, companies)[i] == ToPublicCompanies(mappings, categories,
          companies')[i]
    {
      assert LooksAlike(companies[i], companies'[i]);
      assert companies[i].company.profile.(privateColumns := "").address1 == companies'[i].company.profile.address1;
    }
  }

  // ----- the same join in getAllCompanies -----

  /** mappingByCompanyId: the last mapping, whether or not its category exists. */
  function LastMapping(mappings: seq<MappingRow>, companyId: Id): Option<Id> {
    if mappings == [] then None
    else
      var last := mappings[|mappings| - 1];
      if last.companyId == companyId then Some(last.categoryId) else LastMapping(mappings[..|mappings| - 1], companyId)
  }

  function ListedCategory(mappings: seq<MappingRow>, categories: seq<CategoryRow>, companyId: Id): Option<string> {
    match LastMapping(mappings, companyId)
    case None => None
    case Some(categoryId) => CategoryName(categories, categoryId)
  }

  predicate CategoryExists(categories: seq<CategoryRow>, id: Id) {
    exists i :: 0 <= i < |categories| && categories[i].id == id
  }

  lemma {:induction false} CategoryNameExists(categories: seq<CategoryRow>, id: Id)
    ensures CategoryName(categories, id).Some? <==> CategoryExists(categories, id)
    decreases |categories|
  {
    if categories == [] {
    } else {
      var init := categories[..|categories| - 1];
      CategoryNameExists(init, id);
      if i :| 0 <= i < |init| && init[i].id == id {
        assert categories[i].id == id;
      }
    }
  }

  /** A category id stands for the name in its last row. */
  lemma {:induction false} CategoryNameExactly(categories: seq<CategoryRow>, id: Id, name: string)
    ensures CategoryName(categories, id) == Some(name) <==>
      exists i :: 0 <= i < |categories| && categories[i] == CategoryRow(id, name)
                  && forall j | i < j < |categories| :: categories[j].id != id
    decreases |categories|
  {
    if categories == [] {
    } else {
      var init, last := categories[..|categories| - 1], categories[|categories| - 1];
      CategoryNameExactly(init, id, name);
      if last.id == id {
        assert categories[|categories| - 1] == last;
      } else {
        if i :| 0 <= i < |init| && init[i] == CategoryRow(id, name) && forall j | i < j < |init| :: init[j].id != id {
          assert categories[i] == init[i];
        }
        if i :| 0 <= i < |categories| && categories[i] == CategoryRow(id, name)
                && forall j | i < j < |categories| :: categories[j].id != id {
          assert init[i] == categories[i] && forall j | i < j < |init| :: init[j] == categories[j];
        }
      }
    }
  }

  /** Row `i` is the company's last mapping that leads to an existing category. */
  predicate Shows(mappings: seq<MappingRow>, categories: seq<CategoryRow>, companyId: Id, i: int) {
    && 0 <= i < |mappings| && mappings[i].companyId == companyId && CategoryExists(categories, mappings[i].categoryId)
    && forall j | i < j < |mappings| && mappings[j].companyId == companyId ::
         !CategoryExists(categories, mappings[j].categoryId)
  }

  lemma {:induction false} ShowsFromInit(mappings: seq<MappingRow>, categories: seq<CategoryRow>, companyId: Id, i: int)
    requires |mappings| > 0 && i < |mappings| - 1
    requires var last := mappings[|mappings| - 1];
             last.companyId != companyId || !CategoryExists(categories, last.categoryId)
    ensures Shows(mappings, categories, companyId, i) <==>
            Shows(mappings[..|mappings| - 1], categories, companyId, i)
  {
    hide CategoryExists;
    var init := mappings[..|mappings| - 1];
    assert forall j | 0 <= j < |init| :: mappings[j] == init[j];
  }

  /** The category shown is that of the company's last mapping among those that lead to an existing one. */
  lemma {:induction false} CategoryOfExactly(mappings: seq<MappingRow>, categories: seq<CategoryRow>, companyId: Id,
      name: string)
    ensures CategoryOf(mappings, categories, companyId) == Some(name) <==>
      exists i :: Shows(mappings, categories, companyId, i) &&
                  CategoryName(categories, mappings[i].categoryId) == Some(name)
    decreases |mappings|
  {
    if mappings != [] {
      var k := |mappings| - 1;
      var init, last := mappings[..k], mappings[k];
      CategoryNameExists(categories, last.categoryId);
      hide CategoryExists, CategoryName;
      if last.companyId == companyId && CategoryExists(categories, last.categoryId) {
        assert Shows(mappings, categories, companyId, k);
        assert forall i :: Shows(mappings, categories, companyId, i) ==> i == k;
      } else {
        CategoryOfExactly(init, categories, companyId, name);
        assert CategoryOf(mappings, categories, companyId) == CategoryOf(init, categories, companyId);
        hide CategoryOf;
        if i :| Shows(mappings, categories, companyId, i) &&
                CategoryName(categories, mappings[i].categoryId) == Some(name) {
          ShowsFromInit(mappings, categories, companyId, i);
        }
        if i :| Shows(init, categories, companyId, i) && CategoryName(categories, init[i].categoryId) == Some(name) {
          ShowsFromInit(mappings, categories, companyId, i);
        }
      }
    }
  }

  /** Row `i` is the company's last mapping. */
  predicate IsLastMapping(mappings: seq<MappingRow>, companyId: Id, i: int) {
    && 0 <= i < |mappings| && mappings[i].companyId == companyId
    && forall j | i < j < |mappings| :: mappings[j].companyId != companyId
  }

  lemma {:induction false} LastMappingIsLast(mappings: seq<MappingRow>, companyId: Id)
    ensures match LastMapping(mappings, companyId)
            case None => forall m | m in mappings :: m.companyId != companyId
            case Some(id) => exists i :: IsLastMapping(mappings, companyId, i) && mappings[i].categoryId == id
    decreases |mappings|
  {
    if mappings == [] {
    } else {
      var init, last := mappings[..|mappings| - 1], mappings[|mappings| - 1];
      LastMappingIsLast(init, companyId);
      if last.companyId == companyId {
        assert IsLastMapping(mappings, companyId, |mappings| - 1);
      } else if LastMapping(init, companyId).Some? {
        var i :| IsLastMapping(init, companyId, i) && init[i].categoryId == LastMapping(init, companyId).value;
        assert IsLastMapping(mappings, companyId, i) && mappings[i] == init[i];
      } else {
        assert mappings == init + [last];
      }
    }
  }

  lemma {:induction false} CategoryOfExists(mappings: seq<MappingRow>, categories: seq<CategoryRow>, companyId: Id)
    ensures CategoryOf(mappings, categories, companyId).Some? <==>
      exists m :: m in mappings && m.companyId == companyId && CategoryExists(categories, m.categoryId)
    decreases |mappings|
  {
    if mappings == [] {
    } else {
      var init, last := mappings[..|mappings| - 1], mappings[|mappings| - 1];
      CategoryOfExists(init, categories, companyId);
      CategoryNameExists(categories, last.categoryId);
      assert mappings == init + [last];
    }
  }

  lemma {:induction false} SameWhenListed(mappings: seq<MappingRow>, categories: seq<CategoryRow>, companyId: Id)
    requires ListedCategory(mappings, categories, companyId).Some?
    ensures CategoryOf(mappings, categories, companyId) == ListedCategory(mappings, categories, companyId)
    decreases |mappings|
  {
    if mappings[|mappings| - 1].companyId == companyId {
    } else {
      SameWhenListed(mappings[..|mappings| - 1], categories, companyId);
    }
  }

  /**
   The two listings agree exactly when no mapping of the company leads to an
   existing category, or its last one does.
   */
  lemma ListingsAgree(mappings: seq<MappingRow>, categories: seq<CategoryRow>, companyId: Id)
    ensures ListedCategory(mappings, categories, companyId) == CategoryOf(mappings, categories, companyId) <==>
      || (forall m | m in mappings && m.companyId == companyId :: !CategoryExists(categories, m.categoryId))
      || (exists i :: IsLastMapping(mappings, companyId, i) && CategoryExists(categories, mappings[i].categoryId))
  {
    LastMappingIsLast(mappings, companyId);
    CategoryOfExists(mappings, categories, companyId);
    var last := LastMapping(mappings, companyId);
    if last.Some? {
      CategoryNameExists(categories, last.value);
    }
    hide CategoryExists;
    if ListedCategory(mappings, categories, companyId).Some? {
      SameWhenListed(mappings, categories, companyId);
    }
  }

  /** With at most one mapping per company, which every reachable registry has, they always agree. */
  lemma {:induction false} ListingsAgreeOnOneMapping(mappings: seq<MappingRow>, categories: seq<CategoryRow>,
      companyId: Id)
    requires forall i, j | 0 <= i < j < |mappings| :: mappings[i].companyId != mappings[j].companyId
    ensures ListedCategory(mappings, categories, companyId) == CategoryOf(mappings, categories, companyId)
    decreases |mappings|
  {
    if mappings == [] {
    } else {
      var init, last := mappings[..|mappings| - 1], mappings[|mappings| - 1];
      if last.companyId == companyId {
        NoMappingNoCategory(init, categories, companyId);
      } else {
        ListingsAgreeOnOneMapping(init, categories, companyId);
      }
    }
  }

  lemma {:induction false} NoMappingNoCategory(mappings: seq<MappingRow>, categories: seq<CategoryRow>, companyId: Id)
    requires forall m | m in mappings :: m.companyId != companyId
    ensures CategoryOf(mappings, categories, companyId).None?
    decreases |mappings|
  {
    if mappings == [] {
    } else {
      NoMappingNoCategory(mappings[..|mappings| - 1], categories, companyId);
    }
  }
}
