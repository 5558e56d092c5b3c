/**
 * The catalog's read-only queries: the home page, the filtered, sorted and
 * paginated product list, search, the category page and the related products
 * shown on a product page. A query runs over the product and category tables
 * taken as sequences in the database's default order.
 */
module Catalog {
  import opened Common
  import opened Text
  import opened Sorting
  import opened Paging

  datatype Category = Category(id: nat, name: string, slug: string)

  /** A product; `price` is in cents, `rating` in tenths of a star. */
  datatype Product = Product(
    id: nat,
    categoryId: nat,
    name: string,
    slug: string,
    description: string,
    price: int,
    stock: nat,
    active: bool,
    featured: bool,
    rating: int,
    createdAt: int)

  datatype HomePage = HomePage(featured: seq<Product>, categories: seq<Category>, latest: seq<Product>)

  /**
   * The records of `ps` that `keep` accepts (each exactly as often as in `ps`,
   * as `FilterCounts` states; the body also keeps them in their original
   * order, which no clause states).
   */
  function Filter(ps: seq<Product>, keep: Product -> bool): (r: seq<Product>)
    ensures |r| <= |ps|
    ensures forall p :: p in r <==> p in ps && keep(p)
  {
    if ps == [] then []
    else
      assert ps == [ps[0]] + ps[1..];
      (if keep(ps[0]) then [ps[0]] else []) + Filter(ps[1..], keep)
  }

  /** `filter` never adds a record: an accepted record appears exactly as often as in the input, a rejected one never. */
  lemma {:induction false} FilterCounts(ps: seq<Product>, keep: Product -> bool, p: Product)
    ensures multiset(Filter(ps, keep))[p] == if keep(p) then multiset(ps)[p] else 0
  {
    if ps != [] {
      assert ps == [ps[0]] + ps[1..];
      FilterCounts(ps[1..], keep, p);
    }
  }

  /** A request parameter that Python treats as true: present and not empty. */
  predicate Given(param: Option<string>)
  {
    param.Some? && param.value != ""
  }

  /** `get_object_or_404(Category, slug=...)`: the category carrying `slug`, if any. */
  function FindCategory(cats: seq<Category>, slug: string): (r: Option<Category>)
    ensures r.Some? ==> r.value in cats && r.value.slug == slug
    ensures r.None? ==> forall c :: c in cats ==> c.slug != slug
  {
    if cats == [] then None
    else if cats[0].slug == slug then Some(cats[0])
    else FindCategory(cats[1..], slug)
  }

  /** The name of the category with id `id` (`category__name`); empty when no row has that id. */
  function CategoryName(cats: seq<Category>, id: nat): (name: string)
    ensures name != "" ==> exists c :: c in cats && c.id == id && c.name == name
    ensures (exists c :: c in cats && c.id == id) ==> exists c :: c in cats && c.id == id && c.name == name
  {
    if cats == [] then ""
    else if cats[0].id == id then cats[0].name
    else CategoryName(cats[1..], id)
  }

  /** The free-text filter: name, description or category name contains `q`, ignoring case. */
  predicate MatchesQuery(cats: seq<Category>, p: Product, q: string)
  {
    IContains(p.name, q) || IContains(p.description, q) || IContains(CategoryName(cats, p.categoryId), q)
  }

  predicate IsActive(p: Product) { p.active }

  function PriceKey(p: Product): int { p.price }
  function PriceDescKey(p: Product): int { -p.price }
  function RatingDescKey(p: Product): int { -p.rating }
  function NewestKey(p: Product): int { -p.createdAt }

  /** The ordering chosen by the `sort` parameter; anything unrecognised means newest first. */
  function OrderKey(sort: Option<string>): Product -> int
  {
    if sort == Some("price_low") then PriceKey
    else if sort == Some("price_high") then PriceDescKey
    else if sort == Some("rating") then RatingDescKey
    else NewestKey
  }

  /**
   * The product list before pagination: active products, restricted to the
   * category whose slug is given (unknown slug: not found), then to those
   * matching the query when one is given, then ordered by `sort`.
   */
  function ProductListResults(cats: seq<Category>, ps: seq<Product>, categorySlug: Option<string>,
                              query: Option<string>, sort: Option<string>): (r: Lookup<seq<Product>>)
    ensures r.Found? ==> |r.value| <= |ps| && SortedBy(r.value, OrderKey(sort))
  {
    var active := Filter(ps, IsActive);
    var cat := if Given(categorySlug) then FindCategory(cats, categorySlug.value) else None;
    if Given(categorySlug) && cat.None? then NotFound
    else
      var inCategory := if cat.Some? then Filter(active, (p: Product) => p.categoryId == cat.value.id) else active;
      var matched := if Given(query) then Filter(inCategory, (p: Product) => MatchesQuery(cats, p, query.value)) else inCategory;
      SortByLength(matched, OrderKey(sort));
      Found(SortBy(matched, OrderKey(sort)))
  }

  /**
   * The product list view: the results above, cut into pages of `PerPage`;
   * the page served is the requested one when it exists, and holds that
   * page's window of the results.
   */
  function ProductList(cats: seq<Category>, ps: seq<Product>, categorySlug: Option<string>,
                       query: Option<string>, sort: Option<string>, page: Option<int>): (r: Lookup<Page<Product>>)
    ensures r.Found? <==> ProductListResults(cats, ps, categorySlug, query, sort).Found?
    ensures r.Found? ==>
      var results := ProductListResults(cats, ps, categorySlug, query, sort).value;
      && |r.value.items| <= PerPage
      && r.value.numPages == NumPages(|results|)
      && r.value.number == PageNumber(|results|, page)
      && r.value.items == PageAt(results, r.value.number)
      && 1 <= r.value.number <= r.value.numPages
      && (page.Some? && 1 <= page.value <= r.value.numPages ==> r.value.number == page.value)
      && (forall k :: 0 <= k < |r.value.items| ==>
            (r.value.number - 1) * PerPage + k < |results| &&
            r.value.items[k] == results[(r.value.number - 1) * PerPage + k])
  {
    match ProductListResults(cats, ps, categorySlug, query, sort)
    case NotFound => NotFound
    case Found(results) => Found(GetPage(results, page))
  }

  /** The search view: active products matching a non-empty query, in table order. */
  function Search(cats: seq<Category>, ps: seq<Product>, query: string): (r: seq<Product>)
    ensures |r| <= |ps|
    ensures query == "" ==> r == []
  {
    if query == "" then [] else Filter(ps, (p: Product) => p.active && MatchesQuery(cats, p, query))
  }

  /** The home page: 8 featured active products, 6 categories, the 8 newest active products. */
  function Index(cats: seq<Category>, ps: seq<Product>): (h: HomePage)
    ensures |h.featured| <= 8 && |h.categories| <= 6 && |h.latest| <= 8
  {
    HomePage(
      Take(Filter(ps, (p: Product) => p.featured && p.active), 8),
      Take(cats, 6),
      Take(SortBy(Filter(ps, IsActive), NewestKey), 8))
  }

  /**
   * The category page: not found for an unknown slug; otherwise the page
   * `get_page` picks of the category's active products, with its whole window.
   */
  function CategoryProducts(cats: seq<Category>, ps: seq<Product>, slug: string, page: Option<int>): (r: Lookup<Page<Product>>)
    ensures r.Found? <==> FindCategory(cats, slug).Some?
    ensures r.Found? ==> 1 <= r.value.number <= r.value.numPages && |r.value.items| <= PerPage
    ensures r.Found? ==>
      var members := Filter(ps, (p: Product) => p.categoryId == FindCategory(cats, slug).value.id && p.active);
      && r.value.numPages == NumPages(|members|)
      && r.value.number == PageNumber(|members|, page)
      && r.value.items == PageAt(members, r.value.number)
  {
    match FindCategory(cats, slug)
    case None => NotFound
    case Some(c) => Found(GetPage(Filter(ps, (p: Product) => p.categoryId == c.id && p.active), page))
  }

  /** Up to four other active products of the same category, in table order. */
  function RelatedProducts(ps: seq<Product>, product: Product): (r: seq<Product>)
    ensures |r| <= 4
    ensures forall p :: p in r ==> p in ps && p.id != product.id
  {
    Take(Filter(ps, (p: Product) => p.categoryId == product.categoryId && p.active && p.id != product.id), 4)
  }

  // ---------------------------------------------------------------------------
  // Properties of the queries

  /** The product list is not found exactly when a category slug is given that no category carries. */
  lemma ProductListNotFound(cats: seq<Category>, ps: seq<Product>, categorySlug: Option<string>,
                            query: Option<string>, sort: Option<string>)
    ensures ProductListResults(cats, ps, categorySlug, query, sort).NotFound?
        <==> Given(categorySlug) && forall c :: c in cats ==> c.slug != categorySlug.value
  {
    if Given(categorySlug) && FindCategory(cats, categorySlug.value).Some? {
      assert FindCategory(cats, categorySlug.value).value in cats;
    }
  }

  /**
   * Exactly the active products of the chosen category that match the query
   * (when one is given) are listed; without a query no text filter applies.
   */
  lemma ProductListMembers(cats: seq<Category>, ps: seq<Product>, categorySlug: Option<string>,
                           query: Option<string>, sort: Option<string>, p: Product)
    requires ProductListResults(cats, ps, categorySlug, query, sort).Found?
    ensures p in ProductListResults(cats, ps, categorySlug, query, sort).value
        <==> && p in ps && p.active
             && (Given(categorySlug) ==> p.categoryId == FindCategory(cats, categorySlug.value).value.id)
             && (Given(query) ==> MatchesQuery(cats, p, query.value))
  {
    var results := ProductListResults(cats, ps, categorySlug, query, sort).value;
    var active := Filter(ps, IsActive);
    var cat := if Given(categorySlug) then FindCategory(cats, categorySlug.value) else None;
    var inCategory := if cat.Some? then Filter(active, (q: Product) => q.categoryId == cat.value.id) else active;
    var matched := if Given(query) then Filter(inCategory, (q: Product) => MatchesQuery(cats, q, query.value)) else inCategory;
    assert results == SortBy(matched, OrderKey(sort));
    SortByMembers(matched, OrderKey(sort), p);
  }

  /**
   * The `sort` parameter orders the list: `price_low` by non-decreasing price,
   * `price_high` by non-increasing price, `rating` by non-increasing rating,
   * and anything else newest first.
   */
  lemma ProductListOrder(cats: seq<Category>, ps: seq<Product>, categorySlug: Option<string>,
                         query: Option<string>, sort: Option<string>, i: nat, j: nat)
    requires ProductListResults(cats, ps, categorySlug, query, sort).Found?
    requires i < j < |ProductListResults(cats, ps, categorySlug, query, sort).value|
    ensures var r := ProductListResults(cats, ps, categorySlug, query, sort).value;
      if sort == Some("price_low") then r[i].price <= r[j].price
      else if sort == Some("price_high") then r[i].price >= r[j].price
      else if sort == Some("rating") then r[i].rating >= r[j].rating
      else r[i].createdAt >= r[j].createdAt
  {
    var r := ProductListResults(cats, ps, categorySlug, query, sort).value;
    assert SortedBy(r, OrderKey(sort));
    assert OrderKey(sort)(r[i]) <= OrderKey(sort)(r[j]);
  }

  /**
   * A page of the product list holds at most `PerPage` products, each of them
   * a listed result: a corollary of the window clause of `ProductList`.
   */
  lemma ProductListPage(cats: seq<Category>, ps: seq<Product>, categorySlug: Option<string>,
                        query: Option<string>, sort: Option<string>, page: Option<int>, p: Product)
    requires ProductList(cats, ps, categorySlug, query, sort, page).Found?
    ensures |ProductList(cats, ps, categorySlug, query, sort, page).value.items| <= PerPage
    ensures p in ProductList(cats, ps, categorySlug, query, sort, page).value.items ==>
              p in ProductListResults(cats, ps, categorySlug, query, sort).value
  {
    var pg := ProductList(cats, ps, categorySlug, query, sort, page).value;
    if p in pg.items {
      var k :| 0 <= k < |pg.items| && pg.items[k] == p;
    }
  }

  /**
   * Every result of the product list is served: asking for page `i / 12 + 1`
   * gets that page, holding result `i` at position `i % 12`.
   */
  lemma ProductListComplete(cats: seq<Category>, ps: seq<Product>, categorySlug: Option<string>,
                            query: Option<string>, sort: Option<string>, i: nat)
    requires ProductListResults(cats, ps, categorySlug, query, sort).Found?
    requires i < |ProductListResults(cats, ps, categorySlug, query, sort).value|
    ensures var pg := ProductList(cats, ps, categorySlug, query, sort, Some(i / PerPage + 1)).value;
      && pg.number == i / PerPage + 1
      && i % PerPage < |pg.items|
      && pg.items[i % PerPage] == ProductListResults(cats, ps, categorySlug, query, sort).value[i]
  {
    var results := ProductListResults(cats, ps, categorySlug, query, sort).value;
    EveryRecordOnItsPage(results, i);
    assert GetPage(results, Some(i / PerPage + 1)).items == PageAt(results, i / PerPage + 1);
  }

  /** Search returns exactly the active products matching a non-empty query, and nothing for an empty one. */
  lemma SearchMembers(cats: seq<Category>, ps: seq<Product>, query: string, p: Product)
    ensures p in Search(cats, ps, query) <==> query != "" && p in ps && p.active && MatchesQuery(cats, p, query)
  {
  }

  /** Search and the product list filtered by the same non-empty query select the same products. */
  lemma SearchAgreesWithProductList(cats: seq<Category>, ps: seq<Product>, query: string, sort: Option<string>, p: Product)
    requires query != ""
    ensures ProductListResults(cats, ps, None, Some(query), sort).Found?
    ensures p in Search(cats, ps, query) <==> p in ProductListResults(cats, ps, None, Some(query), sort).value
  {
    ProductListMembers(cats, ps, None, Some(query), sort, p);
  }

  /** A search for "phone" finds the active "Smartphone Pro Max" and not the inactive "Phone Case". */
  lemma SearchPhoneExample(cat: Category, smartphone: Product, phoneCase: Product)
    requires cat.name == "Electronics" && smartphone.categoryId == cat.id && phoneCase.categoryId == cat.id
    requires smartphone.name == "Smartphone Pro Max" && smartphone.active
    requires phoneCase.name == "Phone Case" && !phoneCase.active
    ensures Search([cat], [smartphone, phoneCase], "phone") == [smartphone]
  {
    PhoneInSmartphone();
    var keep := (p: Product) => p.active && MatchesQuery([cat], p, "phone");
    var ps := [smartphone, phoneCase];
    assert keep(smartphone) && !keep(phoneCase);
    assert ps[1..] == [phoneCase];
    assert Filter([phoneCase], keep) == [];
    assert Filter(ps, keep) == [smartphone];
  }

  /**
   * The home page shows at most 8 featured active products (all of them when
   * fewer than 8 are shown), the first 6 categories, and at most 8 active
   * products, newest first (again all of them when fewer than 8 are shown).
   */
  lemma IndexProperties(cats: seq<Category>, ps: seq<Product>)
    ensures var h := Index(cats, ps);
      && |h.featured| <= 8 && |h.categories| <= 6 && |h.latest| <= 8
      && (forall p :: p in h.featured ==> p in ps && p.featured && p.active)
      && (forall p :: |h.featured| < 8 && p in ps && p.featured && p.active ==> p in h.featured)
      && h.categories == Take(cats, 6)
      && (forall p :: p in h.latest ==> p in ps && p.active)
      && (forall p :: |h.latest| < 8 && p in ps && p.active ==> p in h.latest)
      && (forall i, j :: 0 <= i < j < |h.latest| ==> h.latest[i].createdAt >= h.latest[j].createdAt)
  {
    var h := Index(cats, ps);
    var active := Filter(ps, IsActive);
    var sorted := SortBy(active, NewestKey);
    assert h.latest == Take(sorted, 8);
    forall p | p in h.latest ensures p in ps && p.active {
      SortByMembers(active, NewestKey, p);
    }
    forall p | |h.latest| < 8 && p in ps && p.active ensures p in h.latest {
      SortByMembers(active, NewestKey, p);
    }
    forall i, j | 0 <= i < j < |h.latest| ensures h.latest[i].createdAt >= h.latest[j].createdAt {
      assert NewestKey(sorted[i]) <= NewestKey(sorted[j]);
    }
  }

  /** No active product left off the home page's newest list is newer than one on it. */
  lemma IndexLatestAreNewest(cats: seq<Category>, ps: seq<Product>, p: Product, k: nat)
    requires p in ps && p.active && p !in Index(cats, ps).latest && k < |Index(cats, ps).latest|
    ensures p.createdAt <= Index(cats, ps).latest[k].createdAt
  {
    var latest := Index(cats, ps).latest;
    var active := Filter(ps, IsActive);
    var sorted := SortBy(active, NewestKey);
    assert latest == Take(sorted, 8);
    SortByMembers(active, NewestKey, p);
    var j :| 0 <= j < |sorted| && sorted[j] == p;
    assert j >= |latest|;
    assert latest[k] == sorted[k];
    assert NewestKey(sorted[k]) <= NewestKey(sorted[j]);
  }

  /** The category page is not found exactly for an unknown slug; its page holds only that category's active products. */
  lemma CategoryProductsMembers(cats: seq<Category>, ps: seq<Product>, slug: string, page: Option<int>, p: Product)
    ensures CategoryProducts(cats, ps, slug, page).NotFound? <==> forall c :: c in cats ==> c.slug != slug
    ensures CategoryProducts(cats, ps, slug, page).Found? ==>
      |CategoryProducts(cats, ps, slug, page).value.items| <= PerPage &&
      (p in CategoryProducts(cats, ps, slug, page).value.items ==>
         p in ps && p.active && p.categoryId == FindCategory(cats, slug).value.id)
  {
    match FindCategory(cats, slug)
    case None =>
    case Some(c) =>
      var members := Filter(ps, (q: Product) => q.categoryId == c.id && q.active);
      var pg := GetPage(members, page);
      if p in pg.items {
        var k :| 0 <= k < |pg.items| && pg.items[k] == p;
        assert p == members[(pg.number - 1) * PerPage + k];
      }
  }

  /** Every active product of the category is served: asking for its page gets a page holding it. */
  lemma CategoryProductsComplete(cats: seq<Category>, ps: seq<Product>, slug: string, c: Category, i: nat)
    requires FindCategory(cats, slug) == Some(c)
    requires i < |Filter(ps, (q: Product) => q.categoryId == c.id && q.active)|
    ensures CategoryProducts(cats, ps, slug, Some(i / PerPage + 1)).Found?
    ensures Filter(ps, (q: Product) => q.categoryId == c.id && q.active)[i]
              in CategoryProducts(cats, ps, slug, Some(i / PerPage + 1)).value.items
  {
    var members := Filter(ps, (q: Product) => q.categoryId == c.id && q.active);
    EveryRecordOnItsPage(members, i);
    var pg := CategoryProducts(cats, ps, slug, Some(i / PerPage + 1)).value;
    assert pg == GetPage(members, Some(i / PerPage + 1));
    assert pg.items[i % PerPage] == members[i];
  }

  /**
   * Related products are at most four other active products of the same
   * category; when fewer than four are shown, every such product is shown.
   */
  lemma RelatedProductsProperties(ps: seq<Product>, product: Product, p: Product)
    ensures |RelatedProducts(ps, product)| <= 4
    ensures p in RelatedProducts(ps, product) ==>
              p in ps && p.active && p.categoryId == product.categoryId && p.id != product.id
    ensures (|RelatedProducts(ps, product)| < 4 && p in ps && p.active &&
             p.categoryId == product.categoryId && p.id != product.id) ==> p in RelatedProducts(ps, product)
  {
    var all := Filter(ps, (q: Product) => q.categoryId == product.categoryId && q.active && q.id != product.id);
    if p in RelatedProducts(ps, product) {
      var k :| 0 <= k < |RelatedProducts(ps, product)| && RelatedProducts(ps, product)[k] == p;
      assert p == all[k];
    }
  }
}
