# pyshop storefront core, modelled in Dafny

This project models the request handlers of the storefront's `products` app
(`products/views.py`), in two parts.

**The shopping cart, reviews and the rating write-back** change stored
records, so they are a class. `Shop.Store` holds these tables:

- products, as a map keyed by id;
- reviews;
- carts, as a map keyed by owner, where an owner is a signed-in user or an
  anonymous session;
- line items, as a map keyed by item id;
- the id and session-key counters.

Each handler is a method on the store:

- `get_cart`;
- `add_to_cart`, split into `PutItem`, `CreateItem` and `MergeItem`;
- `update_cart`;
- `remove_from_cart`;
- `add_review`;
- the rating write in `product_detail`, done by `SetRating`.

Every method keeps the store's integrity rules (`Store.Valid`):

- one cart per owner, and session keys only ones that were issued;
- every line item is in a cart whose id was already handed out, and of an
  existing product;
- no line item holds more than its product's stock;
- at most one line item per (cart, product);
- at most one review per (product, user);
- unique product slugs.

Each method's postcondition gives the whole new state and the outcome for
every branch of the handler.

**The read-only catalog queries** are functions over the category and
product tables, taken as sequences in the database's default order. They
are `index`, `product_list`, `search`, `category_products` and the related
products of `product_detail`. They are built from small pieces:

- `Text`: the case-insensitive substring test that `icontains` performs, on
  ASCII lower case.
- `Sorting`: a sort by one integer key, used for `order_by`. By construction
  it keeps the input order among equal keys, though no lemma states this.
- `Paging`: the `Paginator(…, 12).get_page` that the list views use.
- `Rating`: the product rating in tenths of a star. It is the mean of the
  first ten reviews, rounded half to even.

Lemmas state what the views promise:

- who sees which products;
- in what order and on which page;
- that a written rating stays within the ratings it averages;
- that the cart rules survive every operation.

## Model

| member | source | states |
|---|---|---|
| Common.Take | products/views.py:16-18 | A slice `[:n]` is the first `min(n, len)` records, in order. |
| Text.Lower | products/views.py:43-45 | Lower-casing keeps the length, maps each character by itself, and leaves no ASCII capital. |
| Text.LowerIdempotent | products/views.py:43-45 | Lower-casing twice is lower-casing once. |
| Text.Contains | products/views.py:43-45 | The recursive substring test holds exactly when the needle occurs at some position of the haystack. |
| Text.EmptyNeedleAlwaysContained | products/views.py:43-45 | An empty pattern is contained in every text, which is why the views only filter on a non-empty query. |
| Text.IContainsIgnoresCase | products/views.py:43-45 | The `icontains` test gives the same answer whatever the letter case of either side. |
| Text.IContains | products/views.py:43-45 | `icontains` holds exactly when the lower-cased pattern occurs at some position of the lower-cased text. |
| Text.PhoneInSmartphone | products/views.py:241-243 | "phone" is contained in "Smartphone Pro Max" and in "Phone Case", ignoring case. |
| Sorting.SortBy | products/views.py:50-57 | `order_by` on one key returns a permutation of its input with non-decreasing keys. |
| Sorting.InsertSorted | products/views.py:50-57 | Inserting into a key-sorted sequence keeps it sorted. |
| Sorting.InsertPermutes | products/views.py:50-57 | Inserting adds exactly the inserted record to the multiset of records. |
| Sorting.SortByLength | products/views.py:50-57 | Ordering neither drops nor duplicates records, so the length is unchanged. |
| Sorting.SortByMembers | products/views.py:50-57 | A record is in the ordered result exactly when it is in the input. |
| Paging.NumPages | products/views.py:60 | There is at least one page, and just enough pages of 12 to hold every record. |
| Paging.PageNumber | products/views.py:61-62 | `get_page` always returns a page between 1 and the page count. A missing page number gives page 1, an in-range one is honoured, and any out-of-range one gives the last page. |
| Paging.PageAt | products/views.py:60-62 | Page `n` holds at most 12 records, namely the ones at positions `12(n-1)` onwards, in order. |
| Paging.GetPage | products/views.py:60-62 | The page served is the one `PageNumber` picks: page 1 for a missing number, the requested page when it is in range, the last page otherwise. It has the right page count and holds that page's whole window `PageAt`: at most 12 records, namely the records starting at position `12(number-1)`, in order. |
| Paging.EveryRecordOnItsPage | products/views.py:60-62 | Record `i` is on page `i/12 + 1` at position `i mod 12`, so no record is lost between pages. |
| Paging.PageSizes | products/views.py:60-62 | Every page but the last is full, and the last holds the remainder. A page is empty only when there are no records. |
| Paging.TwentyFiveRecords | products/views.py:104-106 | With 25 records there are 3 pages. Page 1 holds 12 and page 3 holds 1. Page 99, page 0 and a missing page number give pages 3, 3 and 1. |
| Catalog.Filter | products/views.py:30 | `filter` keeps a record exactly when it is in the input and satisfies the condition, and returns no more records than the input. |
| Catalog.FilterCounts | products/views.py:30 | `filter` never adds or duplicates a record: an accepted record appears exactly as often as in the input, and a rejected one not at all. |
| Catalog.FindCategory | products/views.py:36 | `get_object_or_404(Category, slug=…)` finds a category with that slug, or none exists. |
| Catalog.CategoryName | products/views.py:45 | `category__name` is the name of a category carrying the product's category id whenever such a category exists, and is a real category's name whenever it is not empty. |
| Catalog.ProductListResults | products/views.py:30-57 | The filtered results are at most the products in the table, ordered by the key that `sort` selects. |
| Catalog.ProductList | products/views.py:28-71 | The list view is found exactly when its results are. The page served has the results' page count, and its number is the one `get_page` picks: page 1 for a missing number, the requested page in range, the last page otherwise. It holds that page's whole window of the results: at most 12 products, namely the results from position `12(number-1)` onwards, in order. |
| Catalog.ProductListNotFound | products/views.py:34-37 | The product list is not found exactly when a non-empty category slug is given and no category carries it. |
| Catalog.ProductListMembers | products/views.py:30-46 | The list holds exactly the active products that satisfy the given filters. The category filter applies when a category is given. The name, description or category-name match applies when a non-empty query is given. An absent or empty query applies no text filter. |
| Catalog.ProductListOrder | products/views.py:49-57 | Sort values order the list as follows. `price_low`: non-decreasing price. `price_high`: non-increasing price. `rating`: non-increasing rating. Any other value: newest first. |
| Catalog.ProductListPage | products/views.py:59-62 | A page of the product list holds at most 12 products, each of them a listed result (a corollary of the window clause of `ProductList`). |
| Catalog.ProductListComplete | products/views.py:59-62 | Every result is served: requesting page `i/12 + 1` gets that page, holding result `i` at position `i mod 12`. |
| Catalog.Search | products/views.py:234-245 | Search returns at most the products in the table, and nothing for an empty query. |
| Catalog.SearchMembers | products/views.py:234-245 | Search returns exactly the active products whose name, description or category name contains the query, ignoring case. An empty query returns nothing. |
| Catalog.SearchAgreesWithProductList | products/views.py:234-245 | For the same non-empty query, search and the uncategorised product list select the same products. |
| Catalog.SearchPhoneExample | products/views.py:240-245 | A search for "phone" finds the active "Smartphone Pro Max" but not the inactive "Phone Case". |
| Catalog.Index | products/views.py:14-18 | The home page lists hold at most 8, 6 and 8 entries. |
| Catalog.IndexProperties | products/views.py:14-25 | The home page shows at most 8 featured active products, and all of them when fewer than 8 are shown. It shows the first 6 categories and at most 8 active products, newest first, and all active products when fewer than 8 are shown. |
| Catalog.IndexLatestAreNewest | products/views.py:18 | No active product missing from the home page's newest list is newer than one on it. |
| Catalog.CategoryProductsMembers | products/views.py:98-112 | The category page is not found exactly when no category has the slug. Otherwise its page holds at most 12 products, all active and of that category. |
| Catalog.CategoryProductsComplete | products/views.py:100-106 | Every active product of the category is served: requesting its page `i/12 + 1` gets a page holding it. |
| Catalog.CategoryProducts | products/views.py:98-106 | The category page is found exactly when a category carries the slug. It then has the page count of the category's active products, and its number is the one `get_page` picks: page 1 for a missing number, the requested page in range, the last page otherwise. It holds that page's whole window of those products, at most 12. |
| Catalog.RelatedProductsProperties | products/views.py:78-81 | Related products are at most 4 other active products of the same category. When fewer than 4 are shown, all such products are shown. |
| Catalog.RelatedProducts | products/views.py:78-81 | At most 4 related products are shown, never the product itself. |
| Rating.RoundHalfEven | products/views.py:86 | The rounded value is within half a unit of `x / n`, and a tie goes to the even integer. |
| Rating.RoundHalfEvenUnique | products/views.py:86 | Only one integer is within half a unit of `x / n` and even at a tie. So `RoundHalfEven` is exactly Python's rounding of the mean to one decimal. |
| Rating.NewRating | products/views.py:77-87 | With no reviews nothing is written. A written rating comes from between 1 and 10 reviews. |
| Rating.NewRatingBounds | products/views.py:77-87 | A written rating is the rounded mean of at most the first 10 reviews, and lies between ten times their lowest and ten times their highest rating. |
| Rating.NewRatingIgnoresLaterReviews | products/views.py:77 | Reviews after the tenth never change the rating written. |
| Rating.ValidReviewsWriteRating | products/views.py:84-87 | With at least one review and all ratings from 1 to 5, a rating from 1.0 to 5.0 is always written. |
| Rating.NewRatingExamples | products/views.py:77-87 | Some worked examples: reviews 1,1,1,2 give 1.2 and 1,2,2,2 give 1.8 (ties go to even); 4,5 give 4.5. No reviews means no write. An eleventh review is ignored. |
| Shop.GetOrCreateProperties | products/views.py:138-144 | `get_or_create` binds the owner to a cart and keeps one cart per owner. It leaves other owners' carts alone, and a second call returns the same cart and changes nothing. |
| Shop.GetOrCreate | products/views.py:138-144 | The owner ends up bound to the returned cart. An existing binding is returned unchanged. Otherwise a new cart takes the next id, and only the owner is added to the table. |
| Shop.ReviewsOf | products/views.py:77 | A product's reviews are exactly the stored reviews of that product. |
| Shop.ItemsValidAfterNewCart | products/views.py:138-144 | Creating a cart keeps every line-item rule. |
| Shop.ItemsValidAfterInsert | products/views.py:159-163 | A new item for a (cart, product) pair that has none, within stock, keeps the line items unique and within stock. |
| Shop.ItemsValidAfterSetQuantity | products/views.py:170-171 | Setting a quantity within the product's stock keeps every line-item rule. |
| Shop.ItemsValidAfterDelete | products/views.py:203 | Deleting an item keeps every line-item rule. |
| Shop.RatingWritePreservesValidity | products/views.py:86-87 | Overwriting a rating changes no id, slug or stock, so the product and line-item rules still hold. |
| Shop.Store.GetCart | products/views.py:135-145 | An authenticated request gets the user's cart. Otherwise the request gets the cart of its session key, and a key is created only when the request has none. The cart is reused if bound and created otherwise, and the store stays valid. |
| Shop.Store.AddToCart | products/views.py:148-176 | An inactive or unknown product is not found and changes nothing. A quantity above the stock is refused after the cart is resolved, with no line item changed. Otherwise the line item is placed as `PutItem` says. Stock is never changed. |
| Shop.Store.PutItem | products/views.py:159-174 | A (cart, product) pair with no item gets a new item with the requested quantity. Otherwise the existing item grows to old plus requested when that stays within stock, and stays exactly as it was when it does not. No second item is ever made for the pair. |
| Shop.Store.CreateItem | products/views.py:159-163 | The new item takes the next id with the requested quantity, and nothing else changes. |
| Shop.Store.MergeItem | products/views.py:165-172 | The item becomes old plus requested exactly when that is within stock. Otherwise it is unchanged. |
| Shop.Store.UpdateCart | products/views.py:188-206 | An item of another cart, or a missing one, is not found and the items are unchanged. For the caller's item, the new quantity decides the outcome. Zero or less: the item is deleted. From 1 up to the stock: the quantity is set exactly. Above the stock: the item is unchanged. |
| Shop.Store.RemoveFromCart | products/views.py:209-217 | An item of another cart, or a missing one, is not found and the items are unchanged. Otherwise exactly that item is deleted. |
| Shop.Store.AddReview | products/views.py:115-132 | Without a signed-in user the request is refused. An unknown slug is not found, and the product need not be active. Without a valid POST, nothing happens. Otherwise exactly one review is appended, unless the user already reviewed the product, in which case the reviews are unchanged. |
| Shop.Store.ProductDetail | products/views.py:74-95 | An unknown or inactive slug is not found. Otherwise the page shows the product and its first 10 reviews. The product's rating becomes their rounded mean when there is one, and is left alone otherwise. No id or stock changes. |
| Shop.Store.SetRating | products/views.py:85-87 | Exactly one product's rating is overwritten, with its id, slug and stock unchanged, and the store stays valid. |
| Shop.DetailRatingWithinReviews | products/views.py:77-87 | The rating written on the product page lies between ten times the lowest and ten times the highest rating among the product's reviews. |

## Left out

- The Django ORM, sessions, authentication and `messages`, `redirect` and `render`. The database is the `Store` object, the handlers' results are outcome codes, and message texts and template contexts are not modelled.
- Where the session keys come from. Django draws a new session key at random; here it is the next value of a counter. A caller-supplied key must be one already issued.
- `int(request.POST.get('quantity', 1))` in `add_to_cart` and `update_cart`. The quantity arrives as an integer, and a parse failure is not modelled.
- Parsing of the `page` parameter. It arrives as an optional integer, where none means absent or not an integer.
- Shop.Store.AddToCart: it has no lower bound on the quantity, as in the source (products/views.py:153-155 parses and compares it only against the stock). So `ItemsValid` does not require line-item quantities to be positive.
- Shop.Store.ProductDetail: the page's related products are not assembled by the method. The store keeps products in a map keyed by id, so the related list is the pure `Catalog.RelatedProducts` over the product table in its default order.
- Shop.Store.AddReview: `ReviewForm` validation is a boolean parameter, because `models.py`, which holds the rating range, is not part of this model. The (product, user) uniqueness constraint is modelled as a check before the insert, which is what the failing `save()` amounts to.
- `cart_detail`, `register` and the cart totals (`get_total_items`, `get_total_price`). They render pages or live in `models.py`, which is not part of this model.
- `products/admin.py`, `products/forms.py`, `products/urls.py`, `products/management/commands/populate_products.py` and `static/js/main.js`. They are declarative configuration, a data-seeding script and browser code, and `usage_status` in the admin is floating-point arithmetic.
- The database's order among equal sort keys, and the default ordering of reviews and categories. Queries run over the tables as given; the sort keeps the input order among equal keys, and reviews are kept in insertion order.
- Catalog.Filter: the body keeps the accepted records in their input order, but no clause states that order; the contracts state membership and, through `FilterCounts`, the exact number of copies of each record.
- Races between concurrent requests. Each method runs alone, as one request.
- Paging.PageNumber: a page number below 1 is served as the last page, which is what Django's `Paginator.get_page` does (it answers every out-of-range number with the last page), rather than the nearest page, which would be page 1.
- Prices are integer cents, and ratings are integer tenths. The rounding is exact for means of at most ten integers, because any such mean at a tie is a multiple of a quarter.
