/**
 * The storefront's mutable state and the request handlers that change it:
 * cart resolution, adding, updating and removing line items, submitting a
 * review, and the rating write-back of the product page. The database is one
 * `Store` object whose tables are maps keyed by primary key; each handler is a
 * method that changes them.
 */
module Shop {
  import opened Common
  import opened Catalog
  import opened Rating

  type UserId = nat
  type SessionKey = nat

  /** Who a cart belongs to: a signed-in user, or else an anonymous browser session. */
  datatype Owner = User(user: UserId) | Session(key: SessionKey)

  /** A line item: `quantity` units of the product with id `product` in the cart with id `cart`. */
  datatype Item = Item(cart: nat, product: nat, quantity: int)

  datatype Review = Review(product: nat, user: UserId, rating: int, title: string, comment: string)

  /** The fields a review form submits. */
  datatype ReviewForm = ReviewForm(rating: int, title: string, comment: string)

  datatype AddOutcome = NoSuchProduct | OverStock | ItemCreated | ItemMerged | MergeOverStock
  datatype UpdateOutcome = UpdateNotFound | ItemDeleted | QuantitySet | UpdateOverStock
  datatype RemoveOutcome = RemoveNotFound | ItemRemoved
  datatype ReviewOutcome = LoginRequired | ReviewNotFound | NotSubmitted | ReviewAdded | AlreadyReviewed
  datatype DetailPage = DetailPage(product: Product, reviews: seq<Review>)

  /** The owner `get_cart` resolves: the user when signed in, else the session, else the session about to be created. */
  function RequestOwner(user: Option<UserId>, session: Option<SessionKey>, nextKey: SessionKey): Owner
  {
    if user.Some? then User(user.value)
    else if session.Some? then Session(session.value)
    else Session(nextKey)
  }

  /** `Cart.objects.get_or_create`: the owner's cart, or a new one with the next id. Returns (cart, table, next id). */
  function GetOrCreate(carts: map<Owner, nat>, nextId: nat, o: Owner): (r: (nat, map<Owner, nat>, nat))
    ensures o in r.1 && r.1[o] == r.0
    ensures o in carts ==> r == (carts[o], carts, nextId)
    ensures o !in carts ==> r.0 == nextId && r.2 == nextId + 1 && r.1.Keys == carts.Keys + {o}
  {
    if o in carts then (carts[o], carts, nextId) else (nextId, carts[o := nextId], nextId + 1)
  }

  /** Cart ids are below the next id and no two owners share a cart. */
  ghost predicate CartTableValid(carts: map<Owner, nat>, nextId: nat)
  {
    && (forall o :: o in carts ==> carts[o] < nextId)
    && (forall o1, o2 :: o1 in carts && o2 in carts && carts[o1] == carts[o2] ==> o1 == o2)
  }

  /**
   * Resolving a cart returns the cart the owner is now bound to, keeps the
   * table valid, leaves every other owner's cart alone, and a second
   * resolution for the same owner returns the same cart and changes nothing.
   */
  lemma GetOrCreateProperties(carts: map<Owner, nat>, nextId: nat, o: Owner)
    requires CartTableValid(carts, nextId)
    ensures var (c, carts', nextId') := GetOrCreate(carts, nextId, o);
      && o in carts' && carts'[o] == c
      && CartTableValid(carts', nextId')
      && (forall o' :: o' in carts && o' != o ==> o' in carts' && carts'[o'] == carts[o'])
      && carts.Keys <= carts'.Keys
      && GetOrCreate(carts', nextId', o) == (c, carts', nextId')
  {
  }

  /** Every session key that owns a cart was handed out before `nextKey`. */
  ghost predicate SessionsIssued(carts: map<Owner, nat>, nextKey: SessionKey)
  {
    forall k: SessionKey :: Session(k) in carts ==> k < nextKey
  }

  /** Each product is stored under its own id, and no two products share a slug. */
  ghost predicate ProductTableValid(products: map<nat, Product>)
  {
    && (forall id :: id in products ==> products[id].id == id)
    && (forall a, b :: a in products && b in products && products[a].slug == products[b].slug ==> a == b)
  }

  /** One line item is in a cart whose id was already handed out, of an existing product, and within that product's stock. */
  ghost predicate ItemValid(item: Item, nextCart: nat, products: map<nat, Product>)
  {
    item.cart < nextCart && item.product in products && item.quantity <= products[item.product].stock
  }

  /**
   * Line items: ids below the next id, each valid as above, and at most one
   * item per (cart, product).
   */
  ghost predicate ItemsValid(items: map<nat, Item>, nextCart: nat, products: map<nat, Product>, nextId: nat)
  {
    && (forall id :: id in items ==> id < nextId && ItemValid(items[id], nextCart, products))
    && (forall a, b :: (a in items && b in items && items[a].cart == items[b].cart &&
                        items[a].product == items[b].product) ==> a == b)
  }

  ghost predicate UniqueReviews(reviews: seq<Review>)
  {
    forall i, j :: 0 <= i < j < |reviews| ==>
      reviews[i].product != reviews[j].product || reviews[i].user != reviews[j].user
  }

  /** The cart `cart` already has a line item for product `product`. */
  ghost predicate HasItem(items: map<nat, Item>, cart: nat, product: nat)
  {
    exists id :: id in items && items[id].cart == cart && items[id].product == product
  }

  /** Some product carries `slug` (and is active, when `activeOnly`). */
  ghost predicate HasSlug(products: map<nat, Product>, slug: string, activeOnly: bool)
  {
    exists id :: id in products && products[id].slug == slug && (activeOnly ==> products[id].active)
  }

  /** The reviews of product `pid`, in table order. */
  function ReviewsOf(reviews: seq<Review>, pid: nat): (r: seq<Review>)
    ensures forall v :: v in r <==> v in reviews && v.product == pid
  {
    if reviews == [] then []
    else
      assert reviews == [reviews[0]] + reviews[1..];
      (if reviews[0].product == pid then [reviews[0]] else []) + ReviewsOf(reviews[1..], pid)
  }

  function Ratings(reviews: seq<Review>): (r: seq<int>)
    ensures |r| == |reviews| && forall i :: 0 <= i < |r| ==> r[i] == reviews[i].rating
  {
    seq(|reviews|, i requires 0 <= i < |reviews| => reviews[i].rating)
  }

  predicate HasReviewed(reviews: seq<Review>, pid: nat, user: UserId)
  {
    exists k :: 0 <= k < |reviews| && reviews[k].product == pid && reviews[k].user == user
  }

  /**
   * Placing `quantity` units of product `product` (with `stock` units in
   * stock) in cart `cart` took the item table from `items` to `items'`: when
   * the cart had no item for the product, item `itemId` was created with the
   * next id; otherwise `itemId` is that item, whose quantity grew by
   * `quantity` when the sum stays within the stock, and which was left as it
   * was when it does not.
   */
  ghost predicate ItemPlaced(items: map<nat, Item>, nextId: nat, items': map<nat, Item>, nextId': nat,
                             cart: nat, product: nat, stock: int, quantity: int, outcome: AddOutcome, itemId: nat)
  {
    && (outcome == ItemCreated || outcome == ItemMerged || outcome == MergeOverStock)
    && ((outcome == ItemCreated) == !HasItem(items, cart, product))
    && (outcome == ItemCreated ==>
          itemId == nextId && nextId' == nextId + 1 && items' == items[itemId := Item(cart, product, quantity)])
    && (outcome != ItemCreated ==>
          && itemId in items && items[itemId].cart == cart && items[itemId].product == product
          && nextId' == nextId
          && (outcome == ItemMerged <==> items[itemId].quantity + quantity <= stock)
          && (outcome == ItemMerged ==>
                items' == items[itemId := items[itemId].(quantity := items[itemId].quantity + quantity)])
          && (outcome == MergeOverStock ==> items' == items))
  }

  /** Making a new cart keeps every line item valid. */
  lemma ItemsValidAfterNewCart(items: map<nat, Item>, nextCart: nat, products: map<nat, Product>, nextId: nat)
    requires ItemsValid(items, nextCart, products, nextId)
    ensures ItemsValid(items, nextCart + 1, products, nextId)
  {
  }

  /** A new line item for a (cart, product) pair that has none, within the product's stock, keeps the items valid. */
  lemma ItemsValidAfterInsert(items: map<nat, Item>, nextCart: nat, products: map<nat, Product>, nextId: nat, item: Item)
    requires ItemsValid(items, nextCart, products, nextId)
    requires item.cart < nextCart && item.product in products && item.quantity <= products[item.product].stock
    requires !HasItem(items, item.cart, item.product)
    ensures ItemsValid(items[nextId := item], nextCart, products, nextId + 1)
  {
  }

  /** Setting an item's quantity to one within its product's stock keeps the items valid. */
  lemma ItemsValidAfterSetQuantity(items: map<nat, Item>, nextCart: nat, products: map<nat, Product>, nextId: nat, id: nat, quantity: int)
    requires ItemsValid(items, nextCart, products, nextId) && id in items
    requires quantity <= products[items[id].product].stock
    ensures ItemsValid(items[id := items[id].(quantity := quantity)], nextCart, products, nextId)
  {
  }

  /** Deleting an item keeps the items valid. */
  lemma ItemsValidAfterDelete(items: map<nat, Item>, nextCart: nat, products: map<nat, Product>, nextId: nat, id: nat)
    requires ItemsValid(items, nextCart, products, nextId)
    ensures ItemsValid(items - {id}, nextCart, products, nextId)
  {
  }

  /** Overwriting one product's rating changes no id, slug or stock, so the product and item rules still hold. */
  lemma RatingWritePreservesValidity(items: map<nat, Item>, nextCart: nat, products: map<nat, Product>, nextId: nat, pid: nat, rating: int)
    requires pid in products
    requires ProductTableValid(products) && ItemsValid(items, nextCart, products, nextId)
    ensures ProductTableValid(products[pid := products[pid].(rating := rating)])
    ensures ItemsValid(items, nextCart, products[pid := products[pid].(rating := rating)], nextId)
  {
  }

  class Store {
    /** The product table, keyed by product id. */
    var products: map<nat, Product>
    var reviews: seq<Review>
    /** The cart table, keyed by owner. */
    var carts: map<Owner, nat>
    /** The line-item table, keyed by item id. */
    var items: map<nat, Item>
    var nextCartId: nat
    var nextItemId: nat
    /** Session keys handed out so far are exactly those below this one. */
    var nextSessionKey: SessionKey

    /**
     * The store's integrity rules: a valid product table, a valid cart table
     * whose session keys were all handed out, valid line items, and at most one
     * review per (product, user).
     */
    ghost predicate Valid()
      reads this
    {
      && ProductTableValid(products)
      && CartTableValid(carts, nextCartId)
      && SessionsIssued(carts, nextSessionKey)
      && ItemsValid(items, nextCartId, products, nextItemId)
      && UniqueReviews(reviews)
    }

    constructor (products: map<nat, Product>)
      requires ProductTableValid(products)
      ensures Valid()
      ensures this.products == products && reviews == [] && carts == map[] && items == map[]
    {
      this.products := products;
      reviews := [];
      carts := map[];
      items := map[];
      nextCartId := 0;
      nextItemId := 0;
      nextSessionKey := 0;
    }

    /**
     * After a cart resolution: the request's owner is bound to `cart` (an
     * existing binding is reused, otherwise a cart with the next id is made),
     * and a session key is minted only for an anonymous request without one.
     */
    twostate predicate CartResolved(user: Option<UserId>, session: Option<SessionKey>, new cart: nat, new session': Option<SessionKey>)
      reads this
    {
      var minted := user.None? && session.None?;
      var o := RequestOwner(user, session, old(nextSessionKey));
      && session' == (if minted then Some(old(nextSessionKey)) else session)
      && nextSessionKey == (if minted then old(nextSessionKey) + 1 else old(nextSessionKey))
      && (cart, carts, nextCartId) == GetOrCreate(old(carts), old(nextCartId), o)
    }

    /** `get_cart`: resolve or create the cart of the requesting user, or else of its session. */
    method GetCart(user: Option<UserId>, session: Option<SessionKey>) returns (cart: nat, session': Option<SessionKey>)
      requires Valid()
      requires user.None? && session.Some? ==> session.value < nextSessionKey
      modifies this`carts, this`nextCartId, this`nextSessionKey
      ensures Valid()
      ensures CartResolved(user, session, cart, session')
      ensures cart < nextCartId
    {
      session' := session;
      var o: Owner;
      if user.Some? {
        o := User(user.value);
      } else {
        if session.None? {
          session' := Some(nextSessionKey);
          nextSessionKey := nextSessionKey + 1;
        }
        o := Session(session'.value);
      }
      GetOrCreateProperties(carts, nextCartId, o);
      if o in carts {
        cart := carts[o];
      } else {
        cart := nextCartId;
        ItemsValidAfterNewCart(items, nextCartId, products, nextItemId);
        carts := carts[o := cart];
        nextCartId := nextCartId + 1;
      }
    }

    /**
     * `add_to_cart`: only an active product can be added; the cart is resolved;
     * a quantity above the stock is refused; otherwise the line item is placed
     * as `ItemPlaced` describes. The quantity has no lower bound.
     */
    method AddToCart(user: Option<UserId>, session: Option<SessionKey>, productId: nat, quantity: int)
      returns (outcome: AddOutcome, session': Option<SessionKey>, ghost cart: nat, ghost itemId: nat)
      requires Valid()
      requires user.None? && session.Some? ==> session.value < nextSessionKey
      modifies this`carts, this`nextCartId, this`nextSessionKey, this`items, this`nextItemId
      ensures Valid()
      ensures outcome == NoSuchProduct <==> !(productId in products && products[productId].active)
      ensures outcome == NoSuchProduct ==>
        && carts == old(carts) && nextCartId == old(nextCartId) && nextSessionKey == old(nextSessionKey)
        && session' == session && items == old(items) && nextItemId == old(nextItemId)
      ensures outcome != NoSuchProduct ==> CartResolved(user, session, cart, session')
      ensures outcome == OverStock <==> outcome != NoSuchProduct && quantity > products[productId].stock
      ensures outcome == OverStock ==> items == old(items) && nextItemId == old(nextItemId)
      ensures outcome != NoSuchProduct && outcome != OverStock ==>
        ItemPlaced(old(items), old(nextItemId), items, nextItemId, cart, productId, products[productId].stock,
                   quantity, outcome, itemId)
    {
      if !(productId in products && products[productId].active) {
        outcome, session', cart, itemId := NoSuchProduct, session, 0, 0;
        return;
      }
      var c;
      c, session' := GetCart(user, session);
      cart := c;
      if quantity > products[productId].stock {
        outcome, itemId := OverStock, 0;
        return;
      }
      var id;
      outcome, id := PutItem(c, productId, quantity);
      itemId := id;
    }

    /**
     * The second half of `add_to_cart`: `get_or_create` of the (cart, product)
     * line item with the quantity, and for an existing item the merge that
     * stays within the stock or does nothing.
     */
    method PutItem(c: nat, productId: nat, quantity: int) returns (outcome: AddOutcome, itemId: nat)
      requires Valid()
      requires c < nextCartId && productId in products && quantity <= products[productId].stock
      modifies this`items, this`nextItemId
      ensures Valid()
      ensures ItemPlaced(old(items), old(nextItemId), items, nextItemId, c, productId, products[productId].stock,
                         quantity, outcome, itemId)
    {
      if exists id :: id in items && items[id].cart == c && items[id].product == productId {
        itemId :| itemId in items && items[itemId].cart == c && items[itemId].product == productId;
        outcome := MergeItem(itemId, quantity);
      } else {
        itemId := CreateItem(c, productId, quantity);
        outcome := ItemCreated;
      }
    }

    /** A new line item for a (cart, product) pair without one, within the stock, under the next item id. */
    method CreateItem(c: nat, productId: nat, quantity: int) returns (itemId: nat)
      requires Valid()
      requires c < nextCartId && productId in products && quantity <= products[productId].stock
      requires !HasItem(items, c, productId)
      modifies this`items, this`nextItemId
      ensures Valid()
      ensures itemId == old(nextItemId) && nextItemId == old(nextItemId) + 1
      ensures items == old(items)[itemId := Item(c, productId, quantity)]
    {
      ItemsValidAfterInsert(items, nextCartId, products, nextItemId, Item(c, productId, quantity));
      itemId := nextItemId;
      items := items[itemId := Item(c, productId, quantity)];
      nextItemId := nextItemId + 1;
    }

    /** Grows an existing item by `quantity` when the sum stays within its product's stock; otherwise changes nothing. */
    method MergeItem(itemId: nat, quantity: int) returns (outcome: AddOutcome)
      requires Valid() && itemId in items
      modifies this`items
      ensures Valid()
      ensures var item := old(items)[itemId];
        && (outcome == ItemMerged <==> item.quantity + quantity <= products[item.product].stock)
        && (outcome == ItemMerged ==> items == old(items)[itemId := item.(quantity := item.quantity + quantity)])
        && (outcome != ItemMerged ==> outcome == MergeOverStock && items == old(items))
    {
      var item := items[itemId];
      var newQuantity := item.quantity + quantity;
      if newQuantity > products[item.product].stock {
        outcome := MergeOverStock;
      } else {
        ItemsValidAfterSetQuantity(items, nextCartId, products, nextItemId, itemId, newQuantity);
        items := items[itemId := item.(quantity := newQuantity)];
        outcome := ItemMerged;
      }
    }

    /**
     * `update_cart`: the item must belong to the caller's resolved cart (else
     * not found, nothing changes); a quantity of 0 or less deletes it, one up
     * to the product's stock becomes its quantity, a larger one is refused.
     */
    method UpdateCart(user: Option<UserId>, session: Option<SessionKey>, itemId: nat, quantity: int)
      returns (outcome: UpdateOutcome, session': Option<SessionKey>, ghost cart: nat)
      requires Valid()
      requires user.None? && session.Some? ==> session.value < nextSessionKey
      modifies this`carts, this`nextCartId, this`nextSessionKey, this`items
      ensures Valid()
      ensures CartResolved(user, session, cart, session')
      ensures outcome == UpdateNotFound <==> itemId !in old(items) || old(items)[itemId].cart != cart
      ensures outcome == UpdateNotFound ==> items == old(items)
      ensures outcome != UpdateNotFound ==>
        var item := old(items)[itemId];
        var stock := products[item.product].stock;
        && (outcome == ItemDeleted <==> quantity <= 0)
        && (outcome == QuantitySet <==> 0 < quantity <= stock)
        && (outcome == UpdateOverStock <==> 0 < quantity && stock < quantity)
        && (outcome == ItemDeleted ==> items == old(items) - {itemId})
        && (outcome == QuantitySet ==> items == old(items)[itemId := item.(quantity := quantity)])
        && (outcome == UpdateOverStock ==> items == old(items))
    {
      var c;
      c, session' := GetCart(user, session);
      cart := c;
      if itemId !in items || items[itemId].cart != c {
        outcome := UpdateNotFound;
        return;
      }
      var item := items[itemId];
      if quantity > 0 {
        if quantity <= products[item.product].stock {
          ItemsValidAfterSetQuantity(items, nextCartId, products, nextItemId, itemId, quantity);
          items := items[itemId := item.(quantity := quantity)];
          outcome := QuantitySet;
        } else {
          outcome := UpdateOverStock;
        }
      } else {
        ItemsValidAfterDelete(items, nextCartId, products, nextItemId, itemId);
        items := items - {itemId};
        outcome := ItemDeleted;
      }
    }

    /** `remove_from_cart`: deletes exactly the given item when it belongs to the caller's resolved cart. */
    method RemoveFromCart(user: Option<UserId>, session: Option<SessionKey>, itemId: nat)
      returns (outcome: RemoveOutcome, session': Option<SessionKey>, ghost cart: nat)
      requires Valid()
      requires user.None? && session.Some? ==> session.value < nextSessionKey
      modifies this`carts, this`nextCartId, this`nextSessionKey, this`items
      ensures Valid()
      ensures CartResolved(user, session, cart, session')
      ensures outcome == RemoveNotFound <==> itemId !in old(items) || old(items)[itemId].cart != cart
      ensures outcome == RemoveNotFound ==> items == old(items)
      ensures outcome == ItemRemoved ==> items == old(items) - {itemId}
    {
      var c;
      c, session' := GetCart(user, session);
      cart := c;
      if itemId !in items || items[itemId].cart != c {
        outcome := RemoveNotFound;
        return;
      }
      ItemsValidAfterDelete(items, nextCartId, products, nextItemId, itemId);
      items := items - {itemId};
      outcome := ItemRemoved;
    }

    /**
     * `add_review`: needs a signed-in user, looks the product up by slug
     * (active or not), and on a valid posted form inserts one review for
     * (product, user); a second review by the same user is refused and the
     * review table is left as it was.
     */
    method AddReview(user: Option<UserId>, slug: string, isPost: bool, formValid: bool, form: ReviewForm)
      returns (outcome: ReviewOutcome, ghost productId: nat)
      requires Valid()
      modifies this`reviews
      ensures Valid()
      ensures user.None? ==> outcome == LoginRequired
      ensures user.Some? && !HasSlug(products, slug, false) ==> outcome == ReviewNotFound
      ensures user.Some? && HasSlug(products, slug, false) && !(isPost && formValid) ==> outcome == NotSubmitted
      ensures user.Some? && HasSlug(products, slug, false) && isPost && formValid ==>
        && productId in products && products[productId].slug == slug
        && (outcome == AlreadyReviewed <==> HasReviewed(old(reviews), productId, user.value))
        && (outcome == ReviewAdded <==> !HasReviewed(old(reviews), productId, user.value))
        && (outcome == ReviewAdded ==>
              reviews == old(reviews) + [Review(productId, user.value, form.rating, form.title, form.comment)])
      ensures outcome != ReviewAdded ==> reviews == old(reviews)
    {
      productId := 0;
      if user.None? {
        return LoginRequired, productId;
      }
      if !exists id :: id in products && products[id].slug == slug {
        return ReviewNotFound, productId;
      }
      var pid :| pid in products && products[pid].slug == slug;
      productId := pid;
      if !(isPost && formValid) {
        return NotSubmitted, productId;
      }
      if HasReviewed(reviews, pid, user.value) {
        return AlreadyReviewed, productId;
      }
      reviews := reviews + [Review(pid, user.value, form.rating, form.title, form.comment)];
      outcome := ReviewAdded;
    }

    /**
     * `product_detail`: an active product looked up by slug (else not found)
     * and its first ten reviews; the product's rating is overwritten with the
     * rounded mean of those reviews when there are any (and their mean is not
     * zero), and left alone otherwise.
     */
    method ProductDetail(slug: string) returns (page: Lookup<DetailPage>)
      requires Valid()
      modifies this`products
      ensures Valid()
      ensures products.Keys == old(products).Keys
      ensures forall id :: id in products ==> products[id].stock == old(products)[id].stock
      ensures page.NotFound? <==> !HasSlug(old(products), slug, true)
      ensures page.NotFound? ==> products == old(products)
      ensures page.Found? ==> page.value.product.id in old(products)
      ensures page.Found? ==>
        var id := page.value.product.id;
        var p := old(products)[id];
        var newRating := NewRating(Ratings(ReviewsOf(reviews, id)));
        && p.slug == slug && p.active
        && page.value.reviews == Take(ReviewsOf(reviews, id), ReviewWindow)
        && (newRating.None? ==> products == old(products) && page.value.product == p)
        && (newRating.Some? ==> products == old(products)[id := p.(rating := newRating.value)] &&
                                page.value.product == p.(rating := newRating.value))
    {
      if !exists id :: id in products && products[id].slug == slug && products[id].active {
        return NotFound;
      }
      var id :| id in products && products[id].slug == slug && products[id].active;
      var product := products[id];
      var ofProduct := ReviewsOf(reviews, id);
      var newRating := NewRating(Ratings(ofProduct));
      if newRating.Some? {
        product := product.(rating := newRating.value);
        SetRating(id, newRating.value);
      }
      page := Found(DetailPage(product, Take(ofProduct, ReviewWindow)));
    }

    /** `product.rating = ...; product.save()`: overwrites one product's rating and nothing else. */
    method SetRating(id: nat, rating: int)
      requires Valid() && id in products
      modifies this`products
      ensures Valid()
      ensures products == old(products)[id := old(products)[id].(rating := rating)]
      ensures products.Keys == old(products).Keys
      ensures forall pid :: pid in products ==> products[pid].stock == old(products)[pid].stock
    {
      RatingWritePreservesValidity(items, nextCartId, products, nextItemId, id, rating);
      products := products[id := products[id].(rating := rating)];
    }
  }

  /**
   * The rating `ProductDetail` writes is the mean of the product's first ten
   * reviews rounded to a tenth, so it lies between ten times their lowest and
   * ten times their highest rating.
   */
  lemma DetailRatingWithinReviews(reviews: seq<Review>, pid: nat, lo: int, hi: int)
    requires NewRating(Ratings(ReviewsOf(reviews, pid))).Some?
    requires forall v :: v in reviews && v.product == pid ==> lo <= v.rating <= hi
    ensures 10 * lo <= NewRating(Ratings(ReviewsOf(reviews, pid))).value <= 10 * hi
  {
    var rs := ReviewsOf(reviews, pid);
    forall i | 0 <= i < |Ratings(rs)| && i < ReviewWindow ensures lo <= Ratings(rs)[i] <= hi {
      assert rs[i] in rs;
    }
    NewRatingBounds(Ratings(rs), lo, hi);
  }
}
