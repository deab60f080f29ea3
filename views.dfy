/** The state-changing request handlers of shop/views.py with the HTTP, ORM and
    authentication layers taken away: the shop is one object holding the catalog, the
    cart rows, the orders and the feedback rows, and each handler is a method on it.
    The pure helpers of the product page come first. */
module Views {
  import opened Wrappers
  import opened Models
  import Recommender

  // ---------------------------------------------------------------------------
  // Cart rows as a table

  /** A cart row's key: the owner of its cart and its product. */
  function Key(item: CartItem): (UserId, ProductId) {
    (item.user, item.product)
  }

  /** The keys of the rows, in table order. */
  function Keys(items: seq<CartItem>): seq<(UserId, ProductId)> {
    seq(|items|, i requires 0 <= i < |items| => Key(items[i]))
  }

  /** There is one key per row, the key of the row at the same position. */
  lemma KeysAt(items: seq<CartItem>)
    ensures |Keys(items)| == |items|
    ensures forall i :: 0 <= i < |items| ==> Keys(items)[i] == Key(items[i])
  {
  }

  predicate Distinct<T(==)>(s: seq<T>) {
    forall i, j :: 0 <= i < j < |s| ==> s[i] != s[j]
  }

  /** The position of the first `x` in `s`, or -1 when `x` does not occur. */
  function IndexOf<T(==)>(s: seq<T>, x: T): (k: int)
    ensures -1 <= k < |s|
    ensures k == -1 <==> x !in s
    ensures k >= 0 ==> s[k] == x && forall i :: 0 <= i < k ==> s[i] != x
  {
    if |s| == 0 then -1
    else if s[0] == x then 0
    else
      var k := IndexOf(s[1..], x);
      assert forall i :: 1 <= i < |s| ==> s[i] == s[1..][i - 1];
      if k == -1 then -1 else k + 1
  }

  /** Appending `y` leaves the first occurrence of every earlier element where it was. */
  lemma IndexOfAppend<T>(s: seq<T>, y: T, x: T)
    ensures IndexOf(s + [y], x) == if x in s then IndexOf(s, x) else if x == y then |s| else -1
  {
    var a, b := IndexOf(s + [y], x), IndexOf(s, x);
    assert forall i :: 0 <= i < |s| ==> (s + [y])[i] == s[i];
    if x in s {
      assert (s + [y])[b] == x;
      assert !(a < b) && !(b < a);
    } else if x == y {
      assert (s + [y])[|s|] == x;
    }
  }

  /** In a sequence without duplicates the element at `i` is found at `i`. */
  lemma IndexOfDistinct<T>(s: seq<T>, i: nat)
    requires Distinct(s) && i < |s|
    ensures IndexOf(s, s[i]) == i
  {
    var k := IndexOf(s, s[i]);
    assert !(k < i) && !(i < k);
  }

  /** The row `get_or_create(cart=cart, product=product)` finds: the position of the
      cart row of `user` for `product`, or -1 when there is none. */
  function FindLine(items: seq<CartItem>, user: UserId, product: ProductId): (k: int)
    ensures -1 <= k < |items|
    ensures k == -1 <==> forall i :: 0 <= i < |items| ==> !(items[i].user == user && items[i].product == product)
    ensures k >= 0 ==> items[k].user == user && items[k].product == product
    ensures k >= 0 ==> forall i :: 0 <= i < k ==> !(items[i].user == user && items[i].product == product)
  {
    KeysAt(items);
    IndexOf(Keys(items), (user, product))
  }

  /** The row `get_object_or_404(CartItem, id=item_id, cart__user=user)` finds: the
      position of the row with that id in `user`'s cart, or -1. */
  function FindItem(items: seq<CartItem>, itemId: nat, user: UserId): (k: int)
    ensures -1 <= k < |items|
    ensures k == -1 <==> forall i :: 0 <= i < |items| ==> !(items[i].id == itemId && items[i].user == user)
    ensures k >= 0 ==> items[k].id == itemId && items[k].user == user
  {
    if |items| == 0 then -1
    else if items[0].id == itemId && items[0].user == user then 0
    else
      var k := FindItem(items[1..], itemId, user);
      assert forall i :: 1 <= i < |items| ==> items[i] == items[1..][i - 1];
      if k == -1 then -1 else k + 1
  }

  /** How many of `product` are in `user`'s cart (0 when there is no row). */
  function Quantity(items: seq<CartItem>, user: UserId, product: ProductId): nat {
    var k := FindLine(items, user, product);
    if k == -1 then 0 else items[k].quantity
  }

  /** `cart.items.all()`: the rows of `user`'s cart, in table order. */
  function LinesOf(items: seq<CartItem>, user: UserId): (r: seq<CartItem>)
    ensures |r| <= |items|
    ensures forall i :: 0 <= i < |r| ==> r[i].user == user
  {
    if |items| == 0 then []
    else (if items[0].user == user then [items[0]] else []) + LinesOf(items[1..], user)
  }

  /** The cart holds exactly the table's rows of `user`. */
  lemma {:induction false} LinesOfMembers(items: seq<CartItem>, user: UserId)
    ensures forall it :: it in LinesOf(items, user) <==> it in items && it.user == user
  {
    if |items| != 0 {
      LinesOfMembers(items[1..], user);
      assert forall it :: it in items <==> it == items[0] || it in items[1..];
    }
  }

  /** The rows left after `cart_items.delete()`: those of every other cart, in order. */
  function OtherLines(items: seq<CartItem>, user: UserId): (r: seq<CartItem>)
    ensures |r| <= |items|
    ensures forall i :: 0 <= i < |r| ==> r[i].user != user
  {
    if |items| == 0 then []
    else (if items[0].user != user then [items[0]] else []) + OtherLines(items[1..], user)
  }

  /** What is left is exactly the rows of every other user. */
  lemma {:induction false} OtherLinesMembers(items: seq<CartItem>, user: UserId)
    ensures forall it :: it in OtherLines(items, user) <==> it in items && it.user != user
  {
    if |items| != 0 {
      OtherLinesMembers(items[1..], user);
      assert forall it :: it in items <==> it == items[0] || it in items[1..];
    }
  }

  /** The rows of a cart name catalog products when the whole table does. */
  lemma LinesOfInCatalog(items: seq<CartItem>, user: UserId, carts: set<UserId>, catalog: map<ProductId, Product>, n: nat)
    requires LinesValid(items, carts, catalog, n)
    ensures InCatalog(LinesOf(items, user), catalog)
  {
    var r := LinesOf(items, user);
    LinesOfMembers(items, user);
    forall i | 0 <= i < |r| ensures r[i].product in catalog {
      assert r[i] in r;
      var j :| 0 <= j < |items| && items[j] == r[i];
    }
  }

  /** After the rows of `user` are deleted, `user`'s cart is empty. */
  lemma OtherLinesHasNoLines(items: seq<CartItem>, user: UserId)
    ensures LinesOf(OtherLines(items, user), user) == []
  {
    LinesOfNone(OtherLines(items, user), user);
  }

  /** A table without rows of `user` gives `user` an empty cart. */
  lemma LinesOfNone(items: seq<CartItem>, user: UserId)
    requires forall i :: 0 <= i < |items| ==> items[i].user != user
    ensures LinesOf(items, user) == []
  {
  }

  /** Rows whose products are all in the catalog. */
  predicate InCatalog(lines: seq<CartItem>, catalog: map<ProductId, Product>) {
    forall i :: 0 <= i < |lines| ==> lines[i].product in catalog
  }

  /** `sum(item.get_total_price() for item in cart_items)`, with current catalog prices. */
  function CartTotal(lines: seq<CartItem>, catalog: map<ProductId, Product>): int
    requires InCatalog(lines, catalog)
  {
    if |lines| == 0 then 0
    else CartTotal(lines[..|lines| - 1], catalog)
         + LineTotal(catalog[lines[|lines| - 1].product].price, lines[|lines| - 1].quantity)
  }

  /** The order rows the checkout loop creates for `lines`: one per line, same product
      and quantity, and the product's catalog price at that moment. */
  function Snapshot(order: nat, lines: seq<CartItem>, catalog: map<ProductId, Product>): (r: seq<OrderItem>)
    requires InCatalog(lines, catalog)
    ensures |r| == |lines|
  {
    if |lines| == 0 then []
    else
      var last := lines[|lines| - 1];
      Snapshot(order, lines[..|lines| - 1], catalog) + [OrderItem(order, last.product, last.quantity, catalog[last.product].price)]
  }

  /** Row `i` of an order records line `i` of the cart: its product, its quantity and
      the product's catalog price. */
  lemma {:induction false} SnapshotRows(order: nat, lines: seq<CartItem>, catalog: map<ProductId, Product>)
    requires InCatalog(lines, catalog)
    ensures forall i :: 0 <= i < |lines| ==>
              Snapshot(order, lines, catalog)[i] == OrderItem(order, lines[i].product, lines[i].quantity, catalog[lines[i].product].price)
  {
    if |lines| != 0 {
      var init := lines[..|lines| - 1];
      SnapshotRows(order, init, catalog);
      assert forall i :: 0 <= i < |init| ==> init[i] == lines[i];
    }
  }

  /** One step of the checkout loop: the snapshot of one more line. */
  lemma SnapshotSnoc(order: nat, lines: seq<CartItem>, i: nat, catalog: map<ProductId, Product>)
    requires InCatalog(lines, catalog) && i < |lines|
    ensures InCatalog(lines[..i], catalog) && InCatalog(lines[..i + 1], catalog)
    ensures Snapshot(order, lines[..i + 1], catalog)
         == Snapshot(order, lines[..i], catalog) + [OrderItem(order, lines[i].product, lines[i].quantity, catalog[lines[i].product].price)]
  {
    assert lines[..i + 1][..i] == lines[..i];
  }

  /** The amount an order's rows add up to. */
  function OrderItemsTotal(rows: seq<OrderItem>): int {
    if |rows| == 0 then 0
    else OrderItemsTotal(rows[..|rows| - 1]) + LineTotal(rows[|rows| - 1].price, rows[|rows| - 1].quantity)
  }

  /** The order total computed from the cart equals what its order rows add up to. */
  lemma {:induction false} SnapshotTotal(order: nat, lines: seq<CartItem>, catalog: map<ProductId, Product>)
    requires InCatalog(lines, catalog)
    ensures OrderItemsTotal(Snapshot(order, lines, catalog)) == CartTotal(lines, catalog)
  {
    if |lines| != 0 {
      var init := lines[..|lines| - 1];
      SnapshotTotal(order, init, catalog);
      var s := Snapshot(order, lines, catalog);
      assert s[..|s| - 1] == Snapshot(order, init, catalog);
    }
  }

  /** The cart total is additive over the rows. */
  lemma {:induction false} CartTotalAppend(a: seq<CartItem>, b: seq<CartItem>, catalog: map<ProductId, Product>)
    requires InCatalog(a, catalog) && InCatalog(b, catalog)
    ensures InCatalog(a + b, catalog)
    ensures CartTotal(a + b, catalog) == CartTotal(a, catalog) + CartTotal(b, catalog)
  {
    assert forall i :: 0 <= i < |a + b| ==> (a + b)[i] == if i < |a| then a[i] else b[i - |a|];
    if |b| == 0 {
      assert a + b == a;
    } else {
      var init := b[..|b| - 1];
      assert (a + b)[..|a + b| - 1] == a + init;
      CartTotalAppend(a, init, catalog);
    }
  }

  /** With prices that are not negative, the total is not negative. */
  lemma {:induction false} CartTotalNonNegative(lines: seq<CartItem>, catalog: map<ProductId, Product>)
    requires InCatalog(lines, catalog)
    requires forall id :: id in catalog ==> catalog[id].price >= 0
    ensures CartTotal(lines, catalog) >= 0
  {
    if |lines| != 0 {
      CartTotalNonNegative(lines[..|lines| - 1], catalog);
      var last := lines[|lines| - 1];
      assert LineTotal(catalog[last.product].price, last.quantity) >= 0;
    }
  }

  // ---------------------------------------------------------------------------
  // The product page (product_detail)

  /** The liked and disliked product ids of the visitor; a visitor who is not signed in
      has neither. */
  function FeedbackSets(feedback: map<(UserId, ProductId), int>, user: Option<UserId>): (r: (set<ProductId>, set<ProductId>))
    ensures r.0 !! r.1
    ensures user.None? ==> r.0 == {} && r.1 == {}
    ensures user.Some? ==> forall p :: p in r.0 <==> (user.value, p) in feedback && feedback[(user.value, p)] == LIKE
    ensures user.Some? ==> forall p :: p in r.1 <==> (user.value, p) in feedback && feedback[(user.value, p)] == DISLIKE
  {
    match user
    case None => ({}, {})
    case Some(u) =>
      var liked := set k | k in feedback && k.0 == u && feedback[k] == LIKE :: k.1;
      var disliked := set k | k in feedback && k.0 == u && feedback[k] == DISLIKE :: k.1;
      assert forall p :: p in liked ==> (u, p) in feedback && feedback[(u, p)] == LIKE;
      assert forall p :: (u, p) in feedback && feedback[(u, p)] == LIKE ==> p in liked by {
        forall p | (u, p) in feedback && feedback[(u, p)] == LIKE ensures p in liked {
          var k := (u, p);
          assert k.1 == p;
        }
      }
      assert forall p :: p in disliked ==> (u, p) in feedback && feedback[(u, p)] == DISLIKE;
      assert forall p :: (u, p) in feedback && feedback[(u, p)] == DISLIKE ==> p in disliked by {
        forall p | (u, p) in feedback && feedback[(u, p)] == DISLIKE ensures p in disliked {
          var k := (u, p);
          assert k.1 == p;
        }
      }
      (liked, disliked)
  }

  /** `exclude(pk=id)`: the products whose id is not `id`, in order. */
  function Exclude(products: seq<Product>, id: ProductId): (r: seq<Product>)
    ensures forall i :: 0 <= i < |r| ==> r[i].id != id && r[i] in products
    ensures forall p :: p in products && p.id != id ==> p in r
  {
    if |products| == 0 then []
    else (if products[0].id == id then [] else [products[0]]) + Exclude(products[1..], id)
  }

  lemma {:induction false} ExcludeSnoc(s: seq<Product>, p: Product, id: ProductId)
    ensures Exclude(s + [p], id) == Exclude(s, id) + (if p.id == id then [] else [p])
  {
    if |s| == 0 {
      assert s + [p] == [p];
      assert [p][1..] == [];
    } else {
      assert (s + [p])[0] == s[0];
      assert (s + [p])[1..] == s[1..] + [p];
      ExcludeSnoc(s[1..], p, id);
    }
  }

  /** Leaving the current product out of the input beforehand, as the product page does,
      changes nothing: the loop skips it anyway. */
  lemma {:induction false} SkipIsExclusion(current: Product, products: seq<Product>)
    ensures Recommender.Candidates(current, products) == Recommender.Candidates(current, Exclude(products, current.id))
  {
    if |products| != 0 {
      var init := products[..|products| - 1];
      var p := products[|products| - 1];
      assert products == init + [p];
      SkipIsExclusion(current, init);
      ExcludeSnoc(init, p, current.id);
      Recommender.CandidatesSnoc(current, init, p);
      var ex := Exclude(init, current.id);
      if p.id != current.id {
        Recommender.CandidatesSnoc(current, ex, p);
      } else {
        assert Exclude(products, current.id) == ex + [];
        assert ex + [] == ex;
      }
    }
  }

  /** `all_products_data`: the id and tag list of every product other than the one
      viewed, in the order the query yields them. */
  function CandidatePool(products: seq<Product>, viewed: Product): (r: seq<(ProductId, seq<string>)>)
    ensures forall i :: 0 <= i < |r| ==> r[i].0 != viewed.id
  {
    var others := Exclude(products, viewed.id);
    seq(|others|, i requires 0 <= i < |others| => (others[i].id, TagsList(others[i].tags)))
  }

  /** Every entry of the pool is a product of the query with its parsed tags. */
  lemma CandidatePoolSound(products: seq<Product>, viewed: Product, i: nat)
    requires i < |CandidatePool(products, viewed)|
    ensures exists j :: 0 <= j < |products| && products[j].id == CandidatePool(products, viewed)[i].0
                        && TagsList(products[j].tags) == CandidatePool(products, viewed)[i].1
  {
    var others := Exclude(products, viewed.id);
    assert others[i] in products;
    var j :| 0 <= j < |products| && products[j] == others[i];
  }

  /** Every product other than the viewed one is in the pool, with its parsed tags. */
  lemma CandidatePoolComplete(products: seq<Product>, viewed: Product, p: Product)
    requires p in products && p.id != viewed.id
    ensures (p.id, TagsList(p.tags)) in CandidatePool(products, viewed)
  {
    var others := Exclude(products, viewed.id);
    var r := CandidatePool(products, viewed);
    assert p in others;
    var k :| 0 <= k < |others| && others[k] == p;
    assert r[k] == (p.id, TagsList(p.tags));
  }

  /** `Product.objects.filter(pk__in=ids).order_by(preserved_order)`: the catalog products
      whose id is listed, each once, ordered by where its id first appears in `ids`. */
  function DisplayOrder(ids: seq<ProductId>, catalog: map<ProductId, Product>): (r: seq<Product>)
    ensures |r| <= |ids|
    ensures forall i :: 0 <= i < |r| ==> r[i] in catalog.Values
  {
    if |ids| == 0 then []
    else
      var rest := DisplayOrder(ids[1..], catalog - {ids[0]});
      assert forall p :: p in (catalog - {ids[0]}).Values ==> p in catalog.Values;
      (if ids[0] in catalog then [catalog[ids[0]]] else []) + rest
  }

  /** `filter(pk__in=ids)` shows only catalog products whose id was recommended. */
  lemma {:induction false} DisplayOrderSound(ids: seq<ProductId>, catalog: map<ProductId, Product>)
    requires CatalogKeyed(catalog)
    ensures forall p :: p in DisplayOrder(ids, catalog) ==> p.id in ids && p.id in catalog && catalog[p.id] == p
  {
    if |ids| != 0 {
      var rest, smaller := ids[1..], catalog - {ids[0]};
      DisplayOrderSound(rest, smaller);
      assert ids == [ids[0]] + rest;
      var tail := DisplayOrder(rest, smaller);
      assert DisplayOrder(ids, catalog) == (if ids[0] in catalog then [catalog[ids[0]]] else []) + tail;
      forall p | p in tail ensures p.id in ids && p.id in catalog && catalog[p.id] == p {
        assert p.id in rest && p.id in smaller;
      }
      if ids[0] in catalog {
        assert catalog[ids[0]].id == ids[0];
      }
      assert forall p :: p in DisplayOrder(ids, catalog) ==> p in tail || (ids[0] in catalog && p == catalog[ids[0]]);
    }
  }

  /** Every recommended id that names a catalog product is shown. */
  lemma {:induction false} DisplayOrderComplete(ids: seq<ProductId>, catalog: map<ProductId, Product>)
    ensures forall id :: id in ids && id in catalog ==> catalog[id] in DisplayOrder(ids, catalog)
  {
    if |ids| != 0 {
      var rest, smaller := ids[1..], catalog - {ids[0]};
      DisplayOrderComplete(rest, smaller);
      assert ids == [ids[0]] + rest;
      assert DisplayOrder(ids, catalog)
          == (if ids[0] in catalog then [catalog[ids[0]]] else []) + DisplayOrder(rest, smaller);
      forall id | id in ids && id in catalog && id != ids[0] ensures catalog[id] in DisplayOrder(ids, catalog) {
        assert id in rest && id in smaller;
      }
    }
  }

  /** Where each shown product's id first occurs among `ids` (-1 when it does not). */
  function Positions(ids: seq<ProductId>, shown: seq<Product>): seq<int> {
    seq(|shown|, i requires 0 <= i < |shown| => IndexOf(ids, shown[i].id))
  }

  /** Every position is found and each is further on than the one before. */
  predicate Increasing(s: seq<int>) {
    && (forall i :: 0 <= i < |s| ==> 0 <= s[i])
    && (forall i, j :: 0 <= i < j < |s| ==> s[i] < s[j])
  }

  /** The ids of `shown` occur among `ids`, and in the order of their first occurrence. */
  predicate FirstSeenOrder(ids: seq<ProductId>, shown: seq<Product>) {
    Increasing(Positions(ids, shown))
  }

  /** `order_by(Case(When(pk=pk, then=pos) ...))`: the products are shown in the order of
      their ids' first occurrence among the recommended ids, so each at most once. */
  lemma {:induction false} DisplayOrderFirstSeen(ids: seq<ProductId>, catalog: map<ProductId, Product>)
    requires CatalogKeyed(catalog)
    ensures FirstSeenOrder(ids, DisplayOrder(ids, catalog))
  {
    if |ids| != 0 {
      DisplayOrderFirstSeen(ids[1..], catalog - {ids[0]});
      DisplayOrderSound(ids[1..], catalog - {ids[0]});
      var tail := DisplayOrder(ids[1..], catalog - {ids[0]});
      forall i | 0 <= i < |tail| ensures tail[i].id in ids[1..] && tail[i].id != ids[0] {
        assert tail[i] in tail;
      }
      FirstSeenShift(ids, tail);
      if ids[0] in catalog {
        assert catalog[ids[0]].id == ids[0];
        FirstSeenCons(ids, catalog[ids[0]], tail);
        assert DisplayOrder(ids, catalog) == [catalog[ids[0]]] + tail;
      } else {
        assert DisplayOrder(ids, catalog) == [] + tail;
        assert [] + tail == tail;
      }
    } else {
      assert DisplayOrder(ids, catalog) == [];
    }
  }

  /** A list ordered by first appearance in the later ids, none of them the first id, is
      ordered by first appearance in all the ids, at positions past the first. */
  lemma FirstSeenShift(ids: seq<ProductId>, tail: seq<Product>)
    requires |ids| > 0 && FirstSeenOrder(ids[1..], tail)
    requires forall i :: 0 <= i < |tail| ==> tail[i].id in ids[1..] && tail[i].id != ids[0]
    ensures FirstSeenOrder(ids, tail)
    ensures forall i :: 0 <= i < |tail| ==> Positions(ids, tail)[i] >= 1
  {
    var before, after := Positions(ids[1..], tail), Positions(ids, tail);
    forall i | 0 <= i < |tail| ensures after[i] == before[i] + 1 {
      IndexOfTail(ids, tail[i].id);
    }
    IncreasingShift(before, after);
  }

  lemma IncreasingShift(s: seq<int>, t: seq<int>)
    requires Increasing(s) && |s| == |t|
    requires forall i :: 0 <= i < |s| ==> t[i] == s[i] + 1
    ensures Increasing(t) && forall i :: 0 <= i < |t| ==> t[i] >= 1
  {
  }

  /** Putting the product of the first id in front of a list ordered by first appearance
      past the first position keeps the order of first appearance. */
  lemma FirstSeenCons(ids: seq<ProductId>, p: Product, tail: seq<Product>)
    requires |ids| > 0 && p.id == ids[0] && FirstSeenOrder(ids, tail)
    requires forall i :: 0 <= i < |tail| ==> Positions(ids, tail)[i] >= 1
    ensures FirstSeenOrder(ids, [p] + tail)
  {
    assert IndexOf(ids, p.id) == 0;
    var rest := Positions(ids, tail);
    assert forall i :: 0 <= i < |tail| ==> ([p] + tail)[i + 1] == tail[i];
    assert Positions(ids, [p] + tail) == [0] + rest;
    IncreasingCons(rest);
  }

  lemma IncreasingCons(s: seq<int>)
    requires Increasing(s) && forall i :: 0 <= i < |s| ==> s[i] >= 1
    ensures Increasing([0] + s)
  {
    var r := [0] + s;
    forall i | 0 <= i < |r| ensures 0 <= r[i] {
      if i > 0 {
        assert r[i] == s[i - 1];
      }
    }
    forall i, j | 0 <= i < j < |r| ensures r[i] < r[j] {
      assert r[j] == s[j - 1];
      if i > 0 {
        assert r[i] == s[i - 1];
      }
    }
  }

  /** Past a different first element, the first occurrence is one further on. */
  lemma IndexOfTail<T>(s: seq<T>, x: T)
    requires |s| > 0 && s[0] != x && x in s[1..]
    ensures IndexOf(s, x) == IndexOf(s[1..], x) + 1
  {
    var a, b := IndexOf(s, x), IndexOf(s[1..], x);
    assert s[b + 1] == x;
    assert !(a < b + 1) by {
      assert a == 0 || s[1..][a - 1] == x;
    }
  }

  /** Recommended ids that are distinct and all in the catalog are displayed exactly in
      the order they were returned. */
  lemma {:induction false} DisplayOrderPreserved(ids: seq<ProductId>, catalog: map<ProductId, Product>)
    requires Distinct(ids) && CatalogKeyed(catalog)
    requires forall i :: 0 <= i < |ids| ==> ids[i] in catalog
    ensures |DisplayOrder(ids, catalog)| == |ids|
    ensures forall i :: 0 <= i < |ids| ==> DisplayOrder(ids, catalog)[i].id == ids[i]
  {
    if |ids| != 0 {
      var rest := ids[1..];
      var smaller := catalog - {ids[0]};
      assert forall i :: 0 <= i < |rest| ==> rest[i] == ids[i + 1];
      DisplayOrderPreserved(rest, smaller);
      var r := DisplayOrder(ids, catalog);
      assert r == [catalog[ids[0]]] + DisplayOrder(rest, smaller);
    }
  }

  // ---------------------------------------------------------------------------
  // The shop

  /** What `checkout` ends with: 404 for a user without a cart, back to the cart page for
      an empty cart, or the order it placed. */
  datatype CheckoutOutcome = NoCart | EmptyCart | Placed(order: Order)

  /** The cart table is well formed: every row belongs to an existing cart and a catalog
      product, has a positive quantity and an issued id, row ids are distinct, and no cart
      has two rows for one product. */
  ghost predicate LinesValid(items: seq<CartItem>, carts: set<UserId>, catalog: map<ProductId, Product>, nextItemId: nat) {
    && (forall i :: 0 <= i < |items| ==>
          items[i].user in carts && items[i].product in catalog && items[i].quantity >= 1 && items[i].id < nextItemId)
    && (forall i, j :: 0 <= i < j < |items| ==>
          items[i].id != items[j].id && Key(items[i]) != Key(items[j]))
  }

  /** Every catalog product is stored under its own primary key. */
  predicate CatalogKeyed(catalog: map<ProductId, Product>) {
    forall id :: id in catalog ==> catalog[id].id == id
  }

  /** Every order id has been issued. */
  predicate OrdersIssued(orders: seq<Order>, nextOrderId: nat) {
    forall i :: 0 <= i < |orders| ==> orders[i].id < nextOrderId
  }

  /** Every feedback row holds a like or a dislike of a catalog product. */
  predicate FeedbackValid(feedback: map<(UserId, ProductId), int>, catalog: map<ProductId, Product>) {
    forall k :: k in feedback ==> IsFeedbackValue(feedback[k]) && k.1 in catalog
  }

  /** Placing an order with the next id keeps every order id issued. */
  lemma OrdersIssuedSnoc(orders: seq<Order>, order: Order, n: nat)
    requires OrdersIssued(orders, n) && order.id == n
    ensures OrdersIssued(orders + [order], n + 1)
  {
    assert forall j :: 0 <= j < |orders| ==> (orders + [order])[j] == orders[j];
  }

  class Store {
    /** The products, by primary key. Not changed by any handler modelled here. */
    const catalog: map<ProductId, Product>
    /** The users that have a `Cart` row. */
    var carts: set<UserId>
    /** The `CartItem` table, in primary-key order. */
    var items: seq<CartItem>
    var nextItemId: nat
    /** The `Order` and `OrderItem` tables. */
    var orders: seq<Order>
    var orderItems: seq<OrderItem>
    var nextOrderId: nat
    /** The `UserFeedback` table: one value per (user, product), as `unique_together` demands. */
    var feedback: map<(UserId, ProductId), int>

    ghost predicate Valid()
      reads this
    {
      && CatalogKeyed(catalog)
      && LinesValid(items, carts, catalog, nextItemId)
      && OrdersIssued(orders, nextOrderId)
      && FeedbackValid(feedback, catalog)
    }

    constructor (products: map<ProductId, Product>)
      requires CatalogKeyed(products)
      ensures Valid()
      ensures catalog == products
      ensures carts == {} && items == [] && orders == [] && orderItems == [] && feedback == map[]
      ensures nextItemId == 0 && nextOrderId == 0
    {
      catalog := products;
      carts, items, nextItemId := {}, [], 0;
      orders, orderItems, nextOrderId := [], [], 0;
      feedback := map[];
    }

    /** `add_to_cart`: 404 for an unknown product; otherwise the user's cart is created if
        missing, and the product's row gains one, or is created with the default quantity. */
    method AddToCart(user: UserId, productId: ProductId) returns (found: bool)
      requires Valid()
      modifies this
      ensures Valid()
      ensures found <==> productId in catalog
      ensures !found ==> carts == old(carts) && items == old(items) && nextItemId == old(nextItemId)
      ensures found ==> carts == old(carts) + {user}
      ensures found ==> items == AddLine(old(items), user, productId, old(nextItemId))
      ensures found ==> nextItemId == if FindLine(old(items), user, productId) == -1 then old(nextItemId) + 1 else old(nextItemId)
      ensures orders == old(orders) && orderItems == old(orderItems) && nextOrderId == old(nextOrderId)
      ensures feedback == old(feedback)
    {
      if productId !in catalog {
        return false;
      }
      AddLineValid(items, carts, catalog, nextItemId, user, productId);
      AddRow(user, productId);
      return true;
    }

    /** The two `get_or_create` calls and the increment of `add_to_cart`: the user gets a
        cart, and the pair's row gains one or is created with the next free id. */
    method AddRow(user: UserId, productId: ProductId)
      modifies this`carts, this`items, this`nextItemId
      ensures carts == old(carts) + {user}
      ensures items == AddLine(old(items), user, productId, old(nextItemId))
      ensures nextItemId == if FindLine(old(items), user, productId) == -1 then old(nextItemId) + 1 else old(nextItemId)
    {
      var created := FindLine(items, user, productId) == -1;
      carts := carts + {user};
      items := AddLine(items, user, productId, nextItemId);
      if created {
        nextItemId := nextItemId + 1;
      }
    }

    /** `remove_from_cart`: 404 unless the row is in the user's own cart; otherwise a
        quantity above one goes down by one and a quantity of one deletes the row. */
    method RemoveFromCart(user: UserId, itemId: nat) returns (found: bool)
      requires Valid()
      modifies this
      ensures Valid()
      ensures found <==> FindItem(old(items), itemId, user) != -1
      ensures !found ==> items == old(items)
      ensures found ==> items == RemoveLine(old(items), FindItem(old(items), itemId, user))
      ensures carts == old(carts) && nextItemId == old(nextItemId)
      ensures orders == old(orders) && orderItems == old(orderItems) && nextOrderId == old(nextOrderId)
      ensures feedback == old(feedback)
    {
      var k := FindItem(items, itemId, user);
      if k == -1 {
        return false;
      }
      RemoveLineValid(items, k, carts, catalog, nextItemId);
      items := RemoveLine(items, k);
      return true;
    }

    /** `view_cart`: creates the user's cart if missing, and shows its rows and their total. */
    method ViewCart(user: UserId) returns (lines: seq<CartItem>, total: int)
      requires Valid()
      modifies this
      ensures Valid()
      ensures lines == LinesOf(items, user) && InCatalog(lines, catalog)
      ensures total == CartTotal(lines, catalog)
      ensures carts == old(carts) + {user}
      ensures items == old(items) && nextItemId == old(nextItemId)
      ensures orders == old(orders) && orderItems == old(orderItems) && nextOrderId == old(nextOrderId)
      ensures feedback == old(feedback)
    {
      LinesOfInCatalog(items, user, carts, catalog, nextItemId);
      LinesValidMoreCarts(items, carts, carts + {user}, catalog, nextItemId);
      carts := carts + {user};
      lines := LinesOf(items, user);
      total := CartTotal(lines, catalog);
    }

    /** `checkout`: 404 without a cart and nothing at all for an empty one; otherwise one
        order with the cart's total, one order row per cart row with its product, quantity
        and current price, and an empty cart afterwards. */
    method Checkout(user: UserId) returns (outcome: CheckoutOutcome)
      requires Valid()
      modifies this
      ensures Valid()
      ensures outcome == NoCart <==> user !in old(carts)
      ensures outcome == EmptyCart <==> user in old(carts) && LinesOf(old(items), user) == []
      ensures !outcome.Placed? ==>
                items == old(items) && orders == old(orders) && orderItems == old(orderItems) && nextOrderId == old(nextOrderId)
      ensures outcome.Placed? ==>
                var lines := LinesOf(old(items), user);
                && InCatalog(lines, catalog)
                && outcome.order == Order(old(nextOrderId), user, CartTotal(lines, catalog))
                && orders == old(orders) + [outcome.order]
                && nextOrderId == old(nextOrderId) + 1
                && orderItems == old(orderItems) + Snapshot(outcome.order.id, lines, catalog)
                && OrderItemsTotal(Snapshot(outcome.order.id, lines, catalog)) == outcome.order.total
                && items == OtherLines(old(items), user)
                && LinesOf(items, user) == []
      ensures carts == old(carts) && nextItemId == old(nextItemId) && feedback == old(feedback)
    {
      if user !in carts {
        return NoCart;
      }
      var cartItems := LinesOf(items, user);
      if |cartItems| == 0 {
        return EmptyCart;
      }
      var order := PlaceOrder(user);
      return Placed(order);
    }

    /** The part of `checkout` that runs once the cart has lines: the order with the
        cart's total, one order row per line, and the cart emptied. */
    method PlaceOrder(user: UserId) returns (order: Order)
      requires Valid() && user in carts && LinesOf(items, user) != []
      modifies this
      ensures Valid()
      ensures var lines := LinesOf(old(items), user);
                && InCatalog(lines, catalog)
                && order == Order(old(nextOrderId), user, CartTotal(lines, catalog))
                && orders == old(orders) + [order]
                && nextOrderId == old(nextOrderId) + 1
                && orderItems == old(orderItems) + Snapshot(order.id, lines, catalog)
                && OrderItemsTotal(Snapshot(order.id, lines, catalog)) == order.total
                && items == OtherLines(old(items), user)
                && LinesOf(items, user) == []
      ensures carts == old(carts) && nextItemId == old(nextItemId) && feedback == old(feedback)
    {
      var cartItems := LinesOf(items, user);
      LinesOfInCatalog(items, user, carts, catalog, nextItemId);
      OrdersIssuedSnoc(orders, Order(nextOrderId, user, CartTotal(cartItems, catalog)), nextOrderId);
      SnapshotTotal(nextOrderId, cartItems, catalog);
      OtherLinesValid(items, user, carts, catalog, nextItemId);
      OtherLinesHasNoLines(items, user);
      order := RecordOrder(user, cartItems);
      items := OtherLines(items, user);
      assert LinesValid(items, carts, catalog, nextItemId);
      assert OrdersIssued(orders, nextOrderId);
    }

    /** `Order.objects.create` with the cart's total, followed by the loop that records
        the cart's rows. */
    method RecordOrder(user: UserId, lines: seq<CartItem>) returns (order: Order)
      requires InCatalog(lines, catalog)
      modifies this`orders, this`nextOrderId, this`orderItems
      ensures order == Order(old(nextOrderId), user, CartTotal(lines, catalog))
      ensures orders == old(orders) + [order] && nextOrderId == old(nextOrderId) + 1
      ensures orderItems == old(orderItems) + Snapshot(order.id, lines, catalog)
    {
      order := Order(nextOrderId, user, CartTotal(lines, catalog));
      orders := orders + [order];
      nextOrderId := nextOrderId + 1;
      AppendOrderRows(order.id, lines);
    }

    /** The loop of `checkout` that creates one order row per cart line. */
    method AppendOrderRows(orderId: nat, lines: seq<CartItem>)
      requires InCatalog(lines, catalog)
      modifies this`orderItems
      ensures orderItems == old(orderItems) + Snapshot(orderId, lines, catalog)
    {
      var i := 0;
      assert lines[..0] == [];
      while i < |lines|
        invariant 0 <= i <= |lines|
        invariant InCatalog(lines[..i], catalog)
        invariant orderItems == old(orderItems) + Snapshot(orderId, lines[..i], catalog)
      {
        var item := lines[i];
        SnapshotSnoc(orderId, lines, i, catalog);
        orderItems := orderItems + [OrderItem(orderId, item.product, item.quantity, catalog[item.product].price)];
        i := i + 1;
      }
      assert lines[..i] == lines;
    }

    /** `submit_feedback`: 404 for an unknown product; a like or dislike is stored for the
        (user, product) pair, replacing an earlier one; any other value changes nothing. */
    method SubmitFeedback(user: UserId, productId: ProductId, feedbackType: int) returns (found: bool)
      requires Valid()
      modifies this
      ensures Valid()
      ensures found <==> productId in catalog
      ensures found && IsFeedbackValue(feedbackType) ==> feedback == old(feedback)[(user, productId) := feedbackType]
      ensures !(found && IsFeedbackValue(feedbackType)) ==> feedback == old(feedback)
      ensures carts == old(carts) && items == old(items) && nextItemId == old(nextItemId)
      ensures orders == old(orders) && orderItems == old(orderItems) && nextOrderId == old(nextOrderId)
    {
      if productId !in catalog {
        return false;
      }
      if feedbackType == LIKE || feedbackType == DISLIKE {
        feedback := feedback[(user, productId) := feedbackType];
      }
      return true;
    }
  }

  // ---------------------------------------------------------------------------
  // The two edits of the cart table

  /** The cart table after `add_to_cart` of a catalog product: the pair's row gains one,
      or a row with the default quantity and the next free id is appended. */
  function AddLine(items: seq<CartItem>, user: UserId, product: ProductId, nextId: nat): seq<CartItem> {
    var k := FindLine(items, user, product);
    if k == -1 then items + [CartItem(nextId, user, product, DEFAULT_QUANTITY)]
    else items[k := items[k].(quantity := items[k].quantity + 1)]
  }

  /** The cart table after `remove_from_cart` found row `k`: a quantity above one goes
      down by one, otherwise the row is deleted. */
  function RemoveLine(items: seq<CartItem>, k: nat): seq<CartItem>
    requires k < |items|
  {
    if items[k].quantity > 1 then items[k := items[k].(quantity := items[k].quantity - 1)]
    else items[..k] + items[k + 1..]
  }

  /** Adding a product raises its quantity in that cart by exactly one and changes no
      other quantity. */
  lemma AddLineQuantity(items: seq<CartItem>, user: UserId, product: ProductId, nextId: nat)
    ensures forall u, p :: Quantity(AddLine(items, user, product, nextId), u, p)
              == if u == user && p == product then Quantity(items, u, p) + 1 else Quantity(items, u, p)
  {
    var k := FindLine(items, user, product);
    var r := AddLine(items, user, product, nextId);
    if k == -1 {
      var line := CartItem(nextId, user, product, DEFAULT_QUANTITY);
      assert r == items + [line];
      QuantityAppend(items, line);
    } else {
      assert r == items[k := items[k].(quantity := items[k].quantity + 1)];
      QuantityUpdate(items, k, items[k].quantity + 1);
    }
  }

  /** Removing a row lowers its product's quantity in that cart by exactly one and
      changes no other quantity. */
  lemma RemoveLineQuantity(items: seq<CartItem>, k: nat)
    requires k < |items| && items[k].quantity >= 1
    requires Distinct(Keys(items))
    ensures forall u, p :: Quantity(RemoveLine(items, k), u, p)
              == if u == items[k].user && p == items[k].product then Quantity(items, u, p) - 1 else Quantity(items, u, p)
  {
    IndexOfDistinct(Keys(items), k);
    if items[k].quantity > 1 {
      QuantityUpdate(items, k, items[k].quantity - 1);
    } else {
      QuantityDelete(items, k);
    }
  }

  /** Adding a catalog product keeps the table well formed, with the user's cart present
      and the next free id moved on when a row was created. */
  lemma AddLineValid(items: seq<CartItem>, carts: set<UserId>, catalog: map<ProductId, Product>, n: nat, user: UserId, product: ProductId)
    requires LinesValid(items, carts, catalog, n) && product in catalog
    ensures LinesValid(AddLine(items, user, product, n), carts + {user}, catalog,
                       if FindLine(items, user, product) == -1 then n + 1 else n)
  {
    if FindLine(items, user, product) == -1 {
      AddLineNewValid(items, carts, catalog, n, user, product);
    } else {
      AddLineBumpValid(items, carts, catalog, n, user, product);
    }
  }

  lemma AddLineNewValid(items: seq<CartItem>, carts: set<UserId>, catalog: map<ProductId, Product>, n: nat, user: UserId, product: ProductId)
    requires LinesValid(items, carts, catalog, n) && product in catalog && FindLine(items, user, product) == -1
    ensures LinesValid(AddLine(items, user, product, n), carts + {user}, catalog, n + 1)
  {
    LinesValidAppend(items, CartItem(n, user, product, DEFAULT_QUANTITY), carts, carts + {user}, catalog, n);
    assert AddLine(items, user, product, n) == items + [CartItem(n, user, product, DEFAULT_QUANTITY)];
  }

  lemma AddLineBumpValid(items: seq<CartItem>, carts: set<UserId>, catalog: map<ProductId, Product>, n: nat, user: UserId, product: ProductId)
    requires LinesValid(items, carts, catalog, n) && product in catalog && FindLine(items, user, product) != -1
    ensures LinesValid(AddLine(items, user, product, n), carts + {user}, catalog, n)
  {
    LinesValidUpdate(items, FindLine(items, user, product), items[FindLine(items, user, product)].quantity + 1,
                     carts, carts + {user}, catalog, n);
    assert AddLine(items, user, product, n)
        == items[FindLine(items, user, product) := items[FindLine(items, user, product)].(quantity := items[FindLine(items, user, product)].quantity + 1)];
  }

  /** Removing a row keeps the table well formed. */
  lemma RemoveLineValid(items: seq<CartItem>, k: nat, carts: set<UserId>, catalog: map<ProductId, Product>, n: nat)
    requires LinesValid(items, carts, catalog, n) && k < |items|
    ensures LinesValid(RemoveLine(items, k), carts, catalog, n)
  {
    if items[k].quantity > 1 {
      LinesValidUpdate(items, k, items[k].quantity - 1, carts, carts, catalog, n);
    } else {
      LinesValidDelete(items, k, carts, catalog, n);
    }
  }

  /** Removing the row an addition landed in undoes the addition: every quantity is
      back to what it was. */
  lemma AddThenRemove(items: seq<CartItem>, carts: set<UserId>, catalog: map<ProductId, Product>, n: nat, user: UserId, product: ProductId)
    requires LinesValid(items, carts, catalog, n) && product in catalog
    ensures var added := AddLine(items, user, product, n);
            var k := FindLine(added, user, product);
            && 0 <= k < |added|
            && forall u, p :: Quantity(RemoveLine(added, k), u, p) == Quantity(items, u, p)
  {
    var added := AddLine(items, user, product, n);
    var n' := if FindLine(items, user, product) == -1 then n + 1 else n;
    AddLineValid(items, carts, catalog, n, user, product);
    LinesValidDistinct(added, carts + {user}, catalog, n');
    AddLineQuantity(items, user, product, n);
    assert Quantity(added, user, product) == Quantity(items, user, product) + 1;
    var k := FindLine(added, user, product);
    RemoveLineQuantity(added, k);
  }

  /** A well-formed table has at most one row per (cart, product) pair. */
  lemma LinesValidDistinct(items: seq<CartItem>, carts: set<UserId>, catalog: map<ProductId, Product>, n: nat)
    requires LinesValid(items, carts, catalog, n)
    ensures Distinct(Keys(items)) && forall i :: 0 <= i < |items| ==> items[i].quantity >= 1
  {
    KeysAt(items);
  }

  // ---------------------------------------------------------------------------
  // How quantities and well-formedness move under the three edits the handlers make

  /** Changing the quantity of the row a lookup finds changes only that pair's quantity. */
  lemma QuantityUpdate(items: seq<CartItem>, k: nat, q: nat)
    requires k < |items| && FindLine(items, items[k].user, items[k].product) == k
    ensures forall u, p :: Quantity(items[k := items[k].(quantity := q)], u, p)
                        == if u == items[k].user && p == items[k].product then q else Quantity(items, u, p)
  {
    var items' := items[k := items[k].(quantity := q)];
    assert Keys(items') == Keys(items);
    forall u, p ensures Quantity(items', u, p) == if u == items[k].user && p == items[k].product then q else Quantity(items, u, p) {
      var j := FindLine(items, u, p);
      if j >= 0 && !(u == items[k].user && p == items[k].product) {
        assert j != k;
      }
    }
  }

  /** Appending a row for a pair that had none gives that pair the row's quantity. */
  lemma QuantityAppend(items: seq<CartItem>, line: CartItem)
    requires FindLine(items, line.user, line.product) == -1
    ensures forall u, p :: Quantity(items + [line], u, p)
                        == if u == line.user && p == line.product then line.quantity else Quantity(items, u, p)
  {
    var items' := items + [line];
    assert Keys(items') == Keys(items) + [Key(line)];
    forall u, p ensures Quantity(items', u, p) == if u == line.user && p == line.product then line.quantity else Quantity(items, u, p) {
      IndexOfAppend(Keys(items), Key(line), (u, p));
    }
  }

  /** Deleting the only row of a pair leaves that pair with nothing and every other
      pair as it was. */
  lemma QuantityDelete(items: seq<CartItem>, k: nat)
    requires k < |items|
    requires Distinct(Keys(items))
    ensures forall u, p :: Quantity(items[..k] + items[k + 1..], u, p)
                        == if u == items[k].user && p == items[k].product then 0 else Quantity(items, u, p)
  {
    var items' := items[..k] + items[k + 1..];
    assert forall i :: 0 <= i < |items'| ==> items'[i] == items[if i < k then i else i + 1];
    KeysAt(items);
    KeysAt(items');
    assert Distinct(Keys(items'));
    forall u, p ensures Quantity(items', u, p) == if u == items[k].user && p == items[k].product then 0 else Quantity(items, u, p) {
      QuantityDeleteAt(items, k, u, p);
    }
  }

  /** QuantityDelete for one pair. */
  lemma QuantityDeleteAt(items: seq<CartItem>, k: nat, u: UserId, p: ProductId)
    requires k < |items|
    requires Distinct(Keys(items))
    requires var items' := items[..k] + items[k + 1..];
      && Distinct(Keys(items'))
      && forall i :: 0 <= i < |items'| ==> items'[i] == items[if i < k then i else i + 1]
    ensures Quantity(items[..k] + items[k + 1..], u, p) == if u == items[k].user && p == items[k].product then 0 else Quantity(items, u, p)
  {
    var items' := items[..k] + items[k + 1..];
    KeysAt(items);
    KeysAt(items');
    var ks, ks' := Keys(items), Keys(items');
    var b := IndexOf(ks, (u, p));
    if b == -1 || b == k {
      forall i | 0 <= i < |ks'| ensures ks'[i] != (u, p) {
        var j := if i < k then i else i + 1;
        assert ks'[i] == Key(items'[i]) == Key(items[j]) == ks[j];
        if b == k { assert ks[j] != ks[k]; }
      }
    } else {
      var b' := if b < k then b else b - 1;
      assert ks'[b'] == (u, p);
      IndexOfDistinct(ks', b');
    }
  }

  lemma LinesValidAppend(items: seq<CartItem>, line: CartItem, carts: set<UserId>, carts': set<UserId>, catalog: map<ProductId, Product>, n: nat)
    requires LinesValid(items, carts, catalog, n) && carts <= carts'
    requires line.user in carts' && line.product in catalog && line.quantity >= 1 && line.id == n
    requires FindLine(items, line.user, line.product) == -1
    ensures LinesValid(items + [line], carts', catalog, n + 1)
  {
    var items' := items + [line];
    assert forall i :: 0 <= i < |items| ==> items'[i] == items[i] && Keys(items)[i] == Key(items[i]);
  }

  lemma LinesValidUpdate(items: seq<CartItem>, k: nat, q: nat, carts: set<UserId>, carts': set<UserId>, catalog: map<ProductId, Product>, n: nat)
    requires LinesValid(items, carts, catalog, n) && carts <= carts'
    requires k < |items| && q >= 1
    ensures LinesValid(items[k := items[k].(quantity := q)], carts', catalog, n)
  {
  }

  lemma LinesValidMoreCarts(items: seq<CartItem>, carts: set<UserId>, carts': set<UserId>, catalog: map<ProductId, Product>, n: nat)
    requires LinesValid(items, carts, catalog, n) && carts <= carts'
    ensures LinesValid(items, carts', catalog, n)
  {
  }

  lemma LinesValidDelete(items: seq<CartItem>, k: nat, carts: set<UserId>, catalog: map<ProductId, Product>, n: nat)
    requires LinesValid(items, carts, catalog, n)
    requires k < |items|
    ensures LinesValid(items[..k] + items[k + 1..], carts, catalog, n)
  {
    var items' := items[..k] + items[k + 1..];
    assert forall i :: 0 <= i < |items'| ==> items'[i] == items[if i < k then i else i + 1];
  }

  /** Deleting one cart's rows keeps the table well formed. */
  lemma {:induction false} OtherLinesValid(items: seq<CartItem>, user: UserId, carts: set<UserId>, catalog: map<ProductId, Product>, nextItemId: nat)
    requires LinesValid(items, carts, catalog, nextItemId)
    ensures LinesValid(OtherLines(items, user), carts, catalog, nextItemId)
  {
    if |items| != 0 {
      var tail := items[1..];
      assert forall i :: 0 <= i < |tail| ==> tail[i] == items[i + 1];
      OtherLinesValid(tail, user, carts, catalog, nextItemId);
      var rest := OtherLines(tail, user);
      if items[0].user != user {
        var r := OtherLines(items, user);
        assert r == [items[0]] + rest;
        OtherLinesMembers(tail, user);
        forall j | 0 < j < |r| ensures r[0].id != r[j].id && Key(r[0]) != Key(r[j]) {
          assert r[j] in rest;
        }
      }
    }
  }
}
