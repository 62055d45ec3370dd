/** Properties of the cart transitions: what each branch of each operation does,
    the invariants they preserve, and where the as-written removal departs from the
    evidently intended one. */
module CartProperties {
  import opened Wrappers
  import opened JsArray
  import opened CartProvider

  /** The catalog answered for the product that was asked for (or did not answer). */
  predicate CatalogAgrees<A>(productId: int, product: Option<Product<A>>) {
    product.Some? ==> product.value.id == productId
  }

  // ---------------------------------------------------------------- addProduct

  /** A product not yet in the cart, with a stock figure of exactly 0: nothing changes. */
  lemma AddAbsentOutOfStock<A>(s: Store<A>, productId: int, stock: StockData, product: Product<A>)
    requires !InCart(s.cart, productId)
    requires stock.amount == Some(0)
    ensures AddProduct(s, productId, Some(stock), Some(product)) == Transition(s, OutOfStock)
  {
  }

  /** A product not yet in the cart, with any other stock figure: exactly one entry with
      amount 1 is appended, every earlier entry kept in place, and the snapshot is written. */
  lemma AddAbsentAppends<A>(s: Store<A>, productId: int, stock: StockData, product: Product<A>)
    requires !InCart(s.cart, productId)
    requires stock.amount != Some(0)
    ensures var r := AddProduct(s, productId, Some(stock), Some(product));
      && r.outcome == Ok
      && |r.store.cart| == |s.cart| + 1
      && (forall j :: 0 <= j < |s.cart| ==> r.store.cart[j] == s.cart[j])
      && r.store.cart[|s.cart|] == Item(product.id, product.attrs, 1)
      && r.store.persisted == Some(r.store.cart)
  {
  }

  /** A product already in the cart, whose first entry's amount equals the stock figure:
      nothing changes. */
  lemma AddPresentAtStock<A>(s: Store<A>, productId: int, i: int, stock: StockData, product: Product<A>)
    requires 0 <= i < |s.cart| && s.cart[i].id == productId
    requires forall j :: 0 <= j < i ==> s.cart[j].id != productId
    requires stock.amount == Some(s.cart[i].amount)
    ensures AddProduct(s, productId, Some(stock), Some(product)) == Transition(s, OutOfStock)
  {
  }

  /** A product already in the cart, whose stock figure is anything but its first entry's
      amount (a smaller figure included): that entry's amount grows by exactly one and
      nothing else changes, later entries for the same id included. */
  lemma AddPresentIncrements<A>(s: Store<A>, productId: int, i: int, stock: StockData, product: Product<A>)
    requires 0 <= i < |s.cart| && s.cart[i].id == productId
    requires forall j :: 0 <= j < i ==> s.cart[j].id != productId
    requires stock.amount != Some(s.cart[i].amount)
    ensures var r := AddProduct(s, productId, Some(stock), Some(product));
      && r.outcome == Ok
      && |r.store.cart| == |s.cart|
      && r.store.cart[i] == s.cart[i].(amount := s.cart[i].amount + 1)
      && (forall j :: 0 <= j < |s.cart| && j != i ==> r.store.cart[j] == s.cart[j])
      && r.store.persisted == Some(r.store.cart)
  {
  }

  /** Only equality with the stock figure stops an increment: an entry already above
      the stock figure is still incremented. */
  lemma AddCanExceedStock<A>(attrs: A, product: Product<A>)
    ensures var s := Init(Some([Item(7, attrs, 3)]));
      AddProduct(s, 7, Some(StockData(Some(2))), Some(product)).store.cart == [Item(7, attrs, 4)]
  {
  }

  /** The appended entry takes its id from the catalog response, so a catalog answering
      with another product's id would duplicate that product. */
  lemma AddTrustsCatalogId<A>(a: A, b: A)
    ensures var s := Init(Some([Item(1, a, 1)]));
      var r := AddProduct(s, 2, Some(StockData(Some(5))), Some(Product(1, b)));
      r.outcome == Ok && !UniqueIds(r.store.cart)
  {
    var s := Init(Some([Item(1, a, 1)]));
    var r := AddProduct(s, 2, Some(StockData(Some(5))), Some(Product(1, b)));
    assert !InCart(s.cart, 2) by {
      forall j | 0 <= j < |s.cart| ensures s.cart[j].id != 2 { }
    }
    assert r.store.cart == [Item(1, a, 1), Item(1, b, 1)];
    assert r.store.cart[0].id == r.store.cart[1].id;
  }

  /** addProduct keeps ids unique, amounts positive and the snapshot equal to the cart,
      provided the catalog answers for the requested product. */
  lemma AddPreservesValid<A>(s: Store<A>, productId: int, stock: Option<StockData>, product: Option<Product<A>>)
    requires Valid(s)
    requires CatalogAgrees(productId, product)
    ensures Valid(AddProduct(s, productId, stock, product).store)
  {
  }

  // ------------------------------------------------------------- removeProduct

  /** removeProduct as written deletes at most one entry, so it keeps the invariants
      even though it may delete the wrong one. */
  lemma SourceRemovePreservesValid<A>(s: Store<A>, productId: int)
    requires Valid(s)
    ensures Valid(SourceRemove(s, productId).store)
  {
  }

  /** The corrected removal takes out exactly the entry for `productId`: the others stay
      in order, and no entry for that id is left behind. */
  lemma IntendedRemoveDropsExactlyTheEntry<A>(s: Store<A>, productId: int, i: int)
    requires UniqueIds(s.cart)
    requires 0 <= i < |s.cart| && s.cart[i].id == productId
    ensures var r := IntendedRemove(s, productId);
      && r.outcome == Ok
      && r.store.cart == RemoveAt(s.cart, i)
      && !InCart(r.store.cart, productId)
      && (forall x :: x in s.cart && x.id != productId ==> x in r.store.cart)
      && r.store.persisted == Some(r.store.cart)
  {
  }

  lemma IntendedRemovePreservesValid<A>(s: Store<A>, productId: int)
    requires Valid(s)
    ensures Valid(IntendedRemove(s, productId).store)
  {
  }

  /** The two removals agree when the first entry for `productId` happens to sit at
      position `productId` and some other product is in the cart. */
  lemma SourceAgreesWhenPositionIsId<A>(s: Store<A>, productId: int, other: int)
    requires 0 <= productId < |s.cart| && s.cart[productId].id == productId
    requires forall j :: 0 <= j < productId ==> s.cart[j].id != productId
    requires 0 <= other < |s.cart| && s.cart[other].id != productId
    ensures SourceRemove(s, productId) == IntendedRemove(s, productId)
  {
  }

  /** Line 70 as written: a cart whose only entry is the product being removed has no
      entry with a DIFFERENT id, so the removal is refused. */
  lemma SourceRemoveRejectsSoleEntry<A>(attrs: A)
    ensures var s := Init(Some([Item(1, attrs, 5)]));
      && SourceRemove(s, 1) == Transition(s, RemoveFailed)
      && IntendedRemove(s, 1).store.cart == []
  {
  }

  /** Line 73 as written: the removal position is the product id, so removing product 1
      from [product 1, product 2] deletes product 2, and removing product 2 deletes
      nothing yet reports success. */
  lemma SourceRemoveDropsWrongEntry<A>(a: A, b: A)
    ensures var s := Init(Some([Item(1, a, 1), Item(2, b, 1)]));
      && SourceRemove(s, 1).store.cart == [Item(1, a, 1)]
      && IntendedRemove(s, 1).store.cart == [Item(2, b, 1)]
      && SourceRemove(s, 2) == Commit(s.cart)
      && IntendedRemove(s, 2).store.cart == [Item(1, a, 1)]
  {
    var s := Init(Some([Item(1, a, 1), Item(2, b, 1)]));
    assert s.cart[0].id != 2 && s.cart[1].id != 1;
    assert IndexOf(s.cart, 1) == 0;
    assert IndexOf(s.cart, 2) == 1;
  }

  // ------------------------------------------------------- updateProductAmount

  /** An amount above the stock figure (a missing figure read as 0) changes nothing. */
  lemma UpdateAboveStock<A>(s: Store<A>, productId: int, amount: int, stock: StockData)
    requires amount > 0 && InCart(s.cart, productId)
    requires amount > FigureOrZero(stock)
    ensures UpdateProductAmount(s, productId, amount, Some(stock)) == Transition(s, OutOfStock)
  {
  }

  /** Otherwise the first entry for the id gets exactly `amount`, nothing else changes,
      and the snapshot is written. */
  lemma UpdateSetsFirstMatch<A>(s: Store<A>, productId: int, amount: int, stock: StockData, i: int)
    requires 0 <= i < |s.cart| && s.cart[i].id == productId
    requires forall j :: 0 <= j < i ==> s.cart[j].id != productId
    requires 0 < amount <= FigureOrZero(stock)
    ensures var r := UpdateProductAmount(s, productId, amount, Some(stock));
      && r.outcome == Ok
      && |r.store.cart| == |s.cart|
      && r.store.cart[i] == s.cart[i].(amount := amount)
      && (forall j :: 0 <= j < |s.cart| && j != i ==> r.store.cart[j] == s.cart[j])
      && r.store.persisted == Some(r.store.cart)
  {
  }

  /** A missing stock figure lets addProduct through (`=== 0` is false) but stops
      updateProductAmount (`|| 0` reads it as 0). */
  lemma MissingStockFigure<A>(s: Store<A>, productId: int, amount: int, product: Product<A>)
    requires InCart(s.cart, productId) && amount > 0
    ensures AddProduct(s, productId, Some(StockData(None)), Some(product)).outcome == Ok
    ensures UpdateProductAmount(s, productId, amount, Some(StockData(None))).outcome == OutOfStock
  {
  }

  lemma UpdatePreservesValid<A>(s: Store<A>, productId: int, amount: int, stock: Option<StockData>)
    requires Valid(s)
    ensures Valid(UpdateProductAmount(s, productId, amount, stock).store)
  {
  }
}
