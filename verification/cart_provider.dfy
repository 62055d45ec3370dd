/** The cart transitions of `CartProvider`: add a product, remove a product, change a
    product's quantity. Every operation is one atomic step from a store to a new store
    and an outcome; the stock and catalog requests are passed in as their responses. */
module CartProvider {
  import opened Wrappers
  import opened JsArray

  /** A catalog record: the product id and its display attributes (name, image, price),
      which the cart never inspects. */
  datatype Product<A> = Product(id: int, attrs: A)

  /** A cart line item: a catalog record extended with the quantity held in the cart. */
  datatype Item<A> = Item(id: int, attrs: A, amount: int)

  type Cart<A> = seq<Item<A>>

  /** The body of a successful stock response; `amount` is None when the field is absent. */
  datatype StockData = StockData(amount: Option<int>)

  /** What the user is told: success, or one of the four error notifications. */
  datatype Outcome = Ok | OutOfStock | AddFailed | RemoveFailed | UpdateFailed

  /** The in-memory cart and the snapshot stored under the `@RocketShoes:cart` key
      (None while that key is unset). */
  datatype Store<A> = Store(cart: Cart<A>, persisted: Option<Cart<A>>)

  datatype Transition<A> = Transition(store: Store<A>, outcome: Outcome)

  /** The cart a fresh provider starts from: the stored snapshot, or the empty cart. */
  function Load<A>(stored: Option<Cart<A>>): Cart<A> {
    stored.GetOr([])
  }

  /** A new store read from persistent storage. */
  function Init<A>(stored: Option<Cart<A>>): (s: Store<A>)
    ensures Coherent(s)
    ensures s.persisted == stored
    ensures stored.None? ==> s.cart == []
  {
    Store(Load(stored), stored)
  }

  /** Reloading the persisted snapshot reproduces the in-memory cart. */
  ghost predicate Coherent<A>(s: Store<A>) {
    Load(s.persisted) == s.cart
  }

  /** At most one entry per product id. */
  predicate UniqueIds<A>(c: Cart<A>) {
    forall i, j :: 0 <= i < j < |c| ==> c[i].id != c[j].id
  }

  /** Every entry holds at least one unit. */
  predicate PositiveAmounts<A>(c: Cart<A>) {
    forall i :: 0 <= i < |c| ==> c[i].amount >= 1
  }

  ghost predicate Valid<A>(s: Store<A>) {
    UniqueIds(s.cart) && PositiveAmounts(s.cart) && Coherent(s)
  }

  predicate InCart<A>(c: Cart<A>, id: int) {
    exists i :: 0 <= i < |c| && c[i].id == id
  }

  /** Position of the first entry for `id`, or -1. */
  function IndexOf<A>(c: Cart<A>, id: int): (i: int)
    ensures -1 <= i < |c|
    ensures i == -1 <==> !InCart(c, id)
    ensures 0 <= i ==> c[i].id == id && forall j :: 0 <= j < i ==> c[j].id != id
  {
    FindIndex(c, (item: Item<A>) => item.id == id)
  }

  /** A successful mutation: the new cart is held in memory and the same value is written
      to storage, so a restart reloads exactly that cart. */
  function Commit<A>(c: Cart<A>): (t: Transition<A>)
    ensures t.outcome == Ok && t.store.cart == c
    ensures Coherent(t.store) && Init(t.store.persisted) == t.store
  {
    Transition(Store(c, Some(c)), Ok)
  }

  /** The entry the catalog response becomes: `{ ...product, amount: 1 }`. */
  function NewItem<A>(p: Product<A>): Item<A> {
    Item(p.id, p.attrs, 1)
  }

  /** `addProduct`. Both requests are made before anything is decided; a failed one
      (None) is caught and reported as AddFailed. An absent product is appended unless
      the stock figure is exactly 0; a present one is incremented unless the stock figure
      equals its amount. A missing stock figure equals nothing. */
  function AddProduct<A>(s: Store<A>, productId: int, stock: Option<StockData>,
                         product: Option<Product<A>>): (r: Transition<A>)
    ensures r.outcome in {Ok, OutOfStock, AddFailed}
    ensures stock.None? || product.None? <==> r.outcome == AddFailed
    ensures r.outcome != Ok ==> r.store == s
    ensures r.outcome == Ok ==> r.store.persisted == Some(r.store.cart)
    ensures r.outcome == Ok && !InCart(s.cart, productId) ==>
      |r.store.cart| == |s.cart| + 1 && r.store.cart[..|s.cart|] == s.cart
    ensures r.outcome == Ok && InCart(s.cart, productId) ==>
      |r.store.cart| == |s.cart| &&
      forall j :: 0 <= j < |s.cart| && s.cart[j].id != productId ==> r.store.cart[j] == s.cart[j]
    ensures r.outcome == OutOfStock ==> stock.value.amount.Some?
  {
    var index := IndexOf(s.cart, productId);
    if stock.None? || product.None? then Transition(s, AddFailed)
    else if index == -1 then
      if stock.value.amount == Some(0) then Transition(s, OutOfStock)
      else Commit(s.cart + [NewItem(product.value)])
    else if stock.value.amount == Some(s.cart[index].amount) then Transition(s, OutOfStock)
    else Commit(s.cart[index := s.cart[index].(amount := s.cart[index].amount + 1)])
  }

  /** `removeProduct` as written: the guard looks for an entry whose id DIFFERS from
      `productId`, and the removal splices at position `productId` rather than at the
      entry found. */
  function SourceRemove<A>(s: Store<A>, productId: int): (r: Transition<A>)
    ensures r.outcome in {Ok, RemoveFailed}
    ensures r.outcome == Ok <==> exists j :: 0 <= j < |s.cart| && s.cart[j].id != productId
    ensures r.outcome != Ok ==> r.store == s
    ensures r.outcome == Ok ==> r.store.persisted == Some(r.store.cart)
    ensures r.outcome == Ok ==> r.store.cart == SpliceOne(s.cart, productId)
    ensures |s.cart| - 1 <= |r.store.cart| <= |s.cart|
  {
    var productIndex := FindIndex(s.cart, (item: Item<A>) => item.id != productId);
    if productIndex >= 0 then Commit(SpliceOne(s.cart, productId))
    else Transition(s, RemoveFailed)
  }

  /** `removeProduct` as evidently intended: find the entry by equality and remove
      it at the position where it was found. */
  function IntendedRemove<A>(s: Store<A>, productId: int): (r: Transition<A>)
    ensures r.outcome in {Ok, RemoveFailed}
    ensures r.outcome == Ok <==> InCart(s.cart, productId)
    ensures r.outcome != Ok ==> r.store == s
    ensures r.outcome == Ok ==> r.store.persisted == Some(r.store.cart)
    ensures r.outcome == Ok ==> |r.store.cart| == |s.cart| - 1
    ensures r.outcome == Ok ==>
      exists i :: 0 <= i < |s.cart| && s.cart[i].id == productId &&
        (forall j :: 0 <= j < i ==> s.cart[j].id != productId) &&
        r.store.cart == RemoveAt(s.cart, i)
  {
    var index := IndexOf(s.cart, productId);
    if index == -1 then Transition(s, RemoveFailed)
    else Commit(RemoveAt(s.cart, index))
  }

  /** The stock figure as `updateProductAmount` reads it: `amount || 0`. */
  function FigureOrZero(d: StockData): int {
    d.amount.GetOr(0)
  }

  /** `updateProductAmount`. A non-positive amount and an id not in the cart are faults
      (UpdateFailed) decided before the stock request; a failed stock request is caught
      the same way. An amount above the stock figure (missing counts as 0) is out of
      stock; otherwise the first entry for the id gets exactly `amount`. */
  function UpdateProductAmount<A>(s: Store<A>, productId: int, amount: int,
                                  stock: Option<StockData>): (r: Transition<A>)
    ensures r.outcome in {Ok, OutOfStock, UpdateFailed}
    ensures r.outcome == UpdateFailed <==> amount <= 0 || !InCart(s.cart, productId) || stock.None?
    ensures r.outcome != Ok ==> r.store == s
    ensures r.outcome == Ok ==> r.store.persisted == Some(r.store.cart)
    ensures r.outcome == Ok ==>
      stock.Some? && 0 < amount <= FigureOrZero(stock.value) &&
      |r.store.cart| == |s.cart| &&
      (forall j :: 0 <= j < |s.cart| && s.cart[j].id != productId ==> r.store.cart[j] == s.cart[j]) &&
      exists i :: 0 <= i < |s.cart| && s.cart[i].id == productId &&
        (forall j :: 0 <= j < i ==> s.cart[j].id != productId) &&
        r.store.cart[i] == s.cart[i].(amount := amount)
  {
    if amount <= 0 then Transition(s, UpdateFailed)
    else
      var index := IndexOf(s.cart, productId);
      if index == -1 then Transition(s, UpdateFailed)
      else if stock.None? then Transition(s, UpdateFailed)
      else if amount > FigureOrZero(stock.value) then Transition(s, OutOfStock)
      else Commit(s.cart[index := s.cart[index].(amount := amount)])
  }
}
