/** A session of cart operations applied one after another, each as one atomic step.
    Removal comes in both forms: as written and corrected. */
module CartSession {
  import opened Wrappers
  import opened CartProvider
  import opened CartProperties

  /** One call into the cart, together with the responses its remote requests got. */
  datatype Command<A> =
    | Add(productId: int, stock: Option<StockData>, product: Option<Product<A>>)
    | Remove(productId: int)
    | RemoveAsWritten(productId: int)
    | Update(productId: int, amount: int, stock: Option<StockData>)

  function Apply<A>(s: Store<A>, cmd: Command<A>): Transition<A> {
    match cmd
    case Add(id, stock, product) => AddProduct(s, id, stock, product)
    case Remove(id) => IntendedRemove(s, id)
    case RemoveAsWritten(id) => SourceRemove(s, id)
    case Update(id, amount, stock) => UpdateProductAmount(s, id, amount, stock)
  }

  /** The store after every command of `cmds`, in order. */
  function Run<A>(s: Store<A>, cmds: seq<Command<A>>): Store<A>
    decreases |cmds|
  {
    if |cmds| == 0 then s else Run(Apply(s, cmds[0]).store, cmds[1..])
  }

  /** Every catalog response in the session is for the product requested. */
  predicate HonestCatalog<A>(cmds: seq<Command<A>>) {
    forall i :: 0 <= i < |cmds| ==> (cmds[i].Add? ==> CatalogAgrees(cmds[i].productId, cmds[i].product))
  }

  lemma ApplyPreservesValid<A>(s: Store<A>, cmd: Command<A>)
    requires Valid(s)
    requires cmd.Add? ==> CatalogAgrees(cmd.productId, cmd.product)
    ensures Valid(Apply(s, cmd).store)
  {
    match cmd
    case Add(id, stock, product) => AddPreservesValid(s, id, stock, product);
    case Remove(id) => IntendedRemovePreservesValid(s, id);
    case RemoveAsWritten(id) => SourceRemovePreservesValid(s, id);
    case Update(id, amount, stock) => UpdatePreservesValid(s, id, amount, stock);
  }

  /** Any session from a valid store whose catalog answers are for the requested ids
      ends in a valid store: ids unique, amounts positive, and the persisted snapshot
      reloads to the in-memory cart. */
  lemma {:induction false} RunPreservesValid<A>(s: Store<A>, cmds: seq<Command<A>>)
    requires Valid(s)
    requires HonestCatalog(cmds)
    ensures Valid(Run(s, cmds))
    ensures Init(Run(s, cmds).persisted).cart == Run(s, cmds).cart
    decreases |cmds|
  {
    if |cmds| > 0 {
      ApplyPreservesValid(s, cmds[0]);
      assert HonestCatalog(cmds[1..]) by {
        forall i | 0 <= i < |cmds| - 1
          ensures cmds[1..][i].Add? ==> CatalogAgrees(cmds[1..][i].productId, cmds[1..][i].product)
        {
          assert cmds[1..][i] == cmds[i + 1];
        }
      }
      RunPreservesValid(Apply(s, cmds[0]).store, cmds[1..]);
    }
  }

  /** A fresh store is valid when the stored snapshot (if any) is. */
  lemma InitValid<A>(stored: Option<Cart<A>>)
    requires stored.Some? ==> UniqueIds(stored.value) && PositiveAmounts(stored.value)
    ensures Valid(Init(stored))
  {
  }

  /** A worked session: add product 1 twice with 5 in stock, set its
      amount to 5, fail to set it to 6, then remove it — which empties the cart under
      the corrected removal but is refused by the removal as written. */
  lemma WorkedSession<A>(attrs: A)
    ensures var stock5 := Some(StockData(Some(5)));
      var product := Some(Product(1, attrs));
      var t1 := AddProduct(Init(None), 1, stock5, product);
      var t2 := AddProduct(t1.store, 1, stock5, product);
      var t3 := UpdateProductAmount(t2.store, 1, 5, stock5);
      var t4 := UpdateProductAmount(t3.store, 1, 6, stock5);
      && t1 == Commit([Item(1, attrs, 1)])
      && t2 == Commit([Item(1, attrs, 2)])
      && t3 == Commit([Item(1, attrs, 5)])
      && t4 == Transition(t3.store, OutOfStock)
      && IntendedRemove(t4.store, 1) == Commit([])
      && SourceRemove(t4.store, 1) == Transition(t4.store, RemoveFailed)
  {
    var stock5 := Some(StockData(Some(5)));
    var product := Some(Product(1, attrs));
    var t1 := AddProduct(Init(None), 1, stock5, product);
    assert IndexOf(t1.store.cart, 1) == 0;
    var t2 := AddProduct(t1.store, 1, stock5, product);
    assert IndexOf(t2.store.cart, 1) == 0;
    var t3 := UpdateProductAmount(t2.store, 1, 5, stock5);
    assert IndexOf(t3.store.cart, 1) == 0;
  }
}
