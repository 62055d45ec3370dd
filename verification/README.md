# Shopping-cart transitions of `CartProvider`

A Dafny model of the cart logic in the RocketShoes storefront hook
`src/hooks/useCart.tsx`. The cart is an ordered sequence of line items
(product id, opaque display attributes, amount). There are three operations on it:

- `addProduct`: appends a new entry with amount 1, or increments an existing one.
  It is gated by the stock figure.
- `removeProduct`: drops an entry.
- `updateProductAmount`: sets an entry's amount. It is gated by positivity, presence and stock.

Each successful operation writes the new cart to local storage under `@RocketShoes:cart`.
A fresh provider starts from that snapshot.

Each operation is a pure function `(store, productId, responses) -> (store', outcome)`:

- A `Store` pairs the in-memory cart with the persisted snapshot. The snapshot is `None` while the key is unset.
- The two remote requests, `stock/<id>` and `products/<id>`, are passed in as their responses.
  `None` means the request threw. A `StockData` whose `amount` is `None` means the response had no `amount` field.
- The user-facing toast becomes an `Outcome`: `Ok`, `OutOfStock`, `AddFailed`, `RemoveFailed` or `UpdateFailed`.

Files:

- `wrappers.dfy`: `Option`.
- `js_array.dfy`: JavaScript `findIndex` and `splice(start, 1)`. This includes splice's negative and out-of-range starts.
- `cart_provider.dfy`: the data model, the invariants and the three operations. Removal appears twice.
  `SourceRemove` is exactly as written. `IntendedRemove` is the corrected form.
- `cart_properties.dfy`: per-branch behaviour, invariant preservation, and the removal defects.
- `cart_session.dfy`: sequences of operations, with either removal. It proves the invariant over any session whose catalog answers are for the requested ids, and replays a worked session.

The invariant `Valid` has three parts:

- ids are unique;
- every amount is at least 1;
- reloading the persisted snapshot gives back the in-memory cart.

`updateProductAmount` and both removals preserve it. `addProduct` preserves it only when the catalog answers with the requested id.

## Model

| member | source | states |
|---|---|---|
| JsArray.FindIndex | src/hooks/useCart.tsx:70 | the result is -1 exactly when no element satisfies the predicate; otherwise it is the first position that does |
| JsArray.SpliceOne | src/hooks/useCart.tsx:73 | `splice(start, 1)`: removes the element at `start`, or at `len + start` for a negative start (clamped to 0); removes nothing when `start >= len`; never removes more than one |
| CartProvider.IndexOf | src/hooks/useCart.tsx:37 | the first position whose id equals the product id, or -1 exactly when the product is not in the cart |
| CartProvider.Commit | src/hooks/useCart.tsx:47-51 | a successful mutation sets the in-memory cart and writes the same value to storage (also lines 59-60, 74-75, 97-99), so the outcome is Ok and a restart from the snapshot reproduces the store |
| CartProvider.Init | src/hooks/useCart.tsx:25-32 | a new store holds the stored snapshot, or the empty cart when none is stored, and is coherent with storage |
| CartProvider.AddProduct | src/hooks/useCart.tsx:34-65 | a failed stock or catalog request is exactly the AddFailed case; any failure leaves the store unchanged; success writes the snapshot equal to the cart; an absent product grows the cart by one, keeping the old entries as a prefix; a present one keeps the length and every entry with another id |
| CartProperties.AddAbsentOutOfStock | src/hooks/useCart.tsx:41-45 | an absent product with stock figure exactly 0 leaves the store unchanged and reports out of stock |
| CartProperties.AddAbsentAppends | src/hooks/useCart.tsx:47-51 | an absent product with any other stock figure appends exactly one entry with amount 1 at the end, keeps all earlier entries, and persists the new cart |
| CartProperties.AddPresentAtStock | src/hooks/useCart.tsx:52-56 | a present product whose first entry's amount equals the stock figure leaves the store unchanged and reports out of stock, whatever later entries share its id |
| CartProperties.AddPresentIncrements | src/hooks/useCart.tsx:52-60 | a present product whose stock figure differs from its first entry's amount has that entry's amount increased by exactly 1; length, order and every other entry (later entries with the same id included) are unchanged; the new cart is persisted |
| CartProperties.AddCanExceedStock | src/hooks/useCart.tsx:53-59 | only equality blocks an increment, so an entry of 3 with a stock figure of 2 becomes 4 |
| CartProperties.AddTrustsCatalogId | src/hooks/useCart.tsx:47 | the new entry takes its id from the catalog response, so a response carrying an id already in the cart produces a duplicate |
| CartProperties.AddPreservesValid | src/hooks/useCart.tsx:36-60 | when the catalog answers for the requested id, addProduct keeps ids unique, amounts at least 1 and the snapshot equal to the cart |
| CartProvider.SourceRemove | src/hooks/useCart.tsx:67-82 | removal as written: succeeds exactly when some entry's id differs from the product id; on failure the store is unchanged; on success the cart is the one `splice(productId, 1)` leaves, which is persisted, and the length drops by at most one |
| CartProperties.SourceRemovePreservesValid | src/hooks/useCart.tsx:72-75 | removal as written still keeps ids unique, amounts at least 1 and the snapshot equal to the cart |
| CartProperties.SourceRemoveRejectsSoleEntry | src/hooks/useCart.tsx:70-80 | removing product 1 from a cart holding only product 1 is refused by the source; the corrected removal empties the cart |
| CartProperties.SourceRemoveDropsWrongEntry | src/hooks/useCart.tsx:73 | with products 1 and 2 in the cart, removing 1 deletes product 2, and removing 2 deletes nothing yet reports success; the corrected removal deletes the requested product each time |
| CartProvider.IntendedRemove | src/hooks/useCart.tsx:67-82 | corrected removal: succeeds exactly when the product is in the cart; then exactly the first entry for the product goes, the rest keep their order, and the cart is persisted; otherwise the store is unchanged |
| CartProperties.IntendedRemoveDropsExactlyTheEntry | src/hooks/useCart.tsx:70-75 | with unique ids, the corrected removal deletes the entry at its found position; no entry for that id remains, and every other entry is kept |
| CartProperties.IntendedRemovePreservesValid | src/hooks/useCart.tsx:70-75 | the corrected removal keeps ids unique, amounts at least 1 and the snapshot equal to the cart |
| CartProperties.SourceAgreesWhenPositionIsId | src/hooks/useCart.tsx:70-73 | the two removals give the same result when the first entry for the product sits at position `productId` and some other product is in the cart |
| CartProvider.UpdateProductAmount | src/hooks/useCart.tsx:84-109 | UpdateFailed exactly when the amount is not positive, the product is absent, or the stock request failed; any failure leaves the store unchanged; success needs `0 < amount <= stock figure`, keeps the length and every entry with another id, and gives the first entry for the product exactly `amount`; the new cart is persisted |
| CartProperties.UpdateAboveStock | src/hooks/useCart.tsx:90-94 | an amount above the stock figure (missing read as 0) leaves the store unchanged and reports out of stock |
| CartProperties.UpdateSetsFirstMatch | src/hooks/useCart.tsx:88-99 | otherwise the first entry for the id gets exactly `amount`; length, order and every other entry are unchanged; the new cart is persisted |
| CartProperties.MissingStockFigure | src/hooks/useCart.tsx:91 | a missing stock figure lets addProduct increment, because `=== 0` and `=== amount` are false, but makes updateProductAmount report out of stock, because `\|\| 0` reads it as 0 |
| CartProperties.UpdatePreservesValid | src/hooks/useCart.tsx:86-99 | updateProductAmount keeps ids unique, amounts at least 1 and the snapshot equal to the cart |
| CartSession.ApplyPreservesValid | src/hooks/useCart.tsx:34-109 | every single operation keeps the store valid: add when the catalog answers for the requested id, update, and either removal |
| CartSession.RunPreservesValid | src/hooks/useCart.tsx:25-109 | any sequence of operations from a valid store ends valid, provided its catalog answers are for the requested ids (HonestCatalog); either removal may be used. Reloading the final persisted snapshot reproduces the final cart |
| CartSession.InitValid | src/hooks/useCart.tsx:25-32 | a store loaded from nothing, or from a snapshot with unique ids and positive amounts, is valid |
| CartSession.WorkedSession | src/hooks/useCart.tsx:34-99 | a worked session: add 1 twice with stock 5, set 5, refuse 6, then remove. The corrected removal empties the cart; the removal as written refuses |

## Left out

- React plumbing: the context, the provider component, `useState`/`useContext` and the JSX (lines 1-24, 111-122).
  Each operation is one atomic step on an explicit store.
- The toast message strings. They are the `Outcome` values.
- `JSON.stringify`/`JSON.parse` and `localStorage`. The snapshot holds the cart value itself, so serialisation is the identity.
  An empty stored string, which the source treats as absent, is `None`. A snapshot that fails to parse is not modelled.
- The axios requests. Each becomes its response, or `None` when it throws. When a request is actually made, and in what order, is not represented.
  `updateProductAmount` still ignores its stock response on the paths that decide before requesting.
- Async interleaving, and the lost update between overlapping calls. Each operation is modelled as one atomic step.
- The in-place mutation of shared entry objects (lines 58 and 96). Entries are values.
- JavaScript numbers: ids and amounts are unbounded integers. NaN, fractional values and precision loss above 2^53 are not modelled.
- Stock figures that are neither a number nor absent (a string, null), and other malformed responses that would throw inside the `try`.
- AddPreservesValid: requires the catalog to answer with the requested id, because the new entry's id comes from the response (see AddTrustsCatalogId).
- RunPreservesValid: requires every catalog answer in the session to be for the requested id (HonestCatalog). Line 47 takes the new entry's id from the response, so a mismatched answer breaks unique ids (see AddTrustsCatalogId).

## Findings

| source | as written | input that shows it | evidently intended | confidence | as-written member | corrected member |
|---|---|---|---|---|---|---|
| src/hooks/useCart.tsx:70 | the guard searches for an entry whose id is different from `productId` | cart `[{id: 1, amount: 5}]`, `removeProduct(1)`: no entry differs, so the removal is refused | search with `prod.id === productId` | high; not executed | CartProperties.SourceRemoveRejectsSoleEntry | CartProperties.IntendedRemoveDropsExactlyTheEntry |
| src/hooks/useCart.tsx:73 | the removal splices at position `productId` instead of the found index | cart `[{id: 1}, {id: 2}]`: `removeProduct(1)` deletes product 2; `removeProduct(2)` deletes nothing and reports success | `splice(productIndex, 1)` at the index found for the product | high; not executed | CartProperties.SourceRemoveDropsWrongEntry | CartProvider.IntendedRemove |
