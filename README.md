# Shopping cart store, modelled in Dafny

This project models the cart store of a small storefront, `CartProvider` in
`src/hooks/useCart.tsx`. The store keeps an ordered list of cart entries. Each
entry is a product with an `id` and a quantity `amount`; its title, price and
image are carried along untouched. The store also keeps a snapshot of that list
in persistent storage. It offers three operations:

- `addProduct(productId)` asks the stock service for the product's stock.
  When the product is already in the cart, it either refuses with the
  stock-exceeded notice or increments the entry's amount by one. When the
  product is not in the cart, it asks the catalog for the product and appends
  it with amount 1.
- `removeProduct(productId)` filters out the product's entry. It fails with a
  generic error when the product is not in the cart.
- `updateProductAmount({productId, amount})` sets the entry's amount. It fails
  with a generic error when the product is absent or `amount < 1`. After that
  it asks the stock service and refuses with the stock-exceeded notice when the
  stock is below `amount`.

Any failing service call ends the operation with its generic error. Every
success replaces the cart and overwrites the snapshot with the new cart.

Two files make up the model:

- `cart_entries.dfy` (module `CartEntries`) holds the entry datatypes and the
  list operations the store builds new carts with. These are `find`
  (`Find`), the two `map`s (`Incremented`, `WithAmount`) and `filter`
  (`Removed`). Each carries its meaning as a contract, and lemmas relate them
  to unique ids.
- `use_cart.dfy` (module `UseCart`) holds three pure step functions,
  `AddStep`, `RemoveStep` and `UpdateAmountStep`. Each decides, from the cart
  and the service answers, the outcome (`Ok`, `StockExceeded`, `GenericError`)
  and the new cart. The file also holds the class `CartProvider`, with fields
  `cart` and `stored`. Its constructor loads the snapshot. Its methods follow
  the source's control flow and commit the new cart to both fields. Each
  method is proved to agree with its step function, to keep the snapshot in
  step with the cart, and to keep ids unique and amounts positive.

The service calls are parameters. The stock answer is a `Result<int>` and the
catalog answer is a `Result<Metadata>`. Each operation is treated as one atomic
step.

Two behaviours of the source are kept as written:

- The add path refuses only when the first matching entry's amount is *equal*
  to the stock (`===`). An entry already above the stock is still incremented
  (`AddAboveStockStillIncrements`).
- That check never applies to a product not yet in the cart. Such a product is
  appended even when the stock is 0 (`AddAbsentIgnoresStock`): appending does
  not depend on the stock being at least 1.
  The code therefore does not keep amounts at or below the stock, and the model
  does not claim it.

The appended entry takes its id from the catalog's answer (`{...data, amount: 1}`),
not from `productId`. Id uniqueness after an add is therefore proved for catalog
answers that carry the asked id (`AnswersFor`).

## Model

| member | source | states |
|---|---|---|
| CartEntries.Find | src/hooks/useCart.tsx:38 | `find` returns nothing exactly when no entry has the id; otherwise it returns an entry of the cart with that id |
| CartEntries.FindAt | src/hooks/useCart.tsx:38 | `find` returns the first entry with the id: the entry at index k when no earlier entry has the id |
| CartEntries.Incremented | src/hooks/useCart.tsx:48 | the increment `map` keeps the length; every entry with the id has its amount raised by one and every other entry is unchanged |
| CartEntries.WithAmount | src/hooks/useCart.tsx:97 | the update `map` keeps the length; every entry with the id gets exactly the new amount and every other entry is unchanged |
| CartEntries.Removed | src/hooks/useCart.tsx:72 | the `filter` drops every entry with the id and keeps every other entry as often as it occurred, as a subsequence (original relative order); it shortens the cart when the id was present |
| CartEntries.RemovedIsDeleteAt | src/hooks/useCart.tsx:72 | with unique ids, the `filter` deletes exactly the entry at the id's index and nothing else |
| CartEntries.SubsequenceKeepsUniqueIds | src/hooks/useCart.tsx:72 | keeping a subsequence of a cart with unique ids keeps ids unique |
| UseCart.AddStep | src/hooks/useCart.tsx:35-64 | a failed stock lookup is a generic error. A present id is refused for stock exactly when the first entry's amount equals the stock, and is otherwise incremented by one with length, order and other entries unchanged. Only a present id can be refused for stock. An absent id is appended with amount 1 at the end, whatever the stock, exactly when the catalog answers, and fails generically otherwise. Every rejection leaves the cart unchanged |
| UseCart.RemoveStep | src/hooks/useCart.tsx:66-79 | succeeds exactly when the id is present, else a generic error with the cart unchanged; on success no entry with the id remains, the cart is shorter, it is a subsequence of the old cart, and every other entry keeps its multiplicity |
| UseCart.UpdateAmountStep | src/hooks/useCart.tsx:81-103 | an absent id or an amount below 1 is a generic error whatever the stock answer; stock-exceeded exactly when the stock is below the amount; success exactly when the id is present, the amount is at least 1 and covered by the stock; on success the entry's amount is exactly the new amount and everything else is unchanged; every rejection leaves the cart unchanged |
| UseCart.AddKeepsIdsUnique | src/hooks/useCart.tsx:47-60 | adding keeps ids unique when the catalog answers for the asked id, since it appends only when the id is absent |
| UseCart.RemoveKeepsIdsUnique | src/hooks/useCart.tsx:72 | removing keeps ids unique |
| UseCart.UpdateKeepsIdsUnique | src/hooks/useCart.tsx:97 | changing an amount keeps ids unique |
| UseCart.AddKeepsAmountsPositive | src/hooks/useCart.tsx:48-57 | adding keeps every amount at least 1 |
| UseCart.RemoveKeepsAmountsPositive | src/hooks/useCart.tsx:72 | removing keeps every amount at least 1 |
| UseCart.UpdateKeepsAmountsPositive | src/hooks/useCart.tsx:88-97 | changing an amount keeps every amount at least 1, because amounts below 1 are refused |
| UseCart.AddIncrementsTheEntry | src/hooks/useCart.tsx:41-52 | with unique ids, an add whose stock differs from the entry's amount succeeds and changes exactly that one entry, by one |
| UseCart.RemoveDeletesTheEntry | src/hooks/useCart.tsx:66-75 | with unique ids, removing a present id succeeds and deletes exactly that entry, keeping the others in order |
| UseCart.AddAboveStockStillIncrements | src/hooks/useCart.tsx:38-48 | in any cart, when the first entry with the id already has an amount above the stock, the add succeeds and increments every entry with the id, because the check is an equality |
| UseCart.AddAbsentIgnoresStock | src/hooks/useCart.tsx:41-60 | a product not in the cart is appended even with a stock of 0 |
| UseCart.InitialCart | src/hooks/useCart.tsx:25-33 | the start-up cart is the stored snapshot when one exists, otherwise empty, so reloading a saved cart gives it back |
| CartEntries.NewEntry | src/hooks/useCart.tsx:56 | the appended entry carries the catalog answer's id, title, price and image unchanged, with amount 1 |
| UseCart.CartProvider.constructor | src/hooks/useCart.tsx:25-33 | the initial cart is the stored snapshot when one exists, otherwise empty; reloading the snapshot gives back the cart |
| UseCart.CartProvider.AddProduct | src/hooks/useCart.tsx:35-64 | outcome and new cart are those of `AddStep`; on success the snapshot equals the new cart; on any rejection cart and snapshot are unchanged; unique ids and positive amounts are kept (for catalog answers with the asked id) |
| UseCart.CartProvider.RemoveProduct | src/hooks/useCart.tsx:66-79 | outcome and new cart are those of `RemoveStep`; on success the snapshot equals the new cart; on rejection nothing changes; unique ids and positive amounts are kept |
| UseCart.CartProvider.UpdateProductAmount | src/hooks/useCart.tsx:81-103 | outcome and new cart are those of `UpdateAmountStep`; on success the snapshot equals the new cart; on any rejection nothing changes; unique ids and positive amounts are kept |

`UseCart.AddUntilStockRunsOut` walks through a scenario using only the class
contracts. Product 7 has a stock of 3. Three adds raise its amount
to 1, 2 and 3, and the fourth is refused with stock-exceeded while cart and
snapshot stay as they were.

## Left out

- React wiring (`createContext`, the provider component, `useCart`): framework plumbing with no rules of its own.
- The notification texts and their display (`toast.error`): the model keeps only which outcome is produced.
- The HTTP calls and their asynchronous suspension: their answers are parameters, and each operation is one atomic step. A stock answer without an `amount` field (where `undefined === undefined` would refuse an absent product) is not modelled: the stock answer is an integer or a failure.
- Overlapping calls racing on the same cart (last write wins): a concurrency concern outside a sequential model.
- Writes to storage are assumed to succeed. In the source, `setCart` runs before `localStorage.setItem` inside the same `try` (src/hooks/useCart.tsx:50-51, 59-60, 74-75, 98-99). A throwing `setItem` (storage quota exceeded, say) would therefore give the generic error with the new cart already in memory and a stale snapshot. The model's rejections that leave cart and snapshot unchanged, and `CartProvider.InSync`, do not cover that case.
- JSON encoding and `localStorage` itself: the snapshot is a stored sequence of entries. A malformed stored string, which would make `JSON.parse` throw at start-up, is not modelled.
- Numbers are integers: fractional amounts passed to `updateProductAmount` are not modelled; the price is a `real` carried through without arithmetic.
- UseCart.AddKeepsIdsUnique: ids are proved unique after an add only when the catalog's answer carries the asked id, because the source copies the id from that answer.
- UseCart.CartProvider.AddProduct: its well-formedness guarantee carries the same assumption about the catalog's answer.
- The product listing page (`src/pages/Home/index.tsx`): it fetches and formats the catalog and renders it; its per-product amount lookup is display glue.
