/** The cart store (`CartProvider` in src/hooks/useCart.tsx): the in-memory cart,
    its persisted snapshot, and the three operations that change them.

    Each operation first decides, from the current cart and the answers of the stock
    and catalog services, what the new cart is and which outcome the shopper sees
    (the step functions below); the `CartProvider` methods then commit that decision
    by replacing the cart and overwriting the snapshot, as `setCart` and
    `localStorage.setItem` do. */
module UseCart {
  import opened CartEntries

  /** What an operation ends in: success, the stock-exceeded notice, or the
      operation's generic failure notice. */
  datatype Outcome = Ok | StockExceeded | GenericError

  /** The answer of a service call: a value, or any failure (network, not found). */
  datatype Result<T> = Success(value: T) | Failure

  /** The outcome of an operation and the cart it leaves behind. */
  datatype Step = Step(outcome: Outcome, cart: seq<Entry>)

  /** The cart at start-up: the stored snapshot when there is one, else empty.
      Reloading a saved cart gives that cart back. */
  function InitialCart(snapshot: Option<seq<Entry>>): (c: seq<Entry>)
    ensures snapshot == Some(c) || (snapshot == None && c == [])
  {
    match snapshot
    case Some(s) => s
    case None => []
  }

  /** `addProduct(productId)`, given the stock service's answer `stock` and the
      catalog's answer `product` (consulted only when the id is not in the cart). */
  function AddStep(cart: seq<Entry>, productId: int, stock: Result<int>, product: Result<Metadata>): (r: Step)
    // Any rejection leaves the cart as it was.
    ensures r.outcome != Ok ==> r.cart == cart
    // A failed stock lookup is a generic failure.
    ensures stock.Failure? ==> r.outcome == GenericError
    // A present entry is refused exactly when the first one's amount equals the stock.
    ensures stock.Success? && HasId(cart, productId) ==>
      (r.outcome == StockExceeded <==> Find(cart, productId).value.amount == stock.value)
    // Only a present entry can be refused for stock.
    ensures r.outcome == StockExceeded ==> HasId(cart, productId)
    // A present entry is otherwise incremented by one, nothing else changing.
    ensures stock.Success? && HasId(cart, productId) && r.outcome != StockExceeded ==>
      r.outcome == Ok && |r.cart| == |cart| &&
      forall i :: 0 <= i < |cart| ==>
        r.cart[i] == if cart[i].id == productId then cart[i].(amount := cart[i].amount + 1) else cart[i]
    // An absent id is appended, whatever the stock, exactly when the catalog answers.
    ensures stock.Success? && !HasId(cart, productId) ==> (r.outcome == Ok <==> product.Success?)
    ensures stock.Success? && !HasId(cart, productId) && product.Success? ==>
      |r.cart| == |cart| + 1 && r.cart[..|cart|] == cart && r.cart[|cart|] == NewEntry(product.value)
  {
    if stock.Failure? then Step(GenericError, cart)
    else
      match Find(cart, productId)
      case Some(existing) =>
        if existing.amount == stock.value then Step(StockExceeded, cart)
        else Step(Ok, Incremented(cart, productId))
      case None =>
        if product.Failure? then Step(GenericError, cart)
        else Step(Ok, cart + [NewEntry(product.value)])
  }

  /** `removeProduct(productId)`. */
  function RemoveStep(cart: seq<Entry>, productId: int): (r: Step)
    ensures r.outcome == Ok <==> HasId(cart, productId)
    ensures r.outcome != Ok ==> r.outcome == GenericError && r.cart == cart
    // On success every entry with the id is gone, every other one kept, in order.
    ensures r.outcome == Ok ==>
      !HasId(r.cart, productId) && |r.cart| < |cart| && IsSubsequence(r.cart, cart) &&
      forall e: Entry :: e.id != productId ==> multiset(r.cart)[e] == multiset(cart)[e]
  {
    if Find(cart, productId).None? then Step(GenericError, cart)
    else
      var r := Removed(cart, productId);
      assert !HasId(r, productId) by {
        forall i | 0 <= i < |r| ensures r[i].id != productId {
          assert r[i] in multiset(r);
        }
      }
      Step(Ok, r)
  }

  /** `updateProductAmount({productId, amount})`, given the stock service's answer
      `stock` (consulted only after the id and the amount have been accepted). */
  function UpdateAmountStep(cart: seq<Entry>, productId: int, amount: int, stock: Result<int>): (r: Step)
    ensures r.outcome != Ok ==> r.cart == cart
    // An absent id or an amount below one fails whatever the stock service says.
    ensures !HasId(cart, productId) || amount < 1 ==> r.outcome == GenericError
    ensures r.outcome == StockExceeded <==>
      HasId(cart, productId) && amount >= 1 && stock.Success? && stock.value < amount
    ensures r.outcome == Ok <==>
      HasId(cart, productId) && amount >= 1 && stock.Success? && amount <= stock.value
    // On success the entry's amount becomes exactly `amount`, nothing else changing.
    ensures r.outcome == Ok ==>
      |r.cart| == |cart| &&
      forall i :: 0 <= i < |cart| ==>
        r.cart[i] == if cart[i].id == productId then cart[i].(amount := amount) else cart[i]
  {
    if Find(cart, productId).None? || amount < 1 then Step(GenericError, cart)
    else if stock.Failure? then Step(GenericError, cart)
    else if stock.value < amount then Step(StockExceeded, cart)
    else Step(Ok, WithAmount(cart, productId, amount))
  }

  /** The catalog answers for the product that was asked for. */
  predicate AnswersFor(product: Result<Metadata>, productId: int) {
    product.Success? ==> product.value.id == productId
  }

  /** Adding keeps ids unique, provided the catalog answers for the asked id
      (the appended entry takes its id from the catalog's answer). */
  lemma AddKeepsIdsUnique(cart: seq<Entry>, productId: int, stock: Result<int>, product: Result<Metadata>)
    requires UniqueIds(cart)
    requires AnswersFor(product, productId)
    ensures UniqueIds(AddStep(cart, productId, stock, product).cart)
  {
  }

  /** Removing keeps ids unique. */
  lemma RemoveKeepsIdsUnique(cart: seq<Entry>, productId: int)
    requires UniqueIds(cart)
    ensures UniqueIds(RemoveStep(cart, productId).cart)
  {
    if HasId(cart, productId) {
      SubsequenceKeepsUniqueIds(RemoveStep(cart, productId).cart, cart);
    }
  }

  /** Changing an amount keeps ids unique. */
  lemma UpdateKeepsIdsUnique(cart: seq<Entry>, productId: int, amount: int, stock: Result<int>)
    requires UniqueIds(cart)
    ensures UniqueIds(UpdateAmountStep(cart, productId, amount, stock).cart)
  {
  }

  /** Adding keeps quantities positive. */
  lemma AddKeepsAmountsPositive(cart: seq<Entry>, productId: int, stock: Result<int>, product: Result<Metadata>)
    requires AmountsPositive(cart)
    ensures AmountsPositive(AddStep(cart, productId, stock, product).cart)
  {
  }

  /** Removing keeps quantities positive. */
  lemma RemoveKeepsAmountsPositive(cart: seq<Entry>, productId: int)
    requires AmountsPositive(cart)
    ensures AmountsPositive(RemoveStep(cart, productId).cart)
  {
  }

  /** Changing an amount keeps quantities positive: amounts below one are refused. */
  lemma UpdateKeepsAmountsPositive(cart: seq<Entry>, productId: int, amount: int, stock: Result<int>)
    requires AmountsPositive(cart)
    ensures AmountsPositive(UpdateAmountStep(cart, productId, amount, stock).cart)
  {
  }

  /** With unique ids, a successful add increments the one entry with the id. */
  lemma AddIncrementsTheEntry(cart: seq<Entry>, productId: int, stock: Result<int>,
                              product: Result<Metadata>, k: int)
    requires UniqueIds(cart)
    requires 0 <= k < |cart| && cart[k].id == productId
    requires stock.Success? && cart[k].amount != stock.value
    ensures AddStep(cart, productId, stock, product) ==
      Step(Ok, cart[k := cart[k].(amount := cart[k].amount + 1)])
  {
  }

  /** With unique ids, a successful remove deletes exactly the one entry with the id. */
  lemma RemoveDeletesTheEntry(cart: seq<Entry>, productId: int, k: int)
    requires UniqueIds(cart)
    requires 0 <= k < |cart| && cart[k].id == productId
    ensures RemoveStep(cart, productId) == Step(Ok, cart[..k] + cart[k + 1..])
  {
    RemovedIsDeleteAt(cart, productId, k);
  }

  /** An entry already above the stock is still incremented: the check is `===`
      on the first entry with the id, so only equality refuses. */
  lemma AddAboveStockStillIncrements(cart: seq<Entry>, productId: int, stockAmount: int,
                                     product: Result<Metadata>, k: int)
    requires 0 <= k < |cart| && cart[k].id == productId
    requires forall j :: 0 <= j < k ==> cart[j].id != productId
    requires cart[k].amount > stockAmount
    ensures AddStep(cart, productId, Success(stockAmount), product) ==
      Step(Ok, Incremented(cart, productId))
  {
    FindAt(cart, productId, k);
  }

  /** A product not yet in the cart is added even with no stock at all. */
  lemma AddAbsentIgnoresStock(cart: seq<Entry>, m: Metadata)
    requires !HasId(cart, m.id)
    ensures AddStep(cart, m.id, Success(0), Success(m)) == Step(Ok, cart + [NewEntry(m)])
  {
  }

  /** The cart store: the cart shown to the shopper and the snapshot in storage. */
  class CartProvider {
    var cart: seq<Entry>
    var stored: Option<seq<Entry>>

    /** Reloading the snapshot gives back the cart in memory. */
    ghost predicate InSync()
      reads this
    {
      InitialCart(stored) == cart
    }

    /** At most one entry per product, every amount positive. */
    ghost predicate WellFormed()
      reads this
    {
      UniqueIds(cart) && AmountsPositive(cart)
    }

    /** The state initialiser: load the snapshot `snapshot` found in storage. */
    constructor (snapshot: Option<seq<Entry>>)
      ensures cart == InitialCart(snapshot) && stored == snapshot
      ensures InSync()
    {
      stored := snapshot;
      match snapshot {
        case Some(s) => cart := s;
        case None => cart := [];
      }
    }

    method AddProduct(productId: int, stock: Result<int>, product: Result<Metadata>) returns (outcome: Outcome)
      requires InSync()
      modifies this
      ensures InSync()
      ensures Step(outcome, cart) == AddStep(old(cart), productId, stock, product)
      ensures outcome == Ok ==> stored == Some(cart)
      ensures outcome != Ok ==> cart == old(cart) && stored == old(stored)
      ensures old(WellFormed()) && AnswersFor(product, productId) ==> WellFormed()
    {
      if WellFormed() && AnswersFor(product, productId) {
        AddKeepsIdsUnique(cart, productId, stock, product);
        AddKeepsAmountsPositive(cart, productId, stock, product);
      }
      if stock.Failure? {
        return GenericError;
      }
      var existing := Find(cart, productId);
      if existing.Some? && existing.value.amount == stock.value {
        return StockExceeded;
      }
      if existing.Some? {
        var newCartItems := Incremented(cart, productId);
        cart := newCartItems;
        stored := Some(newCartItems);
        return Ok;
      }
      if product.Failure? {
        return GenericError;
      }
      var newCartItems := cart + [NewEntry(product.value)];
      cart := newCartItems;
      stored := Some(newCartItems);
      return Ok;
    }

    method RemoveProduct(productId: int) returns (outcome: Outcome)
      requires InSync()
      modifies this
      ensures InSync()
      ensures Step(outcome, cart) == RemoveStep(old(cart), productId)
      ensures outcome == Ok ==> stored == Some(cart)
      ensures outcome != Ok ==> cart == old(cart) && stored == old(stored)
      ensures old(WellFormed()) ==> WellFormed()
    {
      if WellFormed() {
        RemoveKeepsIdsUnique(cart, productId);
        RemoveKeepsAmountsPositive(cart, productId);
      }
      if Find(cart, productId).None? {
        return GenericError;
      }
      var newCartItems := Removed(cart, productId);
      cart := newCartItems;
      stored := Some(newCartItems);
      return Ok;
    }

    method UpdateProductAmount(productId: int, amount: int, stock: Result<int>) returns (outcome: Outcome)
      requires InSync()
      modifies this
      ensures InSync()
      ensures Step(outcome, cart) == UpdateAmountStep(old(cart), productId, amount, stock)
      ensures outcome == Ok ==> stored == Some(cart)
      ensures outcome != Ok ==> cart == old(cart) && stored == old(stored)
      ensures old(WellFormed()) ==> WellFormed()
    {
      if WellFormed() {
        UpdateKeepsIdsUnique(cart, productId, amount, stock);
        UpdateKeepsAmountsPositive(cart, productId, amount, stock);
      }
      if Find(cart, productId).None? || amount < 1 {
        return GenericError;
      }
      if stock.Failure? {
        return GenericError;
      }
      if stock.value < amount {
        return StockExceeded;
      }
      var newCartItems := WithAmount(cart, productId, amount);
      cart := newCartItems;
      stored := Some(newCartItems);
      return Ok;
    }
  }

  /** Product 7 with a stock of 3, added four times to an empty cart: the amount
      climbs to 3, and the fourth add is refused with the cart left as it was. */
  method AddUntilStockRunsOut() {
    var store := new CartProvider(None);
    var m := Metadata(7, "Sneaker", 179.9, "sneaker.jpg");
    var first := store.AddProduct(7, Success(3), Success(m));
    assert first == Ok && store.cart == [Entry(7, "Sneaker", 179.9, "sneaker.jpg", 1)];
    var second := store.AddProduct(7, Success(3), Success(m));
    assert second == Ok && store.cart == [Entry(7, "Sneaker", 179.9, "sneaker.jpg", 2)];
    var third := store.AddProduct(7, Success(3), Success(m));
    assert third == Ok && store.cart == [Entry(7, "Sneaker", 179.9, "sneaker.jpg", 3)];
    var fourth := store.AddProduct(7, Success(3), Success(m));
    assert fourth == StockExceeded && store.cart == [Entry(7, "Sneaker", 179.9, "sneaker.jpg", 3)];
    assert store.stored == Some(store.cart);
  }
}
