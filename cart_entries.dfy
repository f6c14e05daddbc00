/** The entries of a shopping cart and the list operations the cart store builds
    its new carts with: `find`, `map` and `filter` over an ordered sequence. */
module CartEntries {

  datatype Option<T> = None | Some(value: T)

  /** A catalog price: a floating-point currency amount that the cart only carries. */
  type Price = real

  /** One product in the cart (`Product`): catalog fields plus the quantity `amount`. */
  datatype Entry = Entry(id: int, title: string, price: Price, image: string, amount: int)

  /** What the catalog answers for one product: the entry without its quantity. */
  datatype Metadata = Metadata(id: int, title: string, price: Price, image: string)

  /** The entry `{...data, amount: 1}` built from a catalog answer: the catalog's
      fields pass through unchanged and the quantity is one. */
  function NewEntry(m: Metadata): (e: Entry)
    ensures Metadata(e.id, e.title, e.price, e.image) == m && e.amount == 1
  {
    Entry(m.id, m.title, m.price, m.image, 1)
  }

  predicate HasId(cart: seq<Entry>, id: int) {
    exists i :: 0 <= i < |cart| && cart[i].id == id
  }

  /** At most one entry per product id. */
  ghost predicate UniqueIds(cart: seq<Entry>) {
    forall i, j :: 0 <= i < j < |cart| ==> cart[i].id != cart[j].id
  }

  /** Every quantity is a positive integer. */
  ghost predicate AmountsPositive(cart: seq<Entry>) {
    forall i :: 0 <= i < |cart| ==> cart[i].amount >= 1
  }

  /** `a` is `b` with some elements dropped, the rest kept in their order. */
  ghost predicate IsSubsequence<T>(a: seq<T>, b: seq<T>)
    decreases |b|
  {
    a == [] ||
    (b != [] && ((a[0] == b[0] && IsSubsequence(a[1..], b[1..])) || IsSubsequence(a, b[1..])))
  }

  /** `cart.find(product => product.id === id)`: the first entry with that id, if any. */
  function Find(cart: seq<Entry>, id: int): (r: Option<Entry>)
    ensures r.None? <==> !HasId(cart, id)
    ensures r.Some? ==> r.value.id == id && r.value in cart
  {
    if cart == [] then None
    else if cart[0].id == id then Some(cart[0])
    else
      var rest := Find(cart[1..], id);
      assert HasId(cart, id) ==> HasId(cart[1..], id) by {
        if HasId(cart, id) {
          var i :| 0 <= i < |cart| && cart[i].id == id;
          assert cart[1..][i - 1].id == id;
        }
      }
      assert HasId(cart[1..], id) ==> HasId(cart, id) by {
        if HasId(cart[1..], id) {
          var i :| 0 <= i < |cart[1..]| && cart[1..][i].id == id;
          assert cart[i + 1].id == id;
        }
      }
      rest
  }

  /** `cart.map(p => p.id === id ? {...p, amount: p.amount + 1} : p)`. */
  function Incremented(cart: seq<Entry>, id: int): (r: seq<Entry>)
    ensures |r| == |cart|
    ensures forall i :: 0 <= i < |cart| ==>
      r[i] == if cart[i].id == id then cart[i].(amount := cart[i].amount + 1) else cart[i]
  {
    if cart == [] then []
    else
      var head := if cart[0].id == id then cart[0].(amount := cart[0].amount + 1) else cart[0];
      [head] + Incremented(cart[1..], id)
  }

  /** `cart.map(p => p.id === id ? {...p, amount} : p)`. */
  function WithAmount(cart: seq<Entry>, id: int, amount: int): (r: seq<Entry>)
    ensures |r| == |cart|
    ensures forall i :: 0 <= i < |cart| ==>
      r[i] == if cart[i].id == id then cart[i].(amount := amount) else cart[i]
  {
    if cart == [] then []
    else
      var head := if cart[0].id == id then cart[0].(amount := amount) else cart[0];
      [head] + WithAmount(cart[1..], id, amount)
  }

  /** `cart.filter(p => p.id !== id)`: every entry with that id goes, every other one
      stays, as often as it occurred and in its original relative order. */
  function Removed(cart: seq<Entry>, id: int): (r: seq<Entry>)
    ensures forall e :: multiset(r)[e] == if e.id == id then 0 else multiset(cart)[e]
    ensures IsSubsequence(r, cart)
    ensures HasId(cart, id) ==> |r| < |cart|
  {
    if cart == [] then []
    else
      var rest := Removed(cart[1..], id);
      assert cart == [cart[0]] + cart[1..];
      SubsequenceOfTail(rest, cart);
      if cart[0].id == id then
        assert HasId(cart, id) ==> |rest| < |cart| by {
          assert multiset(rest)[cart[0]] == 0;
          assert multiset(cart)[cart[0]] > 0;
          MultisetBelow(rest, cart);
        }
        rest
      else
        assert HasId(cart, id) ==> |[cart[0]] + rest| < |cart| by {
          if HasId(cart, id) {
            var i :| 0 <= i < |cart| && cart[i].id == id;
            assert cart[1..][i - 1].id == id;
          }
        }
        [cart[0]] + rest
  }

  /** Dropping one more element from the front keeps a subsequence a subsequence. */
  lemma SubsequenceOfTail<T>(a: seq<T>, b: seq<T>)
    requires b != []
    requires IsSubsequence(a, b[1..])
    ensures IsSubsequence(a, b)
  {
  }

  /** A multiset strictly contained in another comes from a strictly shorter sequence. */
  lemma MultisetBelow(a: seq<Entry>, b: seq<Entry>)
    requires forall e :: multiset(a)[e] <= multiset(b)[e]
    requires exists e :: multiset(a)[e] < multiset(b)[e]
    ensures |a| < |b|
  {
    assert multiset(a) <= multiset(b);
    assert multiset(a) != multiset(b);
    assert |multiset(a)| < |multiset(b)| by {
      var d := multiset(b) - multiset(a);
      assert multiset(b) == multiset(a) + d;
      assert d != multiset{};
    }
  }

  /** Everything in a subsequence is in the sequence it was taken from. */
  lemma {:induction false} SubsequenceElements<T>(a: seq<T>, b: seq<T>)
    requires IsSubsequence(a, b)
    ensures forall x :: x in a ==> x in b
    decreases |b|
  {
    if a == [] {
    } else if a[0] == b[0] && IsSubsequence(a[1..], b[1..]) {
      SubsequenceElements(a[1..], b[1..]);
      assert a == [a[0]] + a[1..];
      assert b == [b[0]] + b[1..];
    } else {
      SubsequenceElements(a, b[1..]);
      assert b == [b[0]] + b[1..];
    }
  }

  /** Taking a subsequence cannot create a duplicate id. */
  lemma {:induction false} SubsequenceKeepsUniqueIds(a: seq<Entry>, b: seq<Entry>)
    requires IsSubsequence(a, b)
    requires UniqueIds(b)
    ensures UniqueIds(a)
    decreases |b|
  {
    if a == [] {
    } else if a[0] == b[0] && IsSubsequence(a[1..], b[1..]) {
      SubsequenceKeepsUniqueIds(a[1..], b[1..]);
      SubsequenceElements(a[1..], b[1..]);
      forall j | 0 < j < |a| ensures a[0].id != a[j].id {
        assert a[j] == a[1..][j - 1];
        assert a[j] in b[1..];
        var k :| 0 <= k < |b[1..]| && b[1..][k] == a[j];
        assert b[k + 1] == a[j];
      }
    } else {
      SubsequenceKeepsUniqueIds(a, b[1..]);
    }
  }

  /** `find` returns the first entry with the id: the one at index `k` when no
      earlier entry has that id. */
  lemma {:induction false} FindAt(cart: seq<Entry>, id: int, k: int)
    requires 0 <= k < |cart| && cart[k].id == id
    requires forall j :: 0 <= j < k ==> cart[j].id != id
    ensures Find(cart, id) == Some(cart[k])
  {
    if k > 0 {
      FindAt(cart[1..], id, k - 1);
    }
  }

  /** With unique ids, the filter removes exactly the one entry that has the id. */
  lemma {:induction false} RemovedIsDeleteAt(cart: seq<Entry>, id: int, k: int)
    requires UniqueIds(cart)
    requires 0 <= k < |cart| && cart[k].id == id
    ensures Removed(cart, id) == cart[..k] + cart[k + 1..]
  {
    var tail := cart[1..];
    if k == 0 {
      assert forall j :: 0 <= j < |tail| ==> tail[j].id != id by {
        forall j | 0 <= j < |tail| ensures tail[j].id != id {
          assert tail[j] == cart[j + 1];
        }
      }
      RemovedNoOp(tail, id);
    } else {
      assert UniqueIds(tail) && tail[k - 1].id == id by {
        forall i, j | 0 <= i < j < |tail| ensures tail[i].id != tail[j].id {
          assert tail[i] == cart[i + 1] && tail[j] == cart[j + 1];
        }
      }
      RemovedIsDeleteAt(tail, id, k - 1);
      assert Removed(cart, id) == [cart[0]] + Removed(tail, id) by {
        assert cart[0].id != id;
      }
      DeleteAtAfterHead(cart, k);
    }
  }

  /** Deleting position `k > 0` commutes with taking off the first element. */
  lemma DeleteAtAfterHead<T>(s: seq<T>, k: int)
    requires 0 < k < |s|
    ensures [s[0]] + (s[1..][..k - 1] + s[1..][k..]) == s[..k] + s[k + 1..]
  {
  }

  /** Filtering out an id nobody has leaves the cart as it was. */
  lemma {:induction false} RemovedNoOp(cart: seq<Entry>, id: int)
    requires forall j :: 0 <= j < |cart| ==> cart[j].id != id
    ensures Removed(cart, id) == cart
  {
    if cart != [] {
      RemovedNoOp(cart[1..], id);
    }
  }
}
