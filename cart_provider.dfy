/** The cart provider as a stateful object: it holds the current cart and
    the copy persisted under the storage key '@RocketShoes:cart', and its
    three operations work the way the provider's handlers do (copy the
    cart, look the product up, change the copy, then commit it). Each
    operation is proved to follow the matching transition of CartModel and
    to keep the persisted copy in step with the cart. */
module CartStore {
  import opened CartModel
  import CartLemmas

  /** The cart the provider starts from, given what the storage key holds:
      the stored cart, or an empty one when nothing is stored. */
  function Load(stored: Option<Cart>): Cart {
    match stored
    case None => []
    case Some(saved) => saved
  }

  /** `newCart.find(prod => prod.id === productId)`, returning where the
      entry is rather than the entry itself. The first three postconditions
      follow from the last one and IndexOf's contract; they are the form a
      reader checks against `find`. */
  method FindEntry(c: Cart, productId: int) returns (r: Option<nat>)
    ensures r.Some? ==> r.value < |c| && c[r.value].id == productId
    ensures r.Some? ==> forall k :: 0 <= k < r.value ==> c[k].id != productId
    ensures r.None? ==> forall k :: 0 <= k < |c| ==> c[k].id != productId
    ensures r == IndexOf(c, productId)
  {
    var i := 0;
    while i < |c|
      invariant i <= |c|
      invariant forall k :: 0 <= k < i ==> c[k].id != productId
    {
      if c[i].id == productId {
        return Some(i);
      }
      i := i + 1;
    }
    return None;
  }

  class CartProvider {
    /** The cart the provider exposes. */
    var cart: Cart
    /** What the storage key holds; None when nothing was ever stored. */
    var stored: Option<Cart>

    /** Reloading the stored copy gives the cart currently held. */
    ghost predicate Persisted()
      reads this
    {
      Load(stored) == cart
    }

    /** The initial state: read the storage key once. */
    constructor (storage: Option<Cart>)
      ensures stored == storage && cart == Load(storage)
      ensures Persisted()
    {
      stored := storage;
      cart := Load(storage);
    }

    /** setCart together with the write of the whole cart to storage. */
    method Commit(newCart: Cart)
      modifies this
      ensures cart == newCart && stored == Some(newCart)
      ensures Persisted()
    {
      stored := Some(newCart);
      cart := newCart;
    }

    /** A new session: a provider built from what the storage key holds now
        starts with the cart this one holds, stored copy included. */
    method Reload() returns (next: CartProvider)
      requires Persisted()
      ensures fresh(next)
      ensures next.cart == cart && next.stored == stored
      ensures next.Persisted()
    {
      next := new CartProvider(stored);
    }

    /** addProduct */
    method AddProduct(productId: int, stock: Response<int>, fetched: Response<Product>) returns (outcome: Outcome)
      modifies this
      ensures outcome == Add(old(cart), productId, stock, fetched)
      ensures outcome.Ok? ==> cart == outcome.cart && stored == Some(cart)
      ensures !outcome.Ok? ==> cart == old(cart) && stored == old(stored)
      ensures old(Persisted()) ==> Persisted()
      ensures Valid(old(cart)) && (fetched.Received? ==> fetched.value.id == productId) ==> Valid(cart)
    {
      var newCart := cart;
      var existing := FindEntry(newCart, productId);
      if stock.RequestFailed? {
        return Error;
      }
      var stockAmount := stock.value;
      if existing.Some? {
        var i := existing.value;
        if stockAmount < newCart[i].amount + 1 {
          return OutOfStock;
        }
        newCart := newCart[i := newCart[i].(amount := newCart[i].amount + 1)];
      } else {
        if fetched.RequestFailed? {
          return Error;
        }
        if stockAmount < 1 {
          return OutOfStock;
        }
        newCart := newCart + [fetched.value.(amount := 1)];
      }
      if Valid(cart) && (fetched.Received? ==> fetched.value.id == productId) {
        CartLemmas.AddPreservesValid(cart, productId, stock, fetched);
      }
      Commit(newCart);
      outcome := Ok(newCart);
    }

    /** removeProduct */
    method RemoveProduct(productId: int) returns (outcome: Outcome)
      modifies this
      ensures outcome == Remove(old(cart), productId)
      ensures outcome.Ok? ==> cart == outcome.cart && stored == Some(cart)
      ensures !outcome.Ok? ==> cart == old(cart) && stored == old(stored)
      ensures old(Persisted()) ==> Persisted()
      ensures Valid(old(cart)) ==> Valid(cart)
    {
      outcome := Remove(cart, productId);
      if outcome.Ok? {
        if Valid(cart) {
          CartLemmas.RemovePreservesValid(cart, productId);
        }
        Commit(outcome.cart);
      }
    }

    /** updateProductAmount */
    method UpdateProductAmount(productId: int, amount: int, stock: Response<int>) returns (outcome: Outcome)
      modifies this
      ensures outcome == Update(old(cart), productId, amount, stock)
      ensures outcome.Ok? ==> cart == outcome.cart && stored == Some(cart)
      ensures !outcome.Ok? ==> cart == old(cart) && stored == old(stored)
      ensures old(Persisted()) ==> Persisted()
      ensures Valid(old(cart)) ==> Valid(cart)
    {
      if amount <= 0 {
        return NoOp;
      }
      if stock.RequestFailed? {
        return Error;
      }
      if stock.value < amount {
        return OutOfStock;
      }
      var newCart := cart;
      var existing := FindEntry(newCart, productId);
      if existing.None? {
        return NoOp;
      }
      var i := existing.value;
      newCart := newCart[i := newCart[i].(amount := amount)];
      if Valid(cart) {
        CartLemmas.UpdatePreservesValid(cart, productId, amount, stock);
      }
      Commit(newCart);
      outcome := Ok(newCart);
    }
  }
}
