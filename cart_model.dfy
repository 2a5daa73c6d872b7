/** The shopping cart of the storefront as values: the products it holds,
    the invariant it keeps, and the three transitions the cart provider
    offers (add a product, remove a product, set a product's amount).

    The remote stock and catalog services are not called here: what they
    answered is passed in as a `Response`, and the notification the
    provider shows is replaced by an `Outcome`. */
module CartModel {

  datatype Option<T> = None | Some(value: T)

  /** The display fields of a product; the cart logic never looks at them. */
  datatype Details = Details(title: string, price: real, image: string)

  /** A catalog product together with the quantity of it held in the cart. */
  datatype Product = Product(id: int, amount: int, details: Details)

  /** The cart in display order (the order products were first added). */
  type Cart = seq<Product>

  /** What a remote call gave back: its data, or a rejected request (the
      awaited `api.get` throws), which makes the operation end in its catch
      block. An answer whose data has the wrong shape is not modelled. */
  datatype Response<T> = Received(value: T) | RequestFailed

  /** The result of one cart operation. Only `Ok` carries a new cart; every
      other outcome leaves the cart exactly as it was (storage writes are
      taken to succeed).
      - OutOfStock: the "requested quantity exceeds stock" notification;
      - NotFound: removal of a product the cart does not hold;
      - Error: the generic failure notification of the operation;
      - NoOp: the operation returned silently without any change. */
  datatype Outcome = Ok(cart: Cart) | OutOfStock | NotFound | Error | NoOp

  /** `cart.some(prod => prod.id === id)` */
  predicate HasId(c: Cart, id: int) {
    exists k :: 0 <= k < |c| && c[k].id == id
  }

  predicate UniqueIds(c: Cart) {
    forall i, j :: 0 <= i < j < |c| ==> c[i].id != c[j].id
  }

  predicate PositiveAmounts(c: Cart) {
    forall i :: 0 <= i < |c| ==> c[i].amount >= 1
  }

  /** The cart invariant: no two entries share an id and every amount is at least 1. */
  predicate Valid(c: Cart) {
    UniqueIds(c) && PositiveAmounts(c)
  }

  /** The position `cart.find(prod => prod.id === id)` stops at: the first
      entry with that id, or None when there is none. */
  function IndexOf(c: Cart, id: int): (r: Option<nat>)
    ensures r.Some? ==> r.value < |c| && c[r.value].id == id
    ensures r.Some? ==> forall k :: 0 <= k < r.value ==> c[k].id != id
    ensures r.None? <==> !HasId(c, id)
  {
    if c == [] then None
    else if c[0].id == id then Some(0)
    else
      match IndexOf(c[1..], id)
      case None =>
        assert forall k :: 1 <= k < |c| ==> c[k] == c[1..][k - 1];
        None
      case Some(k) => Some(k + 1)
  }

  /** `cart.filter(prod => prod.id !== id)`: every entry with another id, in order. */
  function WithoutId(c: Cart, id: int): (r: Cart)
    ensures |r| <= |c| && (HasId(c, id) ==> |r| < |c|)
    ensures forall p :: p in r <==> p in c && p.id != id
  {
    if c == [] then []
    else if c[0].id == id then WithoutId(c[1..], id)
    else [c[0]] + WithoutId(c[1..], id)
  }

  /** addProduct: the stock is queried first; a product already in the cart
      gets one more unit if the stock allows it, a product not yet in the
      cart is fetched from the catalog and then appended with amount 1 if
      at least one unit is in stock. `fetched` is the catalog's answer; it
      is looked at only on the path where the source asks for it. */
  function Add(c: Cart, productId: int, stock: Response<int>, fetched: Response<Product>): (r: Outcome)
    ensures r.Ok? || r.OutOfStock? || r.Error?
    ensures stock.RequestFailed? ==> r == Error
    ensures stock.Received? && IndexOf(c, productId).Some? ==>
      var i := IndexOf(c, productId).value;
      if stock.value < c[i].amount + 1 then r == OutOfStock
      else
        r.Ok? && |r.cart| == |c| &&
        r.cart[i] == c[i].(amount := c[i].amount + 1) &&
        forall k :: 0 <= k < |c| && k != i ==> r.cart[k] == c[k]
    ensures stock.Received? && !HasId(c, productId) ==>
      if fetched.RequestFailed? then r == Error
      else if stock.value < 1 then r == OutOfStock
      else
        r.Ok? && |r.cart| == |c| + 1 && r.cart[..|c|] == c &&
        r.cart[|c|] == fetched.value.(amount := 1)
  {
    match stock
    case RequestFailed => Error
    case Received(stockAmount) =>
      match IndexOf(c, productId)
      case Some(i) =>
        if stockAmount < c[i].amount + 1 then OutOfStock
        else Ok(c[i := c[i].(amount := c[i].amount + 1)])
      case None =>
        match fetched
        case RequestFailed => Error
        case Received(product) =>
          if stockAmount < 1 then OutOfStock
          else Ok(c + [product.(amount := 1)])
  }

  /** removeProduct: a product the cart holds is filtered out; removing one
      it does not hold is a failure. */
  function Remove(c: Cart, productId: int): (r: Outcome)
    ensures r.Ok? || r.NotFound?
    ensures r.NotFound? <==> !HasId(c, productId)
    ensures r.Ok? ==> |r.cart| < |c| && !HasId(r.cart, productId)
    ensures r.Ok? ==> forall p :: p in r.cart <==> p in c && p.id != productId
  {
    if HasId(c, productId) then
      Ok(WithoutId(c, productId))
    else NotFound
  }

  /** updateProductAmount: a non-positive amount is ignored; otherwise the
      stock is queried and checked before the cart is searched, and the
      entry found gets the requested amount. A product the cart does not
      hold is never added. */
  function Update(c: Cart, productId: int, amount: int, stock: Response<int>): (r: Outcome)
    ensures r.Ok? || r.OutOfStock? || r.Error? || r.NoOp?
    ensures amount <= 0 ==> r == NoOp
    ensures amount > 0 && stock.RequestFailed? ==> r == Error
    ensures amount > 0 && stock.Received? && stock.value < amount ==> r == OutOfStock
    ensures amount > 0 && stock.Received? && stock.value >= amount && !HasId(c, productId) ==> r == NoOp
    ensures amount > 0 && stock.Received? && stock.value >= amount && IndexOf(c, productId).Some? ==>
      var i := IndexOf(c, productId).value;
      r.Ok? && |r.cart| == |c| &&
      r.cart[i] == c[i].(amount := amount) &&
      forall k :: 0 <= k < |c| && k != i ==> r.cart[k] == c[k]
  {
    if amount <= 0 then NoOp
    else
      match stock
      case RequestFailed => Error
      case Received(stockAmount) =>
        if stockAmount < amount then OutOfStock
        else
          match IndexOf(c, productId)
          case Some(i) => Ok(c[i := c[i].(amount := amount)])
          case None => NoOp
  }
}
