# Shopping cart of the RocketShoes storefront, in Dafny

This project models the cart provider of a storefront web client
(`src/hooks/useCart.tsx`). The provider holds an ordered list of products.
Each product has an integer `id` and an `amount` (the quantity in the cart).
The provider offers three operations:

- **add a product**: one more unit of a product already in the cart, or the
  product appended with amount 1; both are bounded by the stock the stock
  service reports;
- **remove a product**: the product is filtered out; removing a product that
  is not in the cart is a failure;
- **set a product's amount**: the stock is checked first; then the entry's
  amount is overwritten if the product is in the cart, and otherwise nothing
  happens.

Every successful change replaces the held cart and writes the whole cart to
browser storage under the key `@RocketShoes:cart`.

The model has three files:

- `cart_model.dfy` (module `CartModel`): the values and the three
  transitions as functions. `Product` and `Cart` are the data. When its
  answers matter, the stock and catalog services appear as `Response`
  parameters `Received(value) | RequestFailed`. The notification the
  provider shows is returned as an `Outcome`:
  `Ok(newCart) | OutOfStock | NotFound | Error | NoOp`. `Valid` is the cart
  invariant: the ids are unique and every amount is at least 1.
  `IndexOf` is `Array.prototype.find` (the FIRST match) and `WithoutId` is
  `filter` (it drops EVERY match). So the model also says what happens to a
  cart that breaks the invariant.
- `cart_lemmas.dfy` (module `CartLemmas`): lemmas that need more than one
  function's contract. Removal keeps order. Each operation keeps the
  invariant. Removing a freshly added product undoes the add. A short
  session is worked through.
- `cart_provider.dfy` (module `CartStore`): the provider as a class
  `CartProvider` with a `cart` field and a `stored` field (what the storage
  key holds). Its methods do what the handlers do: copy the cart, find the
  entry with a loop, change the copy, then commit. Each one is proved to
  return the outcome of the matching `CartModel` function. It is also proved
  to change the cart and the stored copy on `Ok` only, to keep the stored
  copy equal to the cart, and to keep the invariant.

Two details of the code decide which outcome is reported:

- `addProduct` fetches the product record (line 54) BEFORE it checks the
  stock for a product not yet in the cart (line 57). A rejected catalog call
  is therefore reported as the generic error even when the stock is 0.
- The initializer passes any non-empty stored string to `JSON.parse`
  (line 29), which throws on a string that is not valid JSON; it does not
  fall back to an empty cart. The model does not parse: the storage holds a
  cart value or nothing.

## Model

| member | source | states |
|---|---|---|
| CartModel.IndexOf | src/hooks/useCart.tsx:38 | the result is the position of the first entry with the given id, with no earlier entry having that id; it is None exactly when no entry has the id |
| CartModel.WithoutId | src/hooks/useCart.tsx:80 | the result holds exactly the entries whose id differs from the given one, is never longer than the cart, and is shorter when the id occurs |
| CartModel.Add | src/hooks/useCart.tsx:35-74 | a rejected stock call gives Error. A present entry with amount a and stock below a+1 gives OutOfStock; otherwise only that entry changes, to amount a+1, and the length stays the same. For an absent id, a rejected catalog call gives Error whatever the stock; stock below 1 gives OutOfStock; otherwise the result is the old cart followed by the fetched record with amount 1. No other outcome occurs |
| CartModel.Remove | src/hooks/useCart.tsx:76-91 | NotFound exactly when no entry has the id; otherwise Ok with a shorter cart that has no entry with that id and keeps every other entry |
| CartModel.Update | src/hooks/useCart.tsx:93-122 | amount <= 0 gives NoOp. Otherwise a rejected stock call gives Error, and stock below amount gives OutOfStock whether or not the product is present. With enough stock, an absent id gives NoOp, and a present id changes only that entry's amount to the requested one |
| CartLemmas.WithoutIdConcat | src/hooks/useCart.tsx:80 | filtering a concatenation is the concatenation of the filtered parts, so the kept entries stay in their order |
| CartLemmas.WithoutIdAbsent | src/hooks/useCart.tsx:80 | filtering out an id that no entry has returns the cart unchanged |
| CartLemmas.RemoveExact | src/hooks/useCart.tsx:78-83 | with unique ids, removing the product at position i gives exactly the entries before and after i in their order, and the cart is one entry shorter |
| CartLemmas.RemovePreservesValid | src/hooks/useCart.tsx:76-91 | a successful removal from a valid cart gives a valid cart |
| CartLemmas.AddPreservesValid | src/hooks/useCart.tsx:35-74 | a successful add to a valid cart gives a valid cart, when the catalog answers with the record of the requested id |
| CartLemmas.UpdatePreservesValid | src/hooks/useCart.tsx:93-122 | a successful amount change on a valid cart gives a valid cart; the guard on amount <= 0 keeps zero and negative amounts out |
| CartLemmas.RemoveUndoesAdd | src/hooks/useCart.tsx:53-65 | a successful add of a product the cart does not hold, followed by its removal, gives back the original cart |
| CartLemmas.Session | src/hooks/useCart.tsx:35-122 | from an empty cart with stock 5: add gives amount 1 and a second add gives 2; setting 5 succeeds; setting 6 is out of stock; removal empties the cart |
| CartStore.FindEntry | src/hooks/useCart.tsx:38 | the loop returns the first position holding the id, or None when no entry has it; this equals IndexOf |
| CartStore.CartProvider.constructor | src/hooks/useCart.tsx:25-33 | the provider starts from the stored cart and the stored copy agrees with it |
| CartStore.CartProvider.Reload | src/hooks/useCart.tsx:25-33 | a provider started from what the storage key holds after any sequence of operations begins with exactly the cart held before, so a stored cart reloads unchanged |
| CartStore.CartProvider.Commit | src/hooks/useCart.tsx:48-49 | the held cart and the stored copy both become the new cart |
| CartStore.CartProvider.AddProduct | src/hooks/useCart.tsx:35-74 | the outcome is Add of the old cart. Cart and stored copy change only on Ok, to the new cart. The stored copy stays in step with the cart. The cart invariant is kept when the catalog record carries the requested id |
| CartStore.CartProvider.RemoveProduct | src/hooks/useCart.tsx:76-91 | the outcome is Remove of the old cart. Cart and stored copy change only on Ok. The stored copy stays in step, and the invariant is kept |
| CartStore.CartProvider.UpdateProductAmount | src/hooks/useCart.tsx:93-122 | the outcome is Update of the old cart. Cart and stored copy change only on Ok. The stored copy stays in step, and the invariant is kept |

## Left out

- The React plumbing (`createContext`, `useState`, the context provider, `useCart`, JSX): it holds the cart and has no cart logic. The class fields stand in for the state.
- The remote calls to `stock/<id>` and `products/<id>`: this is network I/O. Their answers are parameters, and `RequestFailed` stands only for a rejected `api.get`. The catalog answer given to `Add` is used only on the path where the code makes that call.
- Malformed answers are not modelled. A stock answer without a numeric `amount` makes `stockAmount` undefined (lines 40 and 102); every `<` comparison with it is false, so the code takes the success path (increment at 47, append at 62, overwrite at 113) rather than an error. Catalog data that is null with stock below 1 gives the out-of-stock notification at 57-58, because the record is never touched; the model only has well-formed records.
- Failing storage writes are not modelled: `localStorage.setItem` is taken to succeed. In the code, when it throws in `addProduct` (49, 64) or `updateProductAmount` (115), `setCart` has already run (48, 63, 114) and the found entry was already changed in place (47, 113), so the generic error is shown with the cart replaced. In `removeProduct` a throw at 81 shows the removal error for a product the cart holds, before `setCart` at 82; `Remove` never gives that outcome.
- JSON serialisation in `localStorage` and `JSON.parse`: the stored value is modelled as a cart value, so the round trip is identity by construction and a malformed stored string is not modelled.
- `toast.error` and its message texts: they are replaced by the `Outcome` variants. `Error` stands for the generic message of whichever operation returned it.
- `async`/`await`: operations run one at a time to completion, so the cart captured by a handler is the cart when it starts.
- Aliasing from the shallow copy `[...cart]`: the code mutates the found product object in place (lines 47 and 113). Products are values here, so the old cart is never changed. The code's old cart object is changed only on success paths, where it is then replaced.
- JavaScript numbers: ids, amounts and stock are unbounded integers. Fractional and NaN values, and the precision limit of doubles, are not modelled.
- CartLemmas.AddPreservesValid: requires that the catalog record carries the requested id. The code appends whatever record the service returns and does not check this.
