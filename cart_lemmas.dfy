/** Properties of the cart transitions that relate several calls or need
    an argument beyond one function's contract: the filter behind removal
    keeps order, every transition keeps the cart invariant, adding a new
    product and removing it again are inverse, and the walk-through of a
    typical session. */
module CartLemmas {
  import opened CartModel

  /** Filtering distributes over concatenation, so it keeps the relative
      order of the entries it does not drop. */
  lemma {:induction false} WithoutIdConcat(a: Cart, b: Cart, id: int)
    ensures WithoutId(a + b, id) == WithoutId(a, id) + WithoutId(b, id)
  {
    if a == [] {
      assert a + b == b;
    } else {
      assert (a + b)[1..] == a[1..] + b;
      WithoutIdConcat(a[1..], b, id);
    }
  }

  /** Filtering out an id the cart does not hold changes nothing. */
  lemma {:induction false} WithoutIdAbsent(c: Cart, id: int)
    requires !HasId(c, id)
    ensures WithoutId(c, id) == c
  {
    if c != [] {
      assert c[0].id != id;
      assert !HasId(c[1..], id) by {
        forall k | 0 <= k < |c[1..]| ensures c[1..][k].id != id {
          assert c[1..][k] == c[k + 1];
        }
      }
      WithoutIdAbsent(c[1..], id);
      assert c == [c[0]] + c[1..];
    }
  }

  /** In a cart with unique ids, removing the product at position i leaves
      exactly the entries before and after it, in their order and with their
      amounts, and the cart is one shorter. */
  lemma RemoveExact(c: Cart, productId: int, i: nat)
    requires UniqueIds(c)
    requires i < |c| && c[i].id == productId
    ensures Remove(c, productId) == Ok(c[..i] + c[i + 1..])
    ensures |Remove(c, productId).cart| == |c| - 1
  {
    var pre, entry, tail := c[..i], [c[i]], c[i + 1..];
    assert c == pre + entry + tail;
    forall k | 0 <= k < |pre| ensures pre[k].id != productId {
      assert pre[k] == c[k];
    }
    forall k | 0 <= k < |tail| ensures tail[k].id != productId {
      assert tail[k] == c[i + 1 + k];
    }
    WithoutIdAbsent(pre, productId);
    WithoutIdAbsent(tail, productId);
    assert WithoutId(entry, productId) == [] by {
      assert entry[1..] == [];
    }
    WithoutIdConcat(pre, entry, productId);
    WithoutIdConcat(pre + entry, tail, productId);
    assert WithoutId(c, productId) == pre + tail;
    assert HasId(c, productId);
  }

  /** Removing a product keeps ids unique and amounts at least 1. */
  lemma RemovePreservesValid(c: Cart, productId: int)
    requires Valid(c)
    ensures Remove(c, productId).Ok? ==> Valid(Remove(c, productId).cart)
  {
    if HasId(c, productId) {
      var i := IndexOf(c, productId).value;
      RemoveExact(c, productId, i);
      var r := c[..i] + c[i + 1..];
      forall k | 0 <= k < |r| ensures r[k] == c[if k < i then k else k + 1] {
      }
    }
  }

  /** Adding a product keeps ids unique and amounts at least 1, provided the
      catalog answers with the record of the product that was asked for. */
  lemma AddPreservesValid(c: Cart, productId: int, stock: Response<int>, fetched: Response<Product>)
    requires Valid(c)
    requires fetched.Received? ==> fetched.value.id == productId
    ensures Add(c, productId, stock, fetched).Ok? ==> Valid(Add(c, productId, stock, fetched).cart)
  {
  }

  /** Setting an amount keeps ids unique and amounts at least 1; a
      non-positive amount never reaches the cart. */
  lemma UpdatePreservesValid(c: Cart, productId: int, amount: int, stock: Response<int>)
    requires Valid(c)
    ensures Update(c, productId, amount, stock).Ok? ==> Valid(Update(c, productId, amount, stock).cart)
  {
  }

  /** Adding a product the cart does not hold and then removing it gives
      back the cart as it was. */
  lemma RemoveUndoesAdd(c: Cart, productId: int, stock: Response<int>, fetched: Response<Product>)
    requires !HasId(c, productId)
    requires fetched.Received? ==> fetched.value.id == productId
    requires Add(c, productId, stock, fetched).Ok?
    ensures Remove(Add(c, productId, stock, fetched).cart, productId) == Ok(c)
  {
    var added := fetched.value.(amount := 1);
    var r := Add(c, productId, stock, fetched).cart;
    assert r == c + [added];
    WithoutIdConcat(c, [added], productId);
    WithoutIdAbsent(c, productId);
    assert WithoutId([added], productId) == [] by {
      assert [added][1..] == [];
    }
    assert r[|c|].id == productId;
  }

  /** A session: with five units in stock, add a product twice, set its
      amount to five, fail to set it to six, then remove it. */
  lemma Session(d: Details)
    ensures
      var record := Product(1, 0, d);
      var stock := Received(5);
      Add([], 1, stock, Received(record)) == Ok([Product(1, 1, d)]) &&
      Add([Product(1, 1, d)], 1, stock, Received(record)) == Ok([Product(1, 2, d)]) &&
      Update([Product(1, 2, d)], 1, 5, stock) == Ok([Product(1, 5, d)]) &&
      Update([Product(1, 5, d)], 1, 6, stock) == OutOfStock &&
      Remove([Product(1, 5, d)], 1) == Ok([])
  {
  }
}
