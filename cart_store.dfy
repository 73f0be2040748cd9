/**
  The cart provider's state: the `products` list that each operation replaces
  wholesale with the list computed by the rules in module Cart.
 */
module CartStore {
  import opened Cart

  class CartProvider {
    /** The current cart, in insertion order. */
    var products: seq<Product>

    /** The provider starts with an empty list. */
    constructor ()
      ensures products == []
      ensures Valid(products)
    {
      products := [];
    }

    /**
      Restoring the cart from storage. `stored` is what the store holds under the
      cart's key (None when nothing is there); `parse` stands for the text-to-list
      decoding. A present, non-empty text is decoded and adopted as it is, with
      no check that it satisfies the cart invariant; anything else gives [].
     */
    method LoadProducts(stored: Option<string>, parse: string -> seq<Product>)
      modifies this
      ensures stored.Some? && stored.value != "" ==> products == parse(stored.value)
      ensures stored.None? || stored.value == "" ==> products == []
    {
      if stored.Some? && stored.value != "" {
        products := parse(stored.value);
      } else {
        products := [];
      }
    }

    method AddToCart(newProduct: Product)
      modifies this
      ensures products == Cart.AddToCart(old(products), newProduct)
      ensures !HasId(old(products), newProduct.id) ==> products == old(products) + [newProduct]
      ensures HasId(old(products), newProduct.id) ==> |products| == |old(products)|
      ensures Valid(old(products)) && newProduct.quantity >= 1 ==> Valid(products)
    {
      if Valid(products) && newProduct.quantity >= 1 {
        AddToCartKeepsValid(products, newProduct);
      }
      products := Cart.AddToCart(products, newProduct);
    }

    method Increment(id: string)
      modifies this
      ensures products == Cart.Increment(old(products), id)
      ensures !HasId(old(products), id) ==> products == old(products)
      ensures Valid(old(products)) ==> Valid(products)
    {
      if !HasId(products, id) {
        IncrementAbsent(products, id);
      }
      if Valid(products) {
        IncrementKeepsValid(products, id);
      }
      products := Cart.Increment(products, id);
    }

    method Decrement(id: string)
      modifies this
      ensures products == Cart.Decrement(old(products), id)
      ensures AllAtLeastOne(old(products)) ==>
        products == DecrementQuantities(old(products), id)
      ensures Valid(old(products)) ==> Valid(products)
    {
      if AllAtLeastOne(products) {
        DecrementKeepsLength(products, id);
      }
      if Valid(products) {
        DecrementKeepsValid(products, id);
      }
      products := Cart.Decrement(products, id);
    }
  }
}
