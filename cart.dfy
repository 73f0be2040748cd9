/**
  The list-transformation rules of the shopping cart: the three operations
  (addToCart, increment, decrement) that compute a new product list from the
  current one. Each is a pure function on `seq<Product>`; the provider state
  that holds the list is modelled in module CartStore.
 */
module Cart {

  datatype Option<+T> = None | Some(value: T)

  /** The unit price is carried through unchanged and never computed on. */
  type Price = real

  /** One cart entry. `imageUrl` is the record's `image_url` field. */
  datatype Product = Product(
    id: string,
    title: string,
    imageUrl: string,
    price: Price,
    quantity: int)

  /** Some entry of the list has the given id. */
  predicate HasId(products: seq<Product>, id: string)
  {
    exists i :: 0 <= i < |products| && products[i].id == id
  }

  /** No two entries share an id. */
  predicate UniqueIds(products: seq<Product>)
  {
    forall i, j :: 0 <= i < j < |products| ==> products[i].id != products[j].id
  }

  /** Every entry holds at least one unit. */
  predicate AllAtLeastOne(products: seq<Product>)
  {
    forall i :: 0 <= i < |products| ==> products[i].quantity >= 1
  }

  /** The cart invariant: unique ids and no entry below quantity 1. */
  predicate Valid(products: seq<Product>)
  {
    UniqueIds(products) && AllAtLeastOne(products)
  }

  /** `products.find(current => current.id === id)`: the first entry with that id. */
  function Find(products: seq<Product>, id: string): (r: Option<Product>)
    ensures r.None? <==> !HasId(products, id)
    ensures r.Some? ==>
      exists i :: 0 <= i < |products| && products[i] == r.value && r.value.id == id &&
        forall j :: 0 <= j < i ==> products[j].id != id
  {
    if products == [] then None
    else if products[0].id == id then Some(products[0])
    else
      var r := Find(products[1..], id);
      assert r.Some? ==>
        exists i :: 1 <= i < |products| && products[i] == r.value &&
          forall j :: 0 <= j < i ==> products[j].id != id
      by {
        if r.Some? {
          var k :| 0 <= k < |products[1..]| && products[1..][k] == r.value && r.value.id == id &&
            forall j :: 0 <= j < k ==> products[1..][j].id != id;
          assert products[k + 1] == r.value;
          assert forall j :: 0 <= j < k + 1 ==> products[j].id != id by {
            forall j | 0 <= j < k + 1 ensures products[j].id != id {
              if j > 0 { assert products[j] == products[1..][j - 1]; }
            }
          }
        }
      }
      assert HasId(products, id) ==> HasId(products[1..], id) by {
        if HasId(products, id) {
          var i :| 0 <= i < |products| && products[i].id == id;
          assert products[1..][i - 1] == products[i];
        }
      }
      r
  }

  /**
    The map in `increment(id)` (cart.tsx:81-91), also used by `addToCart` for a
    product already present (cart.tsx:53-62): every entry with the id gets one
    more unit, every other entry is passed through.
   */
  function Increment(products: seq<Product>, id: string): (r: seq<Product>)
    ensures |r| == |products|
    ensures forall i :: 0 <= i < |products| ==>
      if products[i].id == id
      then r[i] == products[i].(quantity := products[i].quantity + 1)
      else r[i] == products[i]
  {
    if products == [] then []
    else
      var head := if products[0].id == id
                  then products[0].(quantity := products[0].quantity + 1)
                  else products[0];
      [head] + Increment(products[1..], id)
  }

  /**
    The map in `decrement(id)` (cart.tsx:105-115): an entry with the id loses one
    unit only while it holds more than one; every other entry is passed through.
   */
  function DecrementQuantities(products: seq<Product>, id: string): (r: seq<Product>)
    ensures |r| == |products|
    ensures forall i :: 0 <= i < |products| ==>
      if products[i].id == id && products[i].quantity > 1
      then r[i] == products[i].(quantity := products[i].quantity - 1)
      else r[i] == products[i]
  {
    if products == [] then []
    else
      var head := if products[0].id == id && products[0].quantity > 1
                  then products[0].(quantity := products[0].quantity - 1)
                  else products[0];
      [head] + DecrementQuantities(products[1..], id)
  }

  /**
    The filter in `decrement(id)` (cart.tsx:117-119): keeps, in order, exactly the
    entries whose quantity is positive. Every occurrence of such an entry survives;
    none of any other entry does.
   */
  function OnlyExistent(products: seq<Product>): (r: seq<Product>)
    ensures |r| <= |products|
    ensures forall k :: 0 <= k < |r| ==> r[k].quantity > 0 && r[k] in products
  {
    if products == [] then []
    else
      var rest := OnlyExistent(products[1..]);
      if products[0].quantity > 0 then [products[0]] + rest else rest
  }

  /** `decrement(id)`: lower the matching entry, then drop entries without units. */
  function Decrement(products: seq<Product>, id: string): (r: seq<Product>)
    ensures |r| <= |products|
    ensures forall k :: 0 <= k < |r| ==> r[k].quantity > 0
  {
    OnlyExistent(DecrementQuantities(products, id))
  }

  /**
    `addToCart(newProduct)` (cart.tsx:46-77): when an entry with the incoming id
    exists, every entry with that id gets one more unit and the incoming record is
    dropped; otherwise the incoming record is appended unchanged.
   */
  function AddToCart(products: seq<Product>, newProduct: Product): (r: seq<Product>)
    ensures !HasId(products, newProduct.id) ==> r == products + [newProduct]
    ensures HasId(products, newProduct.id) ==> |r| == |products|
    ensures HasId(products, newProduct.id) ==>
      forall i :: 0 <= i < |products| ==>
        if products[i].id == newProduct.id
        then r[i] == products[i].(quantity := products[i].quantity + 1)
        else r[i] == products[i]
  {
    match Find(products, newProduct.id)
    case Some(sameProduct) => Increment(products, sameProduct.id)
    case None => products + [newProduct]
  }

  // ---------------------------------------------------------------------------
  // The filter

  /**
    The filter keeps every occurrence of each entry with positive quantity and no
    occurrence of any other entry.
   */
  lemma {:induction false} OnlyExistentCounts(products: seq<Product>)
    ensures forall p ::
      multiset(OnlyExistent(products))[p] == if p.quantity > 0 then multiset(products)[p] else 0
  {
    if products != [] {
      OnlyExistentCounts(products[1..]);
      assert products == [products[0]] + products[1..];
    }
  }

  /** The filter distributes over concatenation, so it preserves order. */
  lemma {:induction false} OnlyExistentAppend(a: seq<Product>, b: seq<Product>)
    ensures OnlyExistent(a + b) == OnlyExistent(a) + OnlyExistent(b)
  {
    if a == [] {
      assert a + b == b;
    } else {
      assert (a + b)[1..] == a[1..] + b;
      assert (a + b)[0] == a[0];
      OnlyExistentAppend(a[1..], b);
    }
  }

  /** On one entry the filter keeps it exactly when its quantity is positive. */
  lemma OnlyExistentSingle(p: Product)
    ensures OnlyExistent([p]) == if p.quantity > 0 then [p] else []
  {
  }

  /** When every entry has a unit the filter removes nothing. */
  lemma {:induction false} OnlyExistentKeepsAll(products: seq<Product>)
    requires AllAtLeastOne(products)
    ensures OnlyExistent(products) == products
  {
    if products != [] {
      OnlyExistentKeepsAll(products[1..]);
      assert products == [products[0]] + products[1..];
    }
  }

  /** A list with an entry without units loses something to the filter. */
  lemma OnlyExistentDrops(products: seq<Product>, k: int)
    requires 0 <= k < |products| && products[k].quantity <= 0
    ensures |OnlyExistent(products)| < |products|
  {
    var r := OnlyExistent(products);
    OnlyExistentCounts(products);
    assert products[k] in multiset(products);
    assert multiset(r)[products[k]] == 0;
    if |r| == |products| {
      assert |multiset(r)| == |multiset(products)|;
      assert multiset(r) <= multiset(products) by {
        forall p ensures multiset(r)[p] <= multiset(products)[p] { }
      }
      assert multiset(r) == multiset(products) by {
        MultisetSubsetSameSize(multiset(r), multiset(products));
      }
      assert false;
    }
  }

  lemma MultisetSubsetSameSize(a: multiset<Product>, b: multiset<Product>)
    requires a <= b && |a| == |b|
    ensures a == b
  {
    var d := b - a;
    assert b == a + d;
    assert |d| == 0;
  }

  // ---------------------------------------------------------------------------
  // The three operations

  /** `decrement` on a list whose entries all hold a unit removes nothing. */
  lemma DecrementKeepsLength(products: seq<Product>, id: string)
    requires AllAtLeastOne(products)
    ensures Decrement(products, id) == DecrementQuantities(products, id)
    ensures |Decrement(products, id)| == |products|
  {
    OnlyExistentKeepsAll(DecrementQuantities(products, id));
  }

  /** `decrement` drops every entry, of any id, that holds no units. */
  lemma DecrementDropsEmptyEntries(products: seq<Product>, id: string, k: int)
    requires 0 <= k < |products| && products[k].quantity <= 0
    ensures |Decrement(products, id)| < |products|
  {
    OnlyExistentDrops(DecrementQuantities(products, id), k);
  }

  /** An id that is not in the cart leaves `increment` without effect. */
  lemma IncrementAbsent(products: seq<Product>, id: string)
    requires !HasId(products, id)
    ensures Increment(products, id) == products
  {
  }

  /** An id that is not in a valid cart leaves `decrement` without effect. */
  lemma DecrementAbsent(products: seq<Product>, id: string)
    requires AllAtLeastOne(products) && !HasId(products, id)
    ensures Decrement(products, id) == products
  {
    DecrementKeepsLength(products, id);
  }

  /** `decrement` of an entry that holds exactly one unit leaves the cart as it is. */
  lemma DecrementAtOne(products: seq<Product>, k: int)
    requires Valid(products) && 0 <= k < |products| && products[k].quantity == 1
    ensures Decrement(products, products[k].id) == products
  {
    DecrementKeepsLength(products, products[k].id);
  }

  /** `addToCart` of a present id ignores every field of the incoming record. */
  lemma AddToCartIgnoresIncoming(products: seq<Product>, a: Product, b: Product)
    requires HasId(products, a.id) && a.id == b.id
    ensures AddToCart(products, a) == AddToCart(products, b)
    ensures AddToCart(products, a) == Increment(products, a.id)
  {
  }

  // ---------------------------------------------------------------------------
  // Invariants kept by the operations

  lemma IncrementKeepsValid(products: seq<Product>, id: string)
    requires Valid(products)
    ensures Valid(Increment(products, id))
  {
  }

  /** `increment` never changes an id, so ids stay unique whatever the quantities. */
  lemma IncrementKeepsUnique(products: seq<Product>, id: string)
    requires UniqueIds(products)
    ensures UniqueIds(Increment(products, id))
  {
  }

  lemma DecrementQuantitiesKeepsValid(products: seq<Product>, id: string)
    requires Valid(products)
    ensures Valid(DecrementQuantities(products, id))
  {
  }

  /** `decrement` keeps ids unique on any list, since the filter only removes entries. */
  lemma {:induction false} OnlyExistentKeepsUnique(products: seq<Product>)
    requires UniqueIds(products)
    ensures UniqueIds(OnlyExistent(products))
  {
    if products != [] {
      var rest := OnlyExistent(products[1..]);
      OnlyExistentKeepsUnique(products[1..]);
      if products[0].quantity > 0 {
        forall k | 0 <= k < |rest| ensures rest[k].id != products[0].id {
          var j :| 0 <= j < |products[1..]| && products[1..][j] == rest[k];
          assert products[j + 1] == rest[k];
        }
        var r := [products[0]] + rest;
        forall i, j | 0 <= i < j < |r| ensures r[i].id != r[j].id {
          if i > 0 { assert r[i] == rest[i - 1]; }
          assert r[j] == rest[j - 1];
        }
      }
    }
  }

  lemma DecrementKeepsValid(products: seq<Product>, id: string)
    requires Valid(products)
    ensures Valid(Decrement(products, id))
    ensures Decrement(products, id) == DecrementQuantities(products, id)
  {
    DecrementKeepsLength(products, id);
  }

  lemma DecrementKeepsUnique(products: seq<Product>, id: string)
    requires UniqueIds(products)
    ensures UniqueIds(Decrement(products, id))
  {
    OnlyExistentKeepsUnique(DecrementQuantities(products, id));
  }

  lemma AddToCartKeepsValid(products: seq<Product>, newProduct: Product)
    requires Valid(products) && newProduct.quantity >= 1
    ensures Valid(AddToCart(products, newProduct))
  {
  }

  /**
    `addToCart` appends only an id that is absent, so ids stay unique whatever the
    quantity of the incoming record.
   */
  lemma AddToCartKeepsUnique(products: seq<Product>, newProduct: Product)
    requires UniqueIds(products)
    ensures UniqueIds(AddToCart(products, newProduct))
  {
  }

  // ---------------------------------------------------------------------------
  // increment and decrement undo each other

  /** `decrement(id)` after `increment(id)` restores any cart whose entries hold a unit. */
  lemma DecrementUndoesIncrement(products: seq<Product>, id: string)
    requires AllAtLeastOne(products)
    ensures Decrement(Increment(products, id), id) == products
  {
    var up := Increment(products, id);
    assert AllAtLeastOne(up);
    DecrementKeepsLength(up, id);
    var down := DecrementQuantities(up, id);
    forall i | 0 <= i < |products| ensures down[i] == products[i] {
      if products[i].id == id {
        assert up[i] == products[i].(quantity := products[i].quantity + 1);
      }
    }
    assert down == products;
  }

  /**
    `increment(id)` after `decrement(id)` restores a cart whose entries hold a unit
    exactly when no entry with that id is down to one unit.
   */
  lemma IncrementUndoesDecrement(products: seq<Product>, id: string)
    requires AllAtLeastOne(products)
    ensures Increment(Decrement(products, id), id) == products <==>
      forall i :: 0 <= i < |products| && products[i].id == id ==> products[i].quantity > 1
  {
    DecrementKeepsLength(products, id);
    var down := DecrementQuantities(products, id);
    var r := Increment(down, id);
    if forall i :: 0 <= i < |products| && products[i].id == id ==> products[i].quantity > 1 {
      forall i | 0 <= i < |products| ensures r[i] == products[i] {
        if products[i].id == id {
          assert down[i] == products[i].(quantity := products[i].quantity - 1);
        }
      }
      assert r == products;
    } else {
      var i :| 0 <= i < |products| && products[i].id == id && products[i].quantity <= 1;
      assert down[i] == products[i];
      assert r[i].quantity == products[i].quantity + 1;
    }
  }

  // ---------------------------------------------------------------------------
  // Any sequence of calls

  /** One call a user interface makes on the cart. */
  datatype Call = AddCall(item: Product) | IncrementCall(id: string) | DecrementCall(id: string)

  /** The cart after one call. */
  function Step(products: seq<Product>, call: Call): (r: seq<Product>)
  {
    match call
    case AddCall(item) => AddToCart(products, item)
    case IncrementCall(id) => Increment(products, id)
    case DecrementCall(id) => Decrement(products, id)
  }

  /** The cart after the calls are made one after another, each on the previous result. */
  function Run(products: seq<Product>, calls: seq<Call>): (r: seq<Product>)
    decreases |calls|
  {
    if calls == [] then products else Run(Step(products, calls[0]), calls[1..])
  }

  /** Every record the calls add holds at least one unit. */
  predicate AddsAtLeastOne(calls: seq<Call>)
  {
    forall k :: 0 <= k < |calls| && calls[k].AddCall? ==> calls[k].item.quantity >= 1
  }

  /** One call keeps the cart invariant and removes no entry. */
  lemma StepKeepsValid(products: seq<Product>, call: Call)
    requires Valid(products) && (call.AddCall? ==> call.item.quantity >= 1)
    ensures Valid(Step(products, call))
    ensures |Step(products, call)| >= |products|
  {
    match call {
      case AddCall(item) => AddToCartKeepsValid(products, item);
      case IncrementCall(id) => IncrementKeepsValid(products, id);
      case DecrementCall(id) => DecrementKeepsValid(products, id);
    }
  }

  /**
    No sequence of calls breaks the cart invariant (ids stay unique and no entry
    falls below one unit), and no entry ever leaves the cart.
   */
  lemma {:induction false} RunKeepsValid(products: seq<Product>, calls: seq<Call>)
    requires Valid(products) && AddsAtLeastOne(calls)
    ensures Valid(Run(products, calls))
    ensures |Run(products, calls)| >= |products|
    decreases |calls|
  {
    if calls != [] {
      StepKeepsValid(products, calls[0]);
      assert AddsAtLeastOne(calls[1..]) by {
        forall k | 0 <= k < |calls[1..]| && calls[1..][k].AddCall?
          ensures calls[1..][k].item.quantity >= 1
        {
          assert calls[1..][k] == calls[k + 1];
        }
      }
      RunKeepsValid(Step(products, calls[0]), calls[1..]);
    }
  }

  /**
    No sequence of calls, whatever quantities the added records carry, puts two
    entries with one id into the cart.
   */
  lemma {:induction false} RunKeepsUnique(products: seq<Product>, calls: seq<Call>)
    requires UniqueIds(products)
    ensures UniqueIds(Run(products, calls))
    decreases |calls|
  {
    if calls != [] {
      match calls[0] {
        case AddCall(item) => AddToCartKeepsUnique(products, item);
        case IncrementCall(id) => IncrementKeepsUnique(products, id);
        case DecrementCall(id) => DecrementKeepsUnique(products, id);
      }
      RunKeepsUnique(Step(products, calls[0]), calls[1..]);
    }
  }

  // ---------------------------------------------------------------------------
  // Worked scenarios

  lemma ScenarioAddThenAddAgain()
    ensures var p := Product("p1", "T", "u", 10.0, 1);
      AddToCart([], p) == [p] &&
      AddToCart([p], p) == [p.(quantity := 2)]
  {
  }

  lemma ScenarioDecrementToFloor()
    ensures var p := Product("p1", "T", "u", 10.0, 2);
      Decrement([p], "p1") == [p.(quantity := 1)] &&
      Decrement([p.(quantity := 1)], "p1") == [p.(quantity := 1)]
  {
    var p := Product("p1", "T", "u", 10.0, 2);
    OnlyExistentSingle(p.(quantity := 1));
  }
}
