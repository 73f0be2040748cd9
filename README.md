# Shopping-cart state rules

A model of the cart provider of a React Native marketplace app
(`src/hooks/cart.tsx`). The provider holds an ordered list of products
(`id`, `title`, `image_url`, `price`, `quantity`). It offers three operations that
each compute a new list from the current one and replace the provider's state
with it:

- `addToCart(item)` bumps the quantity of an entry already present, or appends the
  item;
- `increment(id)` adds one unit to the matching entry;
- `decrement(id)` removes one unit from the matching entry while it holds more than
  one, then drops entries that hold no units.

Files:

- `cart.dfy`, module `Cart`: the `Product` record and the three list
  transformations as pure functions on `seq<Product>`. The source builds them from
  `find`, `map`, `filter` and object spread. The module also holds the cart
  invariant `Valid` (unique ids and every quantity at least 1), and the lemmas
  relating the operations to each other and to the invariant. `Run` applies any
  sequence of calls to a cart.
- `cart_store.dfy`, module `CartStore`: the class `CartProvider`. Its `products`
  field is the provider state. Each method assigns the list computed by `Cart`,
  as the source does through `setProducts`. Restoring from storage is also here.

Observations on the code that the model follows:

- `addToCart` on a present id runs the same map as `increment`. It bumps every entry
  with that id, which is exactly one entry when ids are unique. The incoming record
  is dropped entirely, its `quantity` included.
- `decrement(id)` after `increment(id)` restores any cart whose entries all hold at
  least one unit. `increment(id)` after
  `decrement(id)` restores the cart exactly when no entry with that id is down to
  one unit.
- The filter in `decrement` drops every entry with quantity `<= 0`, whatever its id.
  Such an entry can come from two places: a caller that adds a new record with a
  non-positive quantity, since `addToCart` trusts the quantity of a new record, or
  a stored list restored by `loadProducts`, which is adopted unchecked.
- Restoring from storage (`loadProducts`) has no error handling. A present,
  non-empty stored text is parsed and adopted as it is, and nothing checks that it
  satisfies the cart invariant. A decoding error throws inside the asynchronous
  loader before `setProducts` runs; the rejection goes unhandled and the state
  keeps its initial `[]`. The model does not represent that path.

## Model

| member | source | states |
|---|---|---|
| `Cart.Find` | src/hooks/cart.tsx:48-50 | finds nothing exactly when no entry has the id; otherwise returns the first entry with that id |
| `Cart.Increment` | src/hooks/cart.tsx:81-91 | same length and order; each entry with the id gets quantity + 1 and keeps its other fields; every other entry is unchanged |
| `Cart.DecrementQuantities` | src/hooks/cart.tsx:105-115 | same length and order; an entry with the id and quantity > 1 gets quantity - 1; every other entry, including a matching one at quantity 1, is unchanged |
| `Cart.OnlyExistent` | src/hooks/cart.tsx:117-119 | never longer than its input; every kept entry has positive quantity and is an entry of the input |
| `Cart.OnlyExistentCounts` | src/hooks/cart.tsx:117-119 | each positive-quantity entry is kept as often as it occurs, and no other entry is kept |
| `Cart.Decrement` | src/hooks/cart.tsx:105-119 | the result is never longer than the cart and holds only entries with positive quantity |
| `Cart.AddToCart` | src/hooks/cart.tsx:46-77 | an absent id: the old list with the item appended unchanged; a present id: same length, matching entries get quantity + 1 with other fields kept, others unchanged |
| `Cart.OnlyExistentAppend` | src/hooks/cart.tsx:117-119 | the filter distributes over concatenation, so it keeps the order of the entries it keeps |
| `Cart.OnlyExistentSingle` | src/hooks/cart.tsx:118 | a single entry is kept exactly when its quantity is positive |
| `Cart.OnlyExistentKeepsAll` | src/hooks/cart.tsx:117-119 | when every quantity is at least 1 the filter returns its input unchanged |
| `Cart.OnlyExistentDrops` | src/hooks/cart.tsx:117-119 | an entry with quantity <= 0 makes the filtered list strictly shorter |
| `Cart.DecrementKeepsLength` | src/hooks/cart.tsx:105-119 | on a cart whose quantities are all at least 1, `decrement` removes nothing: it equals its map step and keeps the length |
| `Cart.DecrementDropsEmptyEntries` | src/hooks/cart.tsx:117-119 | an entry of any id with quantity <= 0 is removed by `decrement`, so the cart shrinks |
| `Cart.IncrementAbsent` | src/hooks/cart.tsx:81-91 | `increment` of an id not in the cart leaves the list identical |
| `Cart.DecrementAbsent` | src/hooks/cart.tsx:105-119 | `decrement` of an id not in a cart with all quantities at least 1 leaves the list identical |
| `Cart.DecrementAtOne` | src/hooks/cart.tsx:106-119 | in a valid cart, `decrement` of an entry at quantity 1 leaves the whole cart identical (floor, no removal) |
| `Cart.AddToCartIgnoresIncoming` | src/hooks/cart.tsx:48-62 | for a present id the result does not depend on the incoming record's fields and equals `increment` of that id |
| `Cart.AddToCartKeepsValid` | src/hooks/cart.tsx:48-69 | unique ids and quantities >= 1 are preserved when the added item has quantity >= 1 |
| `Cart.IncrementKeepsUnique` | src/hooks/cart.tsx:81-91 | `increment` keeps ids unique on any list, whatever its quantities |
| `Cart.AddToCartKeepsUnique` | src/hooks/cart.tsx:48-69 | `addToCart` keeps ids unique on any list, whatever the incoming record's quantity |
| `Cart.RunKeepsUnique` | src/hooks/cart.tsx:46-129 | any sequence of calls, with any quantities in the added records, keeps ids unique |
| `Cart.IncrementKeepsValid` | src/hooks/cart.tsx:81-91 | `increment` preserves unique ids and quantities >= 1 |
| `Cart.DecrementQuantitiesKeepsValid` | src/hooks/cart.tsx:105-115 | the map step of `decrement` preserves unique ids and quantities >= 1 |
| `Cart.OnlyExistentKeepsUnique` | src/hooks/cart.tsx:117-119 | filtering a list with unique ids yields a list with unique ids |
| `Cart.DecrementKeepsUnique` | src/hooks/cart.tsx:105-119 | `decrement` preserves unique ids on any list, also one with non-positive quantities |
| `Cart.DecrementKeepsValid` | src/hooks/cart.tsx:105-121 | `decrement` preserves the cart invariant and, on a valid cart, removes nothing |
| `Cart.StepKeepsValid` | src/hooks/cart.tsx:46-129 | each of the three operations keeps the invariant and never shortens a valid cart |
| `Cart.RunKeepsValid` | src/hooks/cart.tsx:46-129 | any sequence of calls, each added item holding at least one unit, keeps ids unique and quantities >= 1 and never removes an entry |
| `Cart.DecrementUndoesIncrement` | src/hooks/cart.tsx:81-115 | `decrement(id)` after `increment(id)` restores any cart whose quantities are all at least 1 |
| `Cart.IncrementUndoesDecrement` | src/hooks/cart.tsx:81-115 | `increment(id)` after `decrement(id)` restores such a cart if and only if every entry with the id has quantity > 1 |
| `Cart.ScenarioAddThenAddAgain` | src/hooks/cart.tsx:46-77 | adding p1 to an empty cart gives [p1 x1]; adding it again gives [p1 x2] with no duplicate entry |
| `Cart.ScenarioDecrementToFloor` | src/hooks/cart.tsx:103-129 | decrementing [p1 x2] gives [p1 x1]; decrementing again leaves [p1 x1] |
| `CartStore.CartProvider.constructor` | src/hooks/cart.tsx:29 | the provider state starts as the empty list, which is valid |
| `CartStore.CartProvider.LoadProducts` | src/hooks/cart.tsx:32-40 | a present, non-empty stored text becomes the parsed list unchecked; a missing or empty one gives [] |
| `CartStore.CartProvider.AddToCart` | src/hooks/cart.tsx:46-77 | the state becomes `Cart.AddToCart` of the old state, which appends for a new id, keeps the length for a present one, and keeps the invariant |
| `CartStore.CartProvider.Increment` | src/hooks/cart.tsx:79-101 | the state becomes `Cart.Increment` of the old state; an absent id changes nothing; the invariant is kept |
| `CartStore.CartProvider.Decrement` | src/hooks/cart.tsx:103-129 | the state becomes `Cart.Decrement` of the old state, equal to the map step when every quantity is at least 1; the invariant is kept |

## Left out

- Writing the cart to the device's key-value store under `'@GoMarketplace:cart'`
  after every operation. It is asynchronous, fire-and-forget I/O, and its success
  or failure never reaches the caller.
- JSON encoding and decoding of the cart. It is a foreign library, so
  `LoadProducts` takes the decoding as a total function parameter. A decoding
  error throws inside the un-awaited loader before `setProducts` runs, leaving the
  state at its initial `[]`; that path is not modelled, and no serialisation round
  trip is claimed.
- Reading storage at start-up is an effect that runs once. `LoadProducts` receives
  the stored value as a parameter (`None` for a missing value).
- The React plumbing: context creation, hooks, memoisation and the Provider
  element. Also out is `useCart`'s error when it is used outside a provider, which
  is context lookup rather than cart logic.
- Interleavings of overlapping asynchronous calls. Each callback closes over a
  snapshot of `products`, which is a matter of UI timing. The model applies calls
  one after another.
- `price` is a JavaScript floating-point number that is carried and never computed
  on. It is modelled as a `real`, and NaN is left out, so two records compare equal
  field by field.
- `quantity` is a JavaScript floating-point number, modelled as an unbounded
  `int`. Above 2^53 the source's `quantity + 1` (cart.tsx lines 57 and 85) loses
  precision, and fractional and NaN quantities are not represented.
- Cart.DecrementUndoesIncrement: holds for unbounded integers only; in the source a
  quantity of 2^53 is not restored, since `2^53 + 1` evaluates to `2^53`.
- Product ids and titles are JavaScript strings, modelled as `seq<char>` compared
  with `==`, like `===`.
