# Vending machine transaction engine, in Dafny

This project models the transaction engine of an Android vending-machine app. The engine keeps four values:

- the currency the current user has inserted ("in flight"),
- the return tray,
- an aggregate change reserve, which starts at 400 cents,
- the message the display shows next.

It also holds a fixed, ordered catalog of stock entries. Each entry is a product (a name and a cost in cents) with a count of units left.

The engine's operations are:

- insert a coin, checked against a fixed list of denominations;
- refresh the display, which runs one step behind: it hands out the pending message and derives the next one;
- buy a product by its index;
- return the coins in flight to the tray;
- collect the tray;
- list the products.

Modules, one per source class plus two helpers:

- `Results`: the exceptions the entity classes throw (`Fault`), and `Result`/`Outcome`/`Option` wrappers.
- `Products` (`Product.java`): `Product` is a subset type of the record `ProductFields`. Every product therefore satisfies the constructor's checks. The module also has the validating constructor, value equality and the 32-bit hash code.
- `Stocks` (`Stock.java`): the class `Stock`. Its product is a `const`, and `available` is decremented in place.
- `VendingSpec`: the engine's scalar state `EngineState` and one function per operation giving the state it leaves behind. It also holds the lemmas about those functions: the exact-change rule, accumulation over a sequence of coins, where change comes from, and the negative-reserve scenario.
- `VendingMachines` (`VendingMachine.java`): the class `VendingMachine`. It holds the catalog as a `const seq<Stock>` and the four mutable fields. Each method's postcondition ties `State()` after the call to the matching `VendingSpec` function of `old(State())`, and says how the stock counts change.

The display messages form the datatype `Message` and carry amounts in cents. The source formats those amounts as dollar text with floating point; the model does not.

The catalog entries are objects, and the same `Stock` may appear twice in the list. For that reason "only the chosen entry changes" is stated per object, not per index.

Five small clients of the class use only its contracts to replay short sessions:

- `ShortfallScenario`: a purchase with too little currency only shows the price.
- `OverpaymentScenario`: paying 7000 for a product costing 6000 leaves the reserve at -600 and does not touch the other entry.
- `ExactChangeScenario`: a product dearer than the reserve makes the idle display ask for exact change.
- `RejectionScenario`: a 50-cent coin is rejected into the tray, an index past the end fails, and the coins are returned and collected.
- `LastUnitThenSoldOut`: after the last unit is sold, a second purchase fails as sold out.

Three behaviours of the code are kept as written:

- The change reserve is reduced by the change owed without any guard, so it can go negative (`VendingMachine.java:182`).
- A rejected coin of any value, including a negative one, is added to the return tray, which can therefore be negative (`VendingMachine.java:100`).
- The initial reserve is the field initialiser 400, not a constructor argument (`VendingMachine.java:56`).

## Model

| member | source | states |
|---|---|---|
| `Products.NewProduct` | app/src/main/java/com/sofia/testvendingmachine/models/Product.java:22-33 | Succeeds iff the name is non-empty and the cost is not negative, and the getters then return exactly the arguments. An empty name fails with `EmptyName`, checked before the cost; otherwise a negative cost fails with `NegativeCost`. |
| `Products.Equals` | app/src/main/java/com/sofia/testvendingmachine/models/Product.java:49-57 | Two products are equal iff they agree on name and cost. Null or an object of another class is never equal. |
| `Products.EqualsIsEquivalence` | app/src/main/java/com/sofia/testvendingmachine/models/Product.java:49-57 | Product equality is reflexive, symmetric and transitive. |
| `Products.Wrap32` | app/src/main/java/com/sofia/testvendingmachine/models/Product.java:60-65 | The hash code's `int` arithmetic: the result is in the 32-bit range and congruent to the exact value mod 2^32. Values already in range are unchanged. |
| `Products.HashCode` | app/src/main/java/com/sofia/testvendingmachine/models/Product.java:60-65 | The hash is a 32-bit value congruent, mod 2^32, to (17·31 + hash(name))·13 + cost. |
| `Products.EqualProductsHashEqually` | app/src/main/java/com/sofia/testvendingmachine/models/Product.java:49-65 | Equal products have equal hash codes, for any string hash. |
| `Stocks.Stock.constructor` | app/src/main/java/com/sofia/testvendingmachine/models/Stock.java:16-23 | For a non-negative count, stores the product and the count exactly and establishes the invariant `available >= 0`. |
| `Stocks.Stock.New` | app/src/main/java/com/sofia/testvendingmachine/models/Stock.java:16-23 | Builds a fresh, valid entry with the given product and count iff the count is not negative. Otherwise it fails with `NegativeStock`. |
| `Stocks.Stock.GetAvailable` | app/src/main/java/com/sofia/testvendingmachine/models/Stock.java:30-32 | Returns the count, which the invariant makes a natural number. |
| `Stocks.Stock.ReduceAvailable` | app/src/main/java/com/sofia/testvendingmachine/models/Stock.java:39-49 | With at least one unit, removes exactly one. With none, fails with `NoStockAvailable` and leaves the count unchanged. `available >= 0` is preserved. |
| `VendingSpec.IdleMessage` | app/src/main/java/com/sofia/testvendingmachine/models/VendingMachine.java:112-124 | The idle message is exact-change-only iff some product costs more than the reserve, and insert-coin otherwise. |
| `VendingSpec.MaxCost` | app/src/main/java/com/sofia/testvendingmachine/models/VendingMachine.java:116-124 | The cost of the most expensive product: at least every cost, and equal to one of them. |
| `VendingSpec.ExactChangeIffReserveBelowMaxCost` | app/src/main/java/com/sofia/testvendingmachine/models/VendingMachine.java:116-124 | The machine asks for exact change iff the catalog is non-empty and the reserve is below the most expensive product's cost. |
| `VendingSpec.NextMessage` | app/src/main/java/com/sofia/testvendingmachine/models/VendingMachine.java:112-130 | The derived message is the currency in flight when that is non-zero, and the idle message otherwise. |
| `VendingSpec.RefreshStep` | app/src/main/java/com/sofia/testvendingmachine/models/VendingMachine.java:107-133 | The refresh returns the previously pending message, keeps every balance, and leaves the derived message pending. |
| `VendingSpec.RefreshTwiceIsStable` | app/src/main/java/com/sofia/testvendingmachine/models/VendingMachine.java:107-133 | A second refresh with nothing in between hands out the derived message and changes nothing. |
| `VendingSpec.InitialState` | app/src/main/java/com/sofia/testvendingmachine/models/VendingMachine.java:40-70 | A new machine has no currency in flight, an empty tray, a reserve of 400 and the idle message for that reserve. |
| `VendingSpec.InsertStep` | app/src/main/java/com/sofia/testvendingmachine/models/VendingMachine.java:83-103 | A coin is accepted iff it is one of the five denominations. An accepted coin is added to the currency and shown. A rejected value goes to the tray and leaves the currency and message alone. No value is lost, and the reserve is unchanged. |
| `VendingSpec.InsertAllAccumulates` | app/src/main/java/com/sofia/testvendingmachine/models/VendingMachine.java:83-103 | After any sequence of insertions, the currency has grown by the sum of the accepted coins and the tray by the sum of the rejected values. The reserve is unchanged. |
| `VendingSpec.PurchaseStep` | app/src/main/java/com/sofia/testvendingmachine/models/VendingMachine.java:151-192 | A purchase succeeds iff a unit is left and the currency covers the cost. Sold-out is reported before a shortfall, and a failure changes only the message. On success the currency drops to 0 and the message becomes thank-you. The currency in flight equals the cost plus what the tray gains, and the reserve loses exactly what the tray gains. |
| `VendingSpec.ChangeComesOutOfReserve` | app/src/main/java/com/sofia/testvendingmachine/models/VendingMachine.java:170-191 | Paying cost + k for an available product succeeds: k goes to the tray and out of the reserve. With exact payment (k = 0), neither the tray nor the reserve moves. |
| `VendingSpec.ReserveNeverGrows` | app/src/main/java/com/sofia/testvendingmachine/models/VendingMachine.java:175-186 | No operation increases the reserve. Only a purchase lowers it. |
| `VendingSpec.IdlePurchaseOnlyIfFree` | app/src/main/java/com/sofia/testvendingmachine/models/VendingMachine.java:158-168 | With no currency in flight, only a product that costs 0 can be bought. |
| `VendingSpec.ReserveCanGoNegative` | app/src/main/java/com/sofia/testvendingmachine/models/VendingMachine.java:182 | With products costing 6000 and 8000 and a reserve of 400, the following session leaves the reserve at -600: 5000 is inserted; a purchase fails and shows the price; 2000 is inserted; the purchase then succeeds. |
| `VendingSpec.ReturnStep` | app/src/main/java/com/sofia/testvendingmachine/models/VendingMachine.java:195-202 | Return moves the whole currency to the tray, leaves 0 in flight, keeps the reserve and leaves the idle message pending. |
| `VendingSpec.CollectStep` | app/src/main/java/com/sofia/testvendingmachine/models/VendingMachine.java:205-207 | Collecting empties the tray and changes nothing else. |
| `VendingMachines.VendingMachine.constructor` | app/src/main/java/com/sofia/testvendingmachine/models/VendingMachine.java:40-71 | Keeps the given catalog and establishes the invariant. The state is `InitialState` of the catalog's products. |
| `VendingMachines.VendingMachine.GetProducts` | app/src/main/java/com/sofia/testvendingmachine/models/VendingMachine.java:211-214 | The products of the catalog, one per entry, in catalog order. |
| `VendingMachines.VendingMachine.InsertCoin` | app/src/main/java/com/sofia/testvendingmachine/models/VendingMachine.java:83-103 | The result and new state are `InsertStep` of the old state. Stock is untouched, and currency in flight stays non-negative. |
| `VendingMachines.VendingMachine.UpdateAndGetCurrentMessageForDisplay` | app/src/main/java/com/sofia/testvendingmachine/models/VendingMachine.java:107-133 | The catalog scan with early exit returns and leaves pending exactly what `RefreshStep` says. It modifies only the pending message and keeps the invariant. |
| `VendingMachines.VendingMachine.GetAcceptedUsc` | app/src/main/java/com/sofia/testvendingmachine/models/VendingMachine.java:136-138 | The currency in flight, a natural number under the invariant. |
| `VendingMachines.VendingMachine.GetUscInReturn` | app/src/main/java/com/sofia/testvendingmachine/models/VendingMachine.java:141-143 | The value in the return tray. |
| `VendingMachines.VendingMachine.PurchaseProduct` | app/src/main/java/com/sofia/testvendingmachine/models/VendingMachine.java:146-149 | An index past the end fails and changes nothing, message and stock included. Otherwise the state follows `PurchaseStep` on that entry. Only the chosen entry object loses a unit, and only on success. |
| `VendingMachines.VendingMachine.TryToPurchase` | app/src/main/java/com/sofia/testvendingmachine/models/VendingMachine.java:151-192 | The result and new state are `PurchaseStep` of the old state and the entry's count and cost. The entry loses exactly one unit iff the purchase succeeds, and every invariant is kept. |
| `VendingMachines.VendingMachine.ReturnCoins` | app/src/main/java/com/sofia/testvendingmachine/models/VendingMachine.java:195-202 | The new state is `ReturnStep` of the old state. Stock is untouched. |
| `VendingMachines.VendingMachine.CollectCoins` | app/src/main/java/com/sofia/testvendingmachine/models/VendingMachine.java:205-207 | The new state is `CollectStep` of the old state. Only the tray field is modified, and the invariant is kept. |
| `VendingMachines.LastUnitThenSoldOut` | app/src/main/java/com/sofia/testvendingmachine/models/VendingMachine.java:151-192 | A client on a one-unit entry: the first purchase succeeds and empties the entry, so the second, with enough currency inserted, fails as sold out and keeps the currency in flight. The next refresh shows the sold-out message. |

## Left out

- 32-bit overflow of the balances: the currency, tray and reserve are unbounded integers. In Java, long runs of insertions or rejected values would wrap around. Only the hash code models `int` arithmetic.
- Message and `toString` text: the dollar amounts formatted from `(float) cents / 100` are floating-point formatting. `Message` carries the cents instead, and `toString` is not modelled.
- `String.hashCode`: a parameter of `HashCode`, because the model does not compute Java's string hash.
- The Stream library in `getProducts`: written as a sequence comprehension over the entries.
- `Stock.getProduct` and the product getters: the `const product` field and the datatype fields `name` and `costInUsc` are read directly.
- Stocks.Stock.constructor: requires a non-negative count. The exception for a negative count is modelled by `Stocks.Stock.New`.
- VendingMachines.VendingMachine.PurchaseProduct: requires `productIndex >= 0`. For a negative index, the list lookup throws an out-of-bounds exception, which is not modelled as a result.
- The catalog list is kept as a fixed sequence. Changes that whoever passed in the Java list could make to it afterwards are not modelled.
- The Android activity, the view model, the singleton repository with its hard-coded catalog, and the service interface: these are presentation, delegation and construction glue. The engine is one concrete class without dynamic dispatch.
