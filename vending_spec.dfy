/**
 * The engine's scalar state and, for each operation, the state it leaves
 * behind. The engine class states its effect through these functions, and the
 * lemmas below state what the operations promise about them.
 */
module VendingSpec {
  import opened Products

  /** The denominations the machine accepts, in cents. */
  const DuaRibu := 2000
  const LimaRibu := 5000
  const SepuluhRibu := 10000
  const DuaPuluhRibu := 20000
  const LimaPuluhRibu := 50000
  const AcceptedCoins: set<int> := {DuaRibu, LimaRibu, SepuluhRibu, DuaPuluhRibu, LimaPuluhRibu}

  /** The change the machine holds when it is built. */
  const InitialChangeInUsc := 400

  /** The display messages; amounts are carried in cents instead of as formatted text. */
  datatype Message =
    | InsertCoin
    | ExactChangeOnly
    | SoldOut
    | ThankYou
    | Available(usc: int)  // the currency in flight
    | Price(usc: int)      // the cost of a product that could not be paid for

  /**
   * Everything the engine holds besides the stock counts: the currency in
   * flight, the return tray, the change reserve and the pending message.
   */
  datatype EngineState = EngineState(currency: int, inReturn: int, change: int, message: Message)

  /** The scan of the catalog made when no currency is in flight. */
  function IdleMessage(products: seq<Product>, change: int): (m: Message)
    ensures m == InsertCoin || m == ExactChangeOnly
    ensures m == ExactChangeOnly <==> exists i :: 0 <= i < |products| && products[i].costInUsc > change
  {
    if products == [] then InsertCoin
    else if products[0].costInUsc > change then ExactChangeOnly
    else
      var m := IdleMessage(products[1..], change);
      assert forall i :: 1 <= i < |products| ==> products[i] == products[1..][i - 1];
      m
  }

  /** The largest cost in a non-empty catalog. */
  function MaxCost(products: seq<Product>): (c: int)
    requires products != []
    ensures forall i :: 0 <= i < |products| ==> products[i].costInUsc <= c
    ensures exists i :: 0 <= i < |products| && products[i].costInUsc == c
  {
    if |products| == 1 then products[0].costInUsc
    else
      var rest := MaxCost(products[1..]);
      assert forall i :: 1 <= i < |products| ==> products[i] == products[1..][i - 1];
      if products[0].costInUsc >= rest then products[0].costInUsc else rest
  }

  /**
   * The machine asks for exact change exactly when its reserve cannot cover
   * the most expensive product.
   */
  lemma ExactChangeIffReserveBelowMaxCost(products: seq<Product>, change: int)
    ensures IdleMessage(products, change) == ExactChangeOnly
        <==> products != [] && MaxCost(products) > change
  {
  }

  /** The message the display refresh leaves pending for the given state. */
  function NextMessage(products: seq<Product>, s: EngineState): (m: Message)
    ensures s.currency != 0 ==> m == Available(s.currency)
    ensures s.currency == 0 ==> m == IdleMessage(products, s.change)
  {
    if s.currency == 0 then IdleMessage(products, s.change) else Available(s.currency)
  }

  /**
   * The display refresh: hands out the pending message and leaves the one
   * derived from the state pending in its place.
   */
  function RefreshStep(products: seq<Product>, s: EngineState): (r: (EngineState, Message))
    ensures r.1 == s.message
    ensures r.0.currency == s.currency && r.0.inReturn == s.inReturn && r.0.change == s.change
    ensures r.0.message == NextMessage(products, s)
  {
    (s.(message := NextMessage(products, s)), s.message)
  }

  /** The state of a newly built machine: no money in flight or in the tray. */
  function InitialState(products: seq<Product>): (s: EngineState)
    ensures s.currency == 0 && s.inReturn == 0 && s.change == InitialChangeInUsc
    ensures s.message == IdleMessage(products, InitialChangeInUsc)
  {
    RefreshStep(products, EngineState(0, 0, InitialChangeInUsc, InsertCoin)).0
  }

  /**
   * Inserting a coin: an accepted one is added to the currency in flight and
   * shown; any other value goes to the return tray, so none is lost.
   */
  function InsertStep(s: EngineState, usc: int): (r: (EngineState, bool))
    ensures r.1 <==> usc in AcceptedCoins
    ensures r.0.currency + r.0.inReturn == s.currency + s.inReturn + usc
    ensures r.0.change == s.change
    ensures r.1 ==> r.0.currency == s.currency + usc && r.0.message == Available(r.0.currency)
    ensures !r.1 ==> r.0.currency == s.currency && r.0.message == s.message
  {
    if usc in AcceptedCoins then
      var currency := s.currency + usc;
      (s.(currency := currency, message := Available(currency)), true)
    else
      (s.(inReturn := s.inReturn + usc), false)
  }

  /**
   * One purchase attempt on an entry with `available` units of a product
   * costing `cost`. A sold-out entry is reported before a shortfall; a failed
   * attempt changes only the message. A successful one spends the cost, puts
   * the rest of the currency in the return tray and pays that change out of
   * the reserve, which may go below zero.
   */
  function PurchaseStep(s: EngineState, available: int, cost: int): (r: (EngineState, bool))
    ensures r.1 <==> available != 0 && s.currency >= cost
    ensures available == 0 ==> r.0 == s.(message := SoldOut)
    ensures available != 0 && s.currency < cost ==> r.0 == s.(message := Price(cost))
    ensures r.1 ==> r.0.currency == 0 && r.0.message == ThankYou
    ensures r.1 ==> r.0.inReturn + cost == s.inReturn + s.currency
    ensures r.1 ==> r.0.change + r.0.inReturn == s.change + s.inReturn
  {
    if available == 0 then
      (s.(message := SoldOut), false)
    else if s.currency - cost < 0 then
      (s.(message := Price(cost)), false)
    else
      var owed := s.currency - cost;
      (EngineState(0, s.inReturn + owed, s.change - owed, ThankYou), true)
  }

  /** Returning the currency in flight to the tray, then refreshing the display. */
  function ReturnStep(products: seq<Product>, s: EngineState): (r: EngineState)
    ensures r.currency == 0 && r.inReturn == s.inReturn + s.currency && r.change == s.change
    ensures r.message == IdleMessage(products, s.change)
  {
    RefreshStep(products, s.(currency := 0, inReturn := s.inReturn + s.currency)).0
  }

  /** Emptying the return tray; nothing else changes. */
  function CollectStep(s: EngineState): (r: EngineState)
    ensures r.inReturn == 0
    ensures r.currency == s.currency && r.change == s.change && r.message == s.message
  {
    s.(inReturn := 0)
  }

  /** A second refresh with nothing in between hands out the derived message and keeps it pending. */
  lemma RefreshTwiceIsStable(products: seq<Product>, s: EngineState)
    ensures var s1 := RefreshStep(products, s).0;
            RefreshStep(products, s1) == (s1, NextMessage(products, s))
  {
  }

  /** A sequence of coins inserted one after another. */
  function InsertAll(s: EngineState, coins: seq<int>): (r: EngineState)
    decreases |coins|
  {
    if coins == [] then s else InsertAll(InsertStep(s, coins[0]).0, coins[1..])
  }

  function Sum(xs: seq<int>): (total: int)
  {
    if xs == [] then 0 else xs[0] + Sum(xs[1..])
  }

  /** The coins the machine accepts, in order. */
  function AcceptedOf(coins: seq<int>): (r: seq<int>)
    ensures forall c :: c in r ==> c in AcceptedCoins
  {
    if coins == [] then []
    else if coins[0] in AcceptedCoins then [coins[0]] + AcceptedOf(coins[1..])
    else AcceptedOf(coins[1..])
  }

  /** The values the machine rejects, in order. */
  function RejectedOf(coins: seq<int>): (r: seq<int>)
    ensures forall c :: c in r ==> c !in AcceptedCoins
  {
    if coins == [] then []
    else if coins[0] in AcceptedCoins then RejectedOf(coins[1..])
    else [coins[0]] + RejectedOf(coins[1..])
  }

  /**
   * After any sequence of insertions the currency in flight has grown by the
   * accepted coins and the return tray by the rejected values; the reserve is
   * untouched.
   */
  lemma {:induction false} InsertAllAccumulates(s: EngineState, coins: seq<int>)
    ensures InsertAll(s, coins).currency == s.currency + Sum(AcceptedOf(coins))
    ensures InsertAll(s, coins).inReturn == s.inReturn + Sum(RejectedOf(coins))
    ensures InsertAll(s, coins).change == s.change
    decreases |coins|
  {
    if coins != [] {
      var s1 := InsertStep(s, coins[0]).0;
      InsertAllAccumulates(s1, coins[1..]);
      if coins[0] in AcceptedCoins {
        assert AcceptedOf(coins) == [coins[0]] + AcceptedOf(coins[1..]);
        assert RejectedOf(coins) == RejectedOf(coins[1..]);
      } else {
        assert AcceptedOf(coins) == AcceptedOf(coins[1..]);
        assert RejectedOf(coins) == [coins[0]] + RejectedOf(coins[1..]);
      }
    }
  }

  /**
   * Paying `cost + owed` for an available product: the change owed goes to the
   * tray and out of the reserve; with exact payment neither moves.
   */
  lemma ChangeComesOutOfReserve(s: EngineState, available: int, cost: int, owed: int)
    requires available != 0 && owed >= 0 && s.currency == cost + owed
    ensures var r := PurchaseStep(s, available, cost);
            r.1 && r.0.currency == 0 && r.0.inReturn == s.inReturn + owed && r.0.change == s.change - owed
  {
  }

  /** The reserve never grows: a purchase pays change out of it and nothing pays into it. */
  lemma ReserveNeverGrows(products: seq<Product>, s: EngineState, usc: int, available: int, cost: int)
    ensures InsertStep(s, usc).0.change == s.change
    ensures RefreshStep(products, s).0.change == s.change
    ensures PurchaseStep(s, available, cost).0.change <= s.change
    ensures ReturnStep(products, s).change == s.change
    ensures CollectStep(s).change == s.change
  {
  }

  /** With no currency in flight only a free product can be bought. */
  lemma IdlePurchaseOnlyIfFree(s: EngineState, available: int, cost: int)
    requires s.currency == 0 && cost >= 0
    ensures PurchaseStep(s, available, cost).1 ==> cost == 0
  {
  }

  /**
   * Two products costing 6000 and 8000 with the initial reserve of 400: paying
   * 7000 for the first leaves the reserve at -600, since nothing guards it.
   */
  lemma ReserveCanGoNegative(products: seq<Product>)
    requires |products| == 2 && products[0].costInUsc == 6000 && products[1].costInUsc == 8000
    ensures var s0 := InitialState(products);
            s0.message == ExactChangeOnly &&
            var (s1, a1) := InsertStep(s0, 5000);
            a1 && s1.message == Available(5000) &&
            var (s2, p2) := PurchaseStep(s1, 2, 6000);
            !p2 && s2.message == Price(6000) && s2.currency == 5000 &&
            var (s3, a3) := InsertStep(s2, 2000);
            a3 && s3.currency == 7000 &&
            var (s4, p4) := PurchaseStep(s3, 2, 6000);
            p4 && s4.change == -600 && s4.inReturn == 1000 && s4.currency == 0
  {
  }
}
