/** The vending machine: the engine that the user interface drives, one call per user action. */
module VendingMachines {
  import opened Results
  import opened Products
  import opened Stocks
  import opened VendingSpec

  class VendingMachine {
    /** The catalog: fixed order and identity; only the entries' counts change. */
    const availableStock: seq<Stock>
    /** Currency inserted by the current user and not yet spent or returned. */
    var currencyInUsc: int
    /** Value in the return tray. */
    var returnInUsc: int
    /** Aggregate value available as change; it is never topped up. */
    var changeInUsc: int
    /** The message the next display refresh hands out. */
    var lastMessage: Message

    /** The object invariant: no negative currency in flight and every entry valid. */
    ghost predicate Valid()
      reads this, availableStock
    {
      currencyInUsc >= 0 &&
      forall i :: 0 <= i < |availableStock| ==> availableStock[i].Valid()
    }

    /** The scalar part of the state, as the specification functions see it. */
    function State(): (s: EngineState)
      reads this
    {
      EngineState(currencyInUsc, returnInUsc, changeInUsc, lastMessage)
    }

    /** The products of the catalog, in catalog order. */
    function GetProducts(): (products: seq<Product>)
      ensures |products| == |availableStock|
      ensures forall i :: 0 <= i < |availableStock| ==> products[i] == availableStock[i].product
    {
      seq(|availableStock|, i requires 0 <= i < |availableStock| => availableStock[i].product)
    }

    /**
     * Builds a machine over the given entries with the initial reserve, and
     * derives the first message from it.
     */
    constructor (availableStock: seq<Stock>)
      requires forall i :: 0 <= i < |availableStock| ==> availableStock[i].Valid()
      ensures Valid() && this.availableStock == availableStock
      ensures State() == InitialState(GetProducts())
    {
      this.availableStock := availableStock;
      currencyInUsc := 0;
      returnInUsc := 0;
      changeInUsc := InitialChangeInUsc;
      lastMessage := Message.InsertCoin;
      new;
      var _ := UpdateAndGetCurrentMessageForDisplay();
    }

    /**
     * Accepts one coin of an allowed denomination into the currency in flight
     * and shows the new amount; anything else goes to the return tray.
     */
    method InsertCoin(usc: int) returns (accepted: bool)
      requires Valid()
      modifies this
      ensures Valid()
      ensures (State(), accepted) == InsertStep(old(State()), usc)
    {
      if usc in AcceptedCoins {
        currencyInUsc := currencyInUsc + usc;
        lastMessage := Available(currencyInUsc);
        return true;
      }
      returnInUsc := returnInUsc + usc;
      return false;
    }

    /**
     * Hands out the pending message and leaves pending the one the state calls
     * for: the currency in flight, or with none, exact change only if some
     * product costs more than the reserve, else insert coin.
     */
    method UpdateAndGetCurrentMessageForDisplay() returns (msg: Message)
      requires Valid()
      modifies this`lastMessage
      ensures Valid()
      ensures (State(), msg) == RefreshStep(GetProducts(), old(State()))
    {
      msg := lastMessage;
      if currencyInUsc == 0 {
        lastMessage := Message.InsertCoin;
        var i := 0;
        while i < |availableStock|
          invariant 0 <= i <= |availableStock|
          invariant lastMessage == Message.InsertCoin
          invariant forall j :: 0 <= j < i ==> availableStock[j].product.costInUsc <= changeInUsc
        {
          if availableStock[i].product.costInUsc > changeInUsc {
            lastMessage := ExactChangeOnly;
            break;
          }
          i := i + 1;
        }
      } else {
        lastMessage := Available(currencyInUsc);
      }
    }

    /** The currency in flight, which is never negative. */
    function GetAcceptedUsc(): (usc: nat)
      requires Valid()
      reads this, availableStock
      ensures usc == currencyInUsc
    {
      currencyInUsc
    }

    /** The value in the return tray. */
    function GetUscInReturn(): (usc: int)
      reads this
      ensures usc == returnInUsc
    {
      returnInUsc
    }

    /**
     * Buys the product at `productIndex`. An index past the end fails with no
     * effect at all; otherwise the attempt is made on that entry, and only that
     * entry's count can change.
     */
    method PurchaseProduct(productIndex: int) returns (purchased: bool)
      requires productIndex >= 0
      requires Valid()
      modifies this, availableStock
      ensures Valid()
      ensures productIndex >= |availableStock| ==> !purchased && State() == old(State())
      ensures productIndex < |availableStock| ==>
        (State(), purchased) == PurchaseStep(old(State()), old(availableStock[productIndex].available),
                                             availableStock[productIndex].product.costInUsc)
      ensures forall s :: s in availableStock ==>
        s.available == old(s.available) -
          (if purchased && productIndex < |availableStock| && s == availableStock[productIndex] then 1 else 0)
    {
      if productIndex >= |availableStock| {
        return false;
      }
      purchased := TryToPurchase(availableStock[productIndex]);
    }

    /** One purchase attempt on a given entry. */
    method TryToPurchase(stock: Stock) returns (purchased: bool)
      requires Valid() && stock.Valid()
      modifies this, stock
      ensures Valid() && stock.Valid()
      ensures (State(), purchased) == PurchaseStep(old(State()), old(stock.available), stock.product.costInUsc)
      ensures stock.available == old(stock.available) - (if purchased then 1 else 0)
    {
      if stock.GetAvailable() == 0 {
        lastMessage := SoldOut;
        return false;
      }
      var product := stock.product;
      if currencyInUsc - product.costInUsc < 0 {
        lastMessage := Price(product.costInUsc);
        return false;
      }
      var taken := stock.ReduceAvailable();
      assert taken.Pass?;
      currencyInUsc := currencyInUsc - product.costInUsc;
      changeInUsc := changeInUsc - currencyInUsc;
      returnInUsc := returnInUsc + currencyInUsc;
      currencyInUsc := 0;
      lastMessage := ThankYou;
      return true;
    }

    /** Moves the currency in flight to the return tray and refreshes the display. */
    method ReturnCoins()
      requires Valid()
      modifies this
      ensures Valid()
      ensures State() == ReturnStep(GetProducts(), old(State()))
    {
      returnInUsc := returnInUsc + currencyInUsc;
      currencyInUsc := 0;
      var _ := UpdateAndGetCurrentMessageForDisplay();
    }

    /** Empties the return tray. */
    method CollectCoins()
      requires Valid()
      modifies this`returnInUsc
      ensures Valid()
      ensures State() == CollectStep(old(State()))
    {
      returnInUsc := 0;
    }
  }

  /** A client: with too little currency a purchase only shows the price. */
  method ShortfallScenario()
  {
    var biskuit := new Stock(ProductFields("Biskuit", 6000), 2);
    var machine := new VendingMachine([biskuit]);
    var ok := machine.InsertCoin(5000);
    ok := machine.PurchaseProduct(0);
    assert !ok && machine.lastMessage == Price(6000);
    assert machine.currencyInUsc == 5000 && biskuit.available == 2;
  }

  /**
   * A client: paying 7000 for a product costing 6000 with the initial reserve
   * of 400 leaves the reserve at -600 and touches no other entry.
   */
  method OverpaymentScenario()
  {
    var biskuit := new Stock(ProductFields("Biskuit", 6000), 2);
    var chips := new Stock(ProductFields("Chips", 8000), 1);
    var catalog := [biskuit, chips];
    var machine := new VendingMachine(catalog);
    var ok := machine.InsertCoin(5000);
    ok := machine.InsertCoin(2000);
    assert machine.currencyInUsc == 7000;
    ok := machine.PurchaseProduct(0);
    assert biskuit in catalog && chips in catalog;
    assert ok && biskuit.available == 1 && chips.available == 1;
    assert machine.changeInUsc == -600 && machine.returnInUsc == 1000;
  }

  /** A client on a one-product catalog whose cost exceeds the reserve: the machine asks for exact change. */
  method ExactChangeScenario()
  {
    var oreo := new Stock(ProductFields("Oreo", 10000), 50);
    var machine := new VendingMachine([oreo]);
    assert machine.GetProducts()[0].costInUsc > InitialChangeInUsc;
    var shown := machine.UpdateAndGetCurrentMessageForDisplay();
    assert shown == ExactChangeOnly;
  }

  /** A client showing a rejected coin, an index past the end, a return and a collection. */
  method RejectionScenario()
  {
    var oreo := new Stock(ProductFields("Oreo", 10000), 50);
    var machine := new VendingMachine([oreo]);
    var ok := machine.InsertCoin(10000);
    ok := machine.InsertCoin(50);
    assert !ok && machine.returnInUsc == 50 && machine.currencyInUsc == 10000;
    ok := machine.PurchaseProduct(1);
    assert !ok && machine.currencyInUsc == 10000 && oreo.available == 50;
    machine.ReturnCoins();
    assert machine.currencyInUsc == 0 && machine.returnInUsc == 10050;
    machine.CollectCoins();
    assert machine.returnInUsc == 0;
  }

  /**
   * A client: once the last unit of a product is sold, a second attempt with
   * enough currency fails as sold out, keeps the currency in flight, and the
   * next display refresh shows the sold-out message.
   */
  method LastUnitThenSoldOut() returns (first: bool, second: bool, shown: Message, inFlight: int)
    ensures first && !second
    ensures shown == SoldOut && inFlight == 10000
  {
    var chips := new Stock(ProductFields("Chips", 8000), 1);
    var machine := new VendingMachine([chips]);
    var ok := machine.InsertCoin(10000);
    first := machine.PurchaseProduct(0);
    assert chips in [chips];
    assert chips.available == 0;
    ok := machine.InsertCoin(10000);
    second := machine.PurchaseProduct(0);
    shown := machine.UpdateAndGetCurrentMessageForDisplay();
    inFlight := machine.GetAcceptedUsc();
  }
}
