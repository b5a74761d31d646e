/** The stock of one product in the machine: the product and how many units are left. */
module Stocks {
  import opened Results
  import opened Products

  class Stock {
    /** The product never changes once the entry exists. */
    const product: Product
    var available: int

    /** The object invariant: the count is never negative. */
    ghost predicate Valid()
      reads this
    {
      available >= 0
    }

    /** The constructor, for a non-negative count. */
    constructor (product: Product, available: int)
      requires available >= 0
      ensures Valid()
      ensures this.product == product && this.available == available
    {
      this.product := product;
      this.available := available;
    }

    /** The validating constructor: a negative count is refused. */
    static method New(product: Product, available: int) returns (r: Result<Stock>)
      ensures r.Ok? <==> available >= 0
      ensures r.Ok? ==> fresh(r.value) && r.value.Valid()
      ensures r.Ok? ==> r.value.product == product && r.value.available == available
      ensures r.Err? ==> r.fault == NegativeStock
    {
      if available < 0 {
        return Err(NegativeStock);
      }
      var stock := new Stock(product, available);
      return Ok(stock);
    }

    /** The number of units left, which is never negative. */
    function GetAvailable(): (n: nat)
      requires Valid()
      reads this
      ensures n == available
    {
      available
    }

    /**
     * Takes one unit out of the entry. With none left this fails with
     * `NoStockAvailable` and the count stays as it was.
     */
    method ReduceAvailable() returns (r: Outcome)
      requires Valid()
      modifies this
      ensures Valid()
      ensures r.Pass? <==> old(available) >= 1
      ensures r.Fail? ==> r.fault == NoStockAvailable && available == old(available)
      ensures r.Pass? ==> available == old(available) - 1
    {
      if available < 1 {
        return Fail(NoStockAvailable);
      }
      available := available - 1;
      return Pass;
    }
  }
}
