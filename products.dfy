/** An immutable product: a name and a cost in cents, with value equality and a hash code. */
module Products {
  import opened Results

  /** The values of a 32-bit two's complement Java `int`. */
  type Int32 = x: int | -0x8000_0000 <= x < 0x8000_0000

  const TwoTo32: int := 0x1_0000_0000

  /** The fields of a product, before validation. */
  datatype ProductFields = ProductFields(name: string, costInUsc: int)

  /**
   * A product object: every one has passed the constructor's checks, so its
   * name is non-empty and its cost is not negative. The fields are final.
   */
  type Product = p: ProductFields | p.name != "" && p.costInUsc >= 0
    witness ProductFields("_", 0)

  /** The validating constructor: the name is checked first, then the cost. */
  function NewProduct(name: string, costInUsc: int): (r: Result<Product>)
    ensures r.Ok? <==> name != "" && costInUsc >= 0
    ensures r.Ok? ==> r.value.name == name && r.value.costInUsc == costInUsc
    ensures name == "" ==> r == Err(EmptyName)
    ensures name != "" && costInUsc < 0 ==> r == Err(NegativeCost)
  {
    if name == "" then Err(EmptyName)
    else if costInUsc < 0 then Err(NegativeCost)
    else Ok(ProductFields(name, costInUsc))
  }

  /**
   * Value equality against an arbitrary object. `None` stands for null or for
   * an object of another class, which the inherited identity test never
   * equates with a product.
   */
  function Equals(p: Product, obj: Option<Product>): (b: bool)
    ensures b <==> obj == Some(p)
  {
    match obj
    case Some(q) => q.name == p.name && q.costInUsc == p.costInUsc
    case None => false
  }

  /** Equality of products is an equivalence relation. */
  lemma EqualsIsEquivalence(p: Product, q: Product, r: Product)
    ensures Equals(p, Some(p))
    ensures Equals(p, Some(q)) <==> Equals(q, Some(p))
    ensures Equals(p, Some(q)) && Equals(q, Some(r)) ==> Equals(p, Some(r))
  {
  }

  /** Java `int` arithmetic: the value congruent to `x` modulo 2^32 in the `int` range. */
  function Wrap32(x: int): (w: Int32)
    ensures (w - x) % TwoTo32 == 0
    ensures -0x8000_0000 <= x < 0x8000_0000 ==> w == x
  {
    (x + 0x8000_0000) % TwoTo32 - 0x8000_0000
  }

  lemma CongruentSum(x: int, y: int, k: int)
    requires x % TwoTo32 == 0 && y % TwoTo32 == 0
    ensures (x + k * y) % TwoTo32 == 0
  {
    var i, j := x / TwoTo32, y / TwoTo32;
    assert x == TwoTo32 * i && y == TwoTo32 * j;
    assert x + k * y == TwoTo32 * (i + k * j);
  }

  /**
   * The hash code, in 32-bit arithmetic: 17, times 31 plus the name's hash,
   * times 13 plus the cost. The string hash is a parameter.
   */
  function HashCode(p: Product, stringHash: string -> Int32): (h: Int32)
    ensures (h - ((17 * 31 + stringHash(p.name)) * 13 + p.costInUsc)) % TwoTo32 == 0
  {
    var seed := 17;
    var exact := seed * 31 + stringHash(p.name);
    var mixed := Wrap32(exact);
    var h := Wrap32(mixed * 13 + p.costInUsc);
    CongruentSum(h - (mixed * 13 + p.costInUsc), mixed - exact, 13);
    h
  }

  /** Equal products have equal hash codes. */
  lemma EqualProductsHashEqually(p: Product, q: Product, stringHash: string -> Int32)
    requires Equals(p, Some(q))
    ensures HashCode(p, stringHash) == HashCode(q, stringHash)
  {
  }
}
