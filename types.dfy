/** Values the repository stores and returns: products, customers with their
    carts, the order lines a cart listing produces, the three error values, and
    Go's 64-bit `int` with its wrap-around subtraction. */
module Types {

  const INT_MIN: int := -0x8000_0000_0000_0000
  const INT_MAX: int := 0x7fff_ffff_ffff_ffff
  const MODULUS: int := 0x1_0000_0000_0000_0000

  /** Go's `int` on a 64-bit platform. */
  type Int = x: int | INT_MIN <= x <= INT_MAX

  /** `a - b` as Go computes it on `int`: two's-complement wrap-around. The
      result is the unique 64-bit value congruent to the true difference. */
  function Sub(a: Int, b: Int): (r: Int)
    ensures INT_MIN <= a - b <= INT_MAX ==> r == a - b
    ensures a - b > INT_MAX ==> r < 0
    ensures (a - b - r) % MODULUS == 0
  {
    var d := a - b;
    if d > INT_MAX then d - MODULUS
    else if d < INT_MIN then d + MODULUS
    else d
  }

  /** A Go `float64` price, kept as its IEEE 754 bit pattern: it is only carried
      along and never computed with. */
  datatype Price = Price(bits: bv64)

  datatype Product = Product(name: string, price: Price, quantity: Int)

  /** A customer and their cart: product name to the quantity last requested. */
  datatype Customer = Customer(name: string, email: string, cart: map<string, Int>)

  /** One line of a cart listing. */
  datatype Order = Order(product: string, quantity: Int)

  datatype Error = ErrProductNotFound | ErrCustomerNotFound | ErrNotEnoughQuantity

  /** A value, or the error a Go function returns beside its zero value. */
  datatype Result<+T> = Ok(value: T) | Err(error: Error)

  /** What a Go function that returns only `error` returns: nil or an error. */
  datatype Outcome = Success | Failure(error: Error)
}
