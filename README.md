# Shop repository, modelled in Dafny

This project models the in-memory repository of a small Go shopping
application. The repository holds two maps. `products` maps a product name to
a product (name, price, quantity in stock). `customers` maps an email address
to a customer (name, email, and a cart from product name to quantity). It
offers three read operations (`ViewProducts`, `ViewProductDetails`,
`ViewCart`) and one update, `AddToCart`. `AddToCart` checks the customer, then
the product, then the stock. It then overwrites the cart entry and takes the
quantity off the stock.

Files:

- `types.dfy`, module `Types`: the records and error values. It also holds Go's
  64-bit `int` as the subset type `Int`, with the two's-complement subtraction
  `Sub` that Go performs on it.
- `repository.dfy`, module `Repository`: the class `Repository` with its two map
  fields and the four operations. It also holds `Snapshot`, the repository's
  state as a value. `Reserve` is what `AddToCart` does to a snapshot, and the
  lemmas about it follow.

`AddToCart` is specified by `Reserve`: the method's new state is `Reserve`'s
result, or the old state on an error. The quirks of the Go code are modelled
as written:

- A quantity of zero or below passes the stock check. A negative quantity
  raises the stock.
- A repeated `AddToCart` for the same product overwrites the cart entry. The
  quantity reserved before is not returned to stock.
  `ReserveLosesOverwrittenEntry` states the exact loss: stock plus all carts
  goes down by the old cart entry.
- Stock is an `int`, so the subtraction wraps around at 64 bits. Success needs
  `quantity <= stock`, so the stock stays non-negative unless the subtraction
  wraps. A wrap needs a negative quantity. `ReserveCanWrapStockNegative`
  shows one: an empty stock and the quantity -2^63 give the stock -2^63.

The two listing operations range over a Go map, whose iteration order is
unspecified. Each loop picks an arbitrary key that has not been listed yet. A
ghost out-parameter `order` records the keys in the order they were listed.
The contracts state that each element matches its key, that no key is listed
twice, and that every key is listed.

The Go file's doc comment asks for a `Checkout` operation
(repository/repository.go:35), but the file implements no `Checkout` and no
operation that creates products or customers, so the model has neither.
`AddToCart` accepts quantities of zero and below.

## Model

| member | source | states |
|---|---|---|
| `Types.Sub` | repository/repository.go:99 | `product.Quantity -= quantity` on a Go `int`: the result is the 64-bit value congruent to the true difference modulo 2^64. It equals the difference when that fits, and is negative when the difference overflows upward. |
| `Repository.Reserve` | repository/repository.go:83-105 | AddToCart as a function of the state. It fails with ErrCustomerNotFound exactly when the email is unknown; this check comes first and wins even when the product is also missing. It fails with ErrProductNotFound exactly when the customer is known and the product is not. It fails with ErrNotEnoughQuantity exactly when both are known and the quantity exceeds the stock. It succeeds exactly otherwise, and success keeps the key sets of both maps. |
| `Repository.ReserveSetsEntryAndStock` | repository/repository.go:98-99 | On success the customer's cart entry for the product equals the quantity (overwrite, not accumulate). The stock becomes the old stock minus the quantity, taken modulo 2^64, which is the exact difference when it does not wrap. |
| `Repository.ReserveKeepsStockNonNegative` | repository/repository.go:94-99 | On success, whatever the stock was before, it is non-negative afterwards when the quantity is non-negative or the subtraction does not wrap, because success needs `quantity <= stock`. A non-negative quantity never wraps. |
| `Repository.ReserveCanWrapStockNegative` | repository/repository.go:94-99 | The quantity -2^63 against an empty stock passes the stock check, and the stock wraps around to -2^63. |
| `Repository.ReserveChangesNothingElse` | repository/repository.go:98-102 | On success, other products, other customers, the product's name and price, the customer's name and email, and the other cart entries are unchanged. The cart gains at most the one key. |
| `Repository.ReserveLosesOverwrittenEntry` | repository/repository.go:98-102 | On a successful reservation that does not wrap, the product's stock plus the quantity held in all carts drops by exactly the cart entry the call overwrote: that quantity is never returned to stock. On every successful reservation, wrap or not, every other product's total is unchanged. |
| `Repository.RunAccountsForStock` | repository/repository.go:83-105 | Over any sequence of AddToCart calls whose quantities for the product are non-negative (calls for other products may carry any quantity), a product whose stock starts non-negative stays in the catalogue. Its final stock is the initial stock minus the quantities of the successful calls for it, and those add up to at most the initial stock (no over-subscription). |
| `Repository.Repository.New` | repository/repository.go:50-55 | A new repository has empty product and customer maps. |
| `Repository.Repository.Load` | repository/repository.go:45-48 | A repository holding arbitrary given product and customer maps: the state an external loader leaves. |
| `Repository.Repository.ViewProducts` | repository/repository.go:64-72 | Returns every stored product exactly once, in some order: as many elements as the map has entries, each equal to the product under a distinct key, and every key listed. State is unchanged. |
| `Repository.Repository.ViewProductDetails` | repository/repository.go:74-81 | Returns the stored product when the name is a key of the catalogue, and ErrProductNotFound exactly when it is not. State is unchanged. |
| `Repository.Repository.AddToCart` | repository/repository.go:83-105 | Returns Success and leaves the state `Reserve` computes, or returns the error `Reserve` names and leaves both maps as they were. |
| `Repository.Repository.ViewCart` | repository/repository.go:107-123 | For a known customer, returns one order line (product, quantity) per cart entry, each cart key exactly once, in some order, and as many lines as the cart has entries. Returns ErrCustomerNotFound exactly when the email is unknown. State is unchanged. |

## Left out

- Concurrency: the Go code has no synchronisation, so the model is sequential. A lock around the repository is not part of this model.
- Checkout and the creation of products or customers: the Go file has no such operations. `Load` stands in for an external loader.
- Price: a Go `float64` that is only carried along. It is kept as an opaque 64-bit pattern and never computed with.
- Map iteration order: Go's order is unspecified. The listing loops choose an arbitrary next key, so the contracts fix no order.
- Map aliasing: in Go, `customer.Cart` is a reference shared with the stored customer. The model treats the cart as a value inside the customer record and states only the resulting state. It also assumes no two stored customers share one cart map; a loader that stored such customers would see line 98 write into both carts.
- Nil carts: writing to a nil Go map panics, so a customer stored with a nil `Cart` would make line 98 panic. The model treats every cart as a map, possibly empty. The code that builds customers is not part of this model.
- Zero values on error: Go returns `types.Product{}` beside `ErrProductNotFound`, and a nil slice beside `ErrCustomerNotFound`. The model's `Result` carries only the error.
- The `types` package is not part of this model. Only the fields named in the doc comment of the Go file, and `Order{Product, Quantity}`, are modelled.
- Go's `int` is taken to be 64 bits wide, as on 64-bit platforms. A 32-bit build is not modelled.
- Repository.ReserveKeepsStockNonNegative: it states non-negative stock after success only when the quantity is non-negative or the subtraction does not wrap (from any stock before), because under 64-bit wrap-around the unconditional claim is false (see `ReserveCanWrapStockNegative`).
- Repository.ReserveLosesOverwrittenEntry: the identity for the reserved product itself is stated only when its subtraction does not wrap, where stock arithmetic is no longer the plain difference; the totals of the other products are stated for every call.
- Repository.RunAccountsForStock: it needs non-negative quantities for that product only, because a negative one can wrap its stock; calls for other products may carry any quantity.
