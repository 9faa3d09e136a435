/** The in-memory shop repository: a catalogue of products keyed by name and a
    set of customers keyed by email, each customer owning a cart. The class
    `Repository` is the Go struct; `Snapshot` is its state as a value, and the
    functions and lemmas over snapshots say what `AddToCart` does to it. */
module Repository {
  import opened Types

  /** The two maps of the repository, as a value. */
  datatype Snapshot = Snapshot(products: map<string, Product>, customers: map<string, Customer>)

  // ---------------------------------------------------------------------------
  // AddToCart as a function of the state

  /** The state `AddToCart(email, name, quantity)` leaves behind, or the error it
      returns (and then the state is left as it was). The checks come in a fixed
      order: customer, then product, then stock. Quantities of zero or below are
      not rejected, and an existing cart entry is overwritten without giving its
      quantity back to stock. */
  function Reserve(s: Snapshot, email: string, name: string, quantity: Int): (r: Result<Snapshot>)
    ensures r == Err(ErrCustomerNotFound) <==> email !in s.customers
    ensures r == Err(ErrProductNotFound) <==> email in s.customers && name !in s.products
    ensures r == Err(ErrNotEnoughQuantity) <==>
      email in s.customers && name in s.products && quantity > s.products[name].quantity
    ensures r.Ok? <==>
      email in s.customers && name in s.products && quantity <= s.products[name].quantity
    ensures r.Ok? ==> r.value.products.Keys == s.products.Keys && r.value.customers.Keys == s.customers.Keys
  {
    if email !in s.customers then Err(ErrCustomerNotFound)
    else
      var customer := s.customers[email];
      if name !in s.products then Err(ErrProductNotFound)
      else
        var product := s.products[name];
        if quantity > product.quantity then Err(ErrNotEnoughQuantity)
        else
          var customer' := customer.(cart := customer.cart[name := quantity]);
          var product' := product.(quantity := Sub(product.quantity, quantity));
          Ok(Snapshot(s.products[name := product'], s.customers[email := customer']))
  }

  /** The stock of `name` after a successful reservation cannot have wrapped
      around: the subtraction stays within 64 bits. */
  predicate NoWrap(s: Snapshot, name: string, quantity: Int)
    requires name in s.products
  {
    s.products[name].quantity - quantity <= INT_MAX
  }

  /** On success the customer's cart entry for the product is set to
      `quantity` (not added to), and the stock goes down by `quantity`
      (modulo 2^64, exactly when the subtraction does not wrap). */
  lemma ReserveSetsEntryAndStock(s: Snapshot, email: string, name: string, quantity: Int)
    requires Reserve(s, email, name, quantity).Ok?
    ensures var t := Reserve(s, email, name, quantity).value;
      && t.customers[email].cart[name] == quantity
      && t.products[name].quantity == Sub(s.products[name].quantity, quantity)
      && (NoWrap(s, name, quantity) ==> t.products[name].quantity == s.products[name].quantity - quantity)
  {
  }

  /** On success, whatever the stock was before, it is non-negative afterwards
      unless the subtraction wrapped: success needs `quantity <= stock`. A
      non-negative quantity never wraps. */
  lemma ReserveKeepsStockNonNegative(s: Snapshot, email: string, name: string, quantity: Int)
    requires Reserve(s, email, name, quantity).Ok?
    requires quantity >= 0 || NoWrap(s, name, quantity)
    ensures NoWrap(s, name, quantity)
    ensures Reserve(s, email, name, quantity).value.products[name].quantity >= 0
  {
  }

  /** A negative quantity passes the stock check, and the most negative one
      wraps an empty stock around to a negative stock. */
  lemma ReserveCanWrapStockNegative(p: Product, c: Customer)
    requires p.quantity == 0
    ensures var s := Snapshot(map[p.name := p], map[c.email := c]);
      var r := Reserve(s, c.email, p.name, INT_MIN);
      && r.Ok?
      && r.value.products[p.name].quantity == INT_MIN
  {
  }

  /** On success nothing else changes: other products, other customers, the
      customer's name and email and the other entries of their cart. */
  lemma ReserveChangesNothingElse(s: Snapshot, email: string, name: string, quantity: Int)
    requires Reserve(s, email, name, quantity).Ok?
    ensures var t := Reserve(s, email, name, quantity).value;
      && (forall p | p in s.products && p != name :: t.products[p] == s.products[p])
      && (forall e | e in s.customers && e != email :: t.customers[e] == s.customers[e])
      && t.products[name].name == s.products[name].name
      && t.products[name].price == s.products[name].price
      && t.customers[email].name == s.customers[email].name
      && t.customers[email].email == s.customers[email].email
      && t.customers[email].cart.Keys == s.customers[email].cart.Keys + {name}
      && (forall p | p in s.customers[email].cart && p != name ::
            t.customers[email].cart[p] == s.customers[email].cart[p])
  {
  }

  // ---------------------------------------------------------------------------
  // Reservations held in carts: the overwritten quantity is lost

  /** The quantity of `p` a cart holds (0 when it has no entry for it). */
  function Entry(cart: map<string, Int>, p: string): int {
    if p in cart then cart[p] else 0
  }

  /** The quantity of `p` held in all carts together. */
  ghost function Reserved(cs: map<string, Customer>, p: string): int
    decreases |cs|
  {
    if cs == map[] then 0
    else
      var e :| e in cs;
      Entry(cs[e].cart, p) + Reserved(cs - {e}, p)
  }

  /** Stock plus what the carts hold, for a product of the catalogue. */
  ghost function Held(s: Snapshot, p: string): int
    requires p in s.products
  {
    s.products[p].quantity + Reserved(s.customers, p)
  }

  lemma {:induction false} ReservedSplit(cs: map<string, Customer>, k: string, p: string)
    requires k in cs
    ensures Reserved(cs, p) == Entry(cs[k].cart, p) + Reserved(cs - {k}, p)
    decreases |cs|
  {
    var e :| e in cs && Reserved(cs, p) == Entry(cs[e].cart, p) + Reserved(cs - {e}, p);
    if e != k {
      ReservedSplit(cs - {e}, k, p);
      ReservedSplit(cs - {k}, e, p);
      assert cs - {e} - {k} == cs - {k} - {e};
    }
  }

  lemma ReservedUpdate(cs: map<string, Customer>, k: string, c: Customer, p: string)
    requires k in cs
    ensures Reserved(cs[k := c], p) == Reserved(cs, p) - Entry(cs[k].cart, p) + Entry(c.cart, p)
  {
    ReservedSplit(cs, k, p);
    ReservedSplit(cs[k := c], k, p);
    assert cs[k := c] - {k} == cs - {k};
  }

  /** A successful reservation that does not wrap leaves stock plus carts of the
      product unchanged except that the quantity the cart entry held before is
      gone: it was taken from stock once and is never given back. Every other
      product keeps its total, wrap or no wrap. */
  lemma ReserveLosesOverwrittenEntry(s: Snapshot, email: string, name: string, quantity: Int)
    requires Reserve(s, email, name, quantity).Ok?
    ensures var t := Reserve(s, email, name, quantity).value;
      NoWrap(s, name, quantity) ==> Held(t, name) == Held(s, name) - Entry(s.customers[email].cart, name)
    ensures var t := Reserve(s, email, name, quantity).value;
      forall p | p in s.products && p != name :: Held(t, p) == Held(s, p)
  {
    var t := Reserve(s, email, name, quantity).value;
    var c' := t.customers[email];
    assert t.customers == s.customers[email := c'];
    ReservedUpdate(s.customers, email, c', name);
    forall p | p in s.products && p != name
      ensures Held(t, p) == Held(s, p)
    {
      ReservedUpdate(s.customers, email, c', p);
    }
  }

  // ---------------------------------------------------------------------------
  // A sequence of calls, one after another

  datatype Request = Request(email: string, name: string, quantity: Int)

  /** The state after one `AddToCart` call, whether it succeeds or not. */
  function Apply(s: Snapshot, q: Request): Snapshot {
    match Reserve(s, q.email, q.name, q.quantity)
    case Ok(t) => t
    case Err(_) => s
  }

  function Run(s: Snapshot, qs: seq<Request>): Snapshot
    decreases |qs|
  {
    if qs == [] then s else Run(Apply(s, qs[0]), qs[1..])
  }

  /** The total quantity of `p` that the successful calls of `qs` reserved. */
  function Granted(s: Snapshot, qs: seq<Request>, p: string): int
    decreases |qs|
  {
    if qs == [] then 0
    else
      var g := if qs[0].name == p && Reserve(s, qs[0].email, p, qs[0].quantity).Ok? then qs[0].quantity else 0;
      g + Granted(Apply(s, qs[0]), qs[1..], p)
  }

  /** Over any sequence of calls whose quantities for `p` are non-negative
      (calls for other products may use any quantity), a product whose
      stock starts non-negative keeps its entry, loses exactly the quantities
      granted, and is never over-subscribed: what is granted is at most the
      stock at the start. */
  lemma {:induction false} RunAccountsForStock(s: Snapshot, qs: seq<Request>, p: string)
    requires p in s.products && s.products[p].quantity >= 0
    requires forall i | 0 <= i < |qs| :: qs[i].name == p ==> qs[i].quantity >= 0
    ensures p in Run(s, qs).products
    ensures Run(s, qs).products[p].quantity == s.products[p].quantity - Granted(s, qs, p)
    ensures 0 <= Granted(s, qs, p) <= s.products[p].quantity
    decreases |qs|
  {
    if qs != [] {
      var q := qs[0];
      var s' := Apply(s, q);
      assert p in s'.products;
      if q.name == p && Reserve(s, q.email, p, q.quantity).Ok? {
        ReserveKeepsStockNonNegative(s, q.email, p, q.quantity);
        ReserveSetsEntryAndStock(s, q.email, p, q.quantity);
      } else if Reserve(s, q.email, q.name, q.quantity).Ok? {
        ReserveChangesNothingElse(s, q.email, q.name, q.quantity);
      }
      assert s'.products[p].quantity >= 0;
      RunAccountsForStock(s', qs[1..], p);
    }
  }

  // ---------------------------------------------------------------------------
  // Listings in map-iteration order

  /** No key occurs twice. */
  ghost predicate Distinct<K>(ks: seq<K>) {
    forall i, j | 0 <= i < j < |ks| :: ks[i] != ks[j]
  }

  /** A sequence that lists every key of a set once has the set's size. */
  lemma {:induction false} DistinctCovering<K>(ks: seq<K>, keys: set<K>)
    requires Distinct(ks)
    requires forall i | 0 <= i < |ks| :: ks[i] in keys
    requires forall k | k in keys :: k in ks
    ensures |ks| == |keys|
  {
    if ks != [] {
      var rest := keys - {ks[0]};
      forall k | k in rest ensures k in ks[1..] {
        var i :| 0 <= i < |ks| && ks[i] == k;
        assert i != 0;
        assert ks[1..][i - 1] == k;
      }
      DistinctCovering(ks[1..], rest);
    } else {
      assert forall k | k in keys :: false;
      assert keys == {};
    }
  }

  // ---------------------------------------------------------------------------
  // The repository object

  class Repository {
    var products: map<string, Product>
    var customers: map<string, Customer>

    function State(): Snapshot
      reads this
    {
      Snapshot(products, customers)
    }

    /** An empty repository. */
    constructor New()
      ensures products == map[] && customers == map[]
    {
      products := map[];
      customers := map[];
    }

    /** A repository holding the records an external loader supplies. */
    constructor Load(products: map<string, Product>, customers: map<string, Customer>)
      ensures this.products == products && this.customers == customers
    {
      this.products := products;
      this.customers := customers;
    }

    /** Every product once, in map-iteration order; `order` names the key each
        element was stored under. */
    method ViewProducts() returns (r: seq<Product>, ghost order: seq<string>)
      ensures |r| == |products|
      ensures forall i | 0 <= i < |r| :: r[i] in products.Values
      ensures forall k | k in products :: products[k] in r
      ensures |order| == |r|
      ensures forall i | 0 <= i < |r| :: order[i] in products && r[i] == products[order[i]]
      ensures Distinct(order)
      ensures forall k | k in products :: k in order
    {
      r, order := [], [];
      var rest := products.Keys;
      while rest != {}
        invariant rest <= products.Keys
        invariant |order| == |r|
        invariant forall i | 0 <= i < |r| :: order[i] in products && order[i] !in rest && r[i] == products[order[i]]
        invariant Distinct(order)
        invariant forall k | k in products && k !in rest :: k in order
        decreases rest
      {
        var k :| k in rest;
        r := r + [products[k]];
        order := order + [k];
        rest := rest - {k};
      }
      DistinctCovering(order, products.Keys);
    }

    /** The product stored under `name`, or ErrProductNotFound. */
    method ViewProductDetails(name: string) returns (r: Result<Product>)
      ensures r.Ok? <==> name in products
      ensures r.Ok? ==> r.value == products[name]
      ensures r.Err? ==> r.error == ErrProductNotFound
    {
      if name !in products {
        return Err(ErrProductNotFound);
      }
      r := Ok(products[name]);
    }

    /** Reserve `quantity` of product `name` for the customer `email`. */
    method AddToCart(email: string, name: string, quantity: Int) returns (status: Outcome)
      modifies this
      ensures match Reserve(old(State()), email, name, quantity)
        case Ok(t) => status == Success && State() == t
        case Err(e) => status == Failure(e) && State() == old(State())
    {
      if email !in customers {
        return Failure(ErrCustomerNotFound);
      }
      var customer := customers[email];
      if name !in products {
        return Failure(ErrProductNotFound);
      }
      var product := products[name];
      if quantity > product.quantity {
        return Failure(ErrNotEnoughQuantity);
      }
      customer := customer.(cart := customer.cart[name := quantity]);
      product := product.(quantity := Sub(product.quantity, quantity));
      customers := customers[email := customer];
      products := products[name := product];
      status := Success;
    }

    /** One order line per entry of the customer's cart, in map-iteration
        order, or ErrCustomerNotFound; `order` names the products in the
        order listed. */
    method ViewCart(email: string) returns (r: Result<seq<Order>>, ghost order: seq<string>)
      ensures r.Err? <==> email !in customers
      ensures r.Err? ==> r.error == ErrCustomerNotFound
      ensures r.Ok? ==> |r.value| == |customers[email].cart|
      ensures r.Ok? ==> forall o | o in r.value ::
        o.product in customers[email].cart && customers[email].cart[o.product] == o.quantity
      ensures r.Ok? ==> forall k | k in customers[email].cart :: Order(k, customers[email].cart[k]) in r.value
      ensures r.Ok? ==>
        var cart := customers[email].cart;
        && |order| == |r.value| == |cart|
        && (forall i | 0 <= i < |order| :: order[i] in cart && r.value[i] == Order(order[i], cart[order[i]]))
        && Distinct(order)
        && (forall k | k in cart :: k in order)
    {
      order := [];
      if email !in customers {
        return Err(ErrCustomerNotFound), order;
      }
      var cart := customers[email].cart;
      var orders: seq<Order> := [];
      var rest := cart.Keys;
      while rest != {}
        invariant rest <= cart.Keys
        invariant |order| == |orders|
        invariant forall i | 0 <= i < |orders| :: order[i] in cart && order[i] !in rest && orders[i] == Order(order[i], cart[order[i]])
        invariant Distinct(order)
        invariant forall k | k in cart && k !in rest :: k in order
        decreases rest
      {
        var k :| k in rest;
        orders := orders + [Order(k, cart[k])];
        order := order + [k];
        rest := rest - {k};
      }
      DistinctCovering(order, cart.Keys);
      r := Ok(orders);
    }
  }

  /** A caller's view of the contracts: with ten widgets in stock, reserving 4
      succeeds, a further 20 is refused, an overwriting 3 leaves a cart listing
      of one line, and an unknown customer is refused. */
  method WidgetScenario(widget: Product, c: Customer)
    requires widget.name == "Widget" && widget.quantity == 10 && c.cart == map[]
  {
    var repo := new Repository.Load(map["Widget" := widget], map[c.email := c]);
    var status := repo.AddToCart(c.email, "Widget", 4);
    assert status == Success;
    assert repo.products["Widget"].quantity == 6;
    status := repo.AddToCart(c.email, "Widget", 20);
    assert status == Failure(ErrNotEnoughQuantity);
    assert repo.products["Widget"].quantity == 6;
    status := repo.AddToCart(c.email, "Widget", 3);
    var listing, order := repo.ViewCart(c.email);
    assert listing.Ok? && listing.value == [Order("Widget", 3)];
    status := repo.AddToCart("nobody" + c.email, "Gadget", 1);
    assert status == Failure(ErrCustomerNotFound);
  }
}
