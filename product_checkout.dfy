/** The product detail page: the product chosen by the route id, a
    quantity selector bounded to 1..10, a button that hands the product to
    the cart once per unit, and what the page shows. */
module ProductCheckout {
  import opened Wrappers
  import opened Catalog
  import opened ProductTranslations
  import opened Cart

  const MinQuantity: int := 1
  const MaxQuantity: int := 10

  /** The product for the route id (`None` for an id `parseInt` turns into
      NaN), looked up in the product array `products`. */
  function RouteProduct(products: seq<Product>, routeId: Option<int>): (product: Option<Product>)
    ensures product.None? <==> routeId.None? || forall p :: p in products ==> p.id != routeId.value
    ensures product.Some? ==> product.value in products && product.value.id == routeId.value
  {
    match routeId
    case None => None
    case Some(id) => ProductById(products, id)
  }

  /** The quantity after `handleQuantityChange(delta)`: the sum when it lies
      in 1..10, the old quantity otherwise. */
  function QuantityAfter(quantity: int, delta: int): (next: int)
    ensures next == quantity || next == quantity + delta
    ensures next == quantity + delta <==> MinQuantity <= quantity + delta <= MaxQuantity || delta == 0
    ensures MinQuantity <= quantity <= MaxQuantity ==> MinQuantity <= next <= MaxQuantity
  {
    var newQuantity := quantity + delta;
    if MinQuantity <= newQuantity <= MaxQuantity then newQuantity else quantity
  }

  /** A control is disabled exactly when pressing it would have no effect. */
  lemma ControlsDisabledExactlyWhenIneffective(quantity: int)
    requires MinQuantity <= quantity <= MaxQuantity
    ensures quantity <= 1 <==> QuantityAfter(quantity, -1) == quantity
    ensures quantity >= 10 <==> QuantityAfter(quantity, 1) == quantity
  {
  }

  /** What the page renders. The amounts are those handed to `formatPrice`. */
  datatype PageView =
    | NotFound
    | Detail(
        name: string,
        description: string,
        quantity: int,
        priceAmount: nat,
        originalPriceAmount: Option<nat>,
        subtotalAmount: int,
        decrementDisabled: bool,
        incrementDisabled: bool,
        addDisabled: bool,
        successShown: bool)

  class CheckoutPage {
    const product: Option<Product>
    var quantity: int
    var showSuccess: bool

    ghost predicate Valid()
      reads this
    {
      MinQuantity <= quantity <= MaxQuantity
    }

    constructor (products: seq<Product>, routeId: Option<int>)
      ensures product == RouteProduct(products, routeId)
      ensures quantity == 1 && !showSuccess
      ensures Valid()
    {
      product := RouteProduct(products, routeId);
      quantity := 1;
      showSuccess := false;
    }

    method HandleQuantityChange(delta: int)
      requires Valid()
      modifies this
      ensures Valid()
      ensures quantity == QuantityAfter(old(quantity), delta)
      ensures showSuccess == old(showSuccess)
    {
      var newQuantity := quantity + delta;
      if newQuantity >= 1 && newQuantity <= 10 {
        quantity := newQuantity;
      }
    }

    /** `handleAddToCart`: only reachable once a product was found; adds the
        product `quantity` times, then raises the success banner. */
    method HandleAddToCart(cart: CartLog)
      requires Valid() && product.Some?
      modifies this`showSuccess, cart
      ensures showSuccess
      ensures cart.added == old(cart.added) + Repeat(product.value, quantity)
    {
      var n := quantity;
      var i := 0;
      while i < n
        invariant 0 <= i <= n
        invariant cart.added == old(cart.added) + Repeat(product.value, i)
      {
        cart.AddToCart(product.value);
        i := i + 1;
      }
      showSuccess := true;
    }

    /** The rendered page for the active language. */
    function View(table: ProductTable, language: string): (v: PageView)
      reads this
      ensures v.NotFound? <==> product.None?
      ensures product.Some? ==> v == DetailView(table, language, product.value, quantity, showSuccess)
    {
      match product
      case None => NotFound
      case Some(p) => DetailView(table, language, p, quantity, showSuccess)
    }
  }

  /** `product.originalPrice && formatPrice(product.originalPrice)`: shown
      only when set and non-zero. */
  function StruckPrice(p: Product): (amount: Option<nat>)
    ensures amount.Some? <==> p.originalPrice.Some? && p.originalPrice.value != 0
    ensures amount.Some? ==> amount == p.originalPrice
  {
    match p.originalPrice
    case Some(o) => if o != 0 then Some(o) else None
    case None => None
  }

  /** The page for a found product. */
  function DetailView(table: ProductTable, language: string, p: Product,
                      quantity: int, showSuccess: bool): (v: PageView)
    ensures v.Detail?
    ensures v.name == DisplayName(table, language, p)
    ensures v.description == DisplayDescription(table, language, p)
    ensures v.quantity == quantity && v.successShown == showSuccess
    ensures v.priceAmount == p.price && v.originalPriceAmount == StruckPrice(p)
    ensures v.subtotalAmount == p.price * quantity
    ensures v.decrementDisabled <==> quantity <= MinQuantity
    ensures v.incrementDisabled <==> quantity >= MaxQuantity
    ensures v.addDisabled <==> !p.inStock
  {
    Detail(
      DisplayName(table, language, p),
      DisplayDescription(table, language, p),
      quantity,
      p.price,
      StruckPrice(p),
      p.price * quantity,
      quantity <= 1,
      quantity >= 10,
      !p.inStock,
      showSuccess)
  }

  /** The subtotal the page shows is what one press of the add button puts
      into the cart. */
  lemma SubtotalIsWhatAddingCosts(page: CheckoutPage, table: ProductTable, language: string)
    requires page.Valid() && page.product.Some?
    ensures page.View(table, language).subtotalAmount ==
            TotalPrice(Repeat(page.product.value, page.quantity))
  {
    TotalPriceOfRepeat(page.product.value, page.quantity);
  }

  /** The not-found page is shown exactly for a missing or unknown id, and
      the add button (which needs a product) is offered on every catalog page. */
  lemma NotFoundExactlyForUnknownIds(routeId: Option<int>)
    ensures RouteProduct(Products, routeId).None? <==> routeId.None? || !(1 <= routeId.value <= 16)
    ensures RouteProduct(Products, routeId).Some? ==> RouteProduct(Products, routeId).value.inStock
  {
    if routeId.Some? {
      ProductIdsAreOneToSixteen();
      ProductByIdIsIndexed(Products, routeId.value);
      ProductsAreInStock();
    }
  }
}
