/** The home page's product grid: the first eight products as cards, each
    with a localized name, a link to its page, its price and, for a
    discounted product, a sale badge and the struck-through original price. */
module ProductsGrid {
  import opened Wrappers
  import opened Seqs
  import opened Catalog
  import opened ProductTranslations
  import opened Cart
  import opened Routes

  const GridSize: nat := 8

  /** `products.slice(0, 8)` */
  function DisplayProducts(products: seq<Product>): (r: seq<Product>)
    ensures |r| == if |products| < GridSize then |products| else GridSize
    ensures r <= products
  {
    Take(products, GridSize)
  }

  /** What a card shows; the amounts are those handed to `formatPrice`. */
  datatype Card = Card(
    name: string,
    path: string,
    priceAmount: nat,
    saleBadge: bool,
    struckAmount: Option<nat>)

  function CardFor(table: ProductTable, language: string, p: Product): (c: Card)
    ensures c.name == DisplayName(table, language, p)
    ensures c.path == ProductPath(p.id)
    ensures c.priceAmount == p.price
    ensures c.saleBadge <==> p.originalPrice.Some? && p.originalPrice.value != 0
    ensures c.struckAmount.Some? <==> c.saleBadge
    ensures c.saleBadge ==> c.struckAmount == p.originalPrice
  {
    var sale := p.originalPrice.Some? && p.originalPrice.value != 0;
    Card(DisplayName(table, language, p), ProductPath(p.id), p.price, sale,
         if sale then p.originalPrice else None)
  }

  /** One card per displayed product, in order. */
  function Cards(table: ProductTable, language: string, products: seq<Product>): (cards: seq<Card>)
    ensures |cards| == |DisplayProducts(products)|
    ensures forall i :: 0 <= i < |cards| ==>
              cards[i] == CardFor(table, language, DisplayProducts(products)[i])
  {
    var shown := DisplayProducts(products);
    seq(|shown|, i requires 0 <= i < |shown| => CardFor(table, language, shown[i]))
  }

  /** The grid of the storefront's catalog has eight cards, none of them
      with a sale badge, since no product has an original price. */
  lemma GridShowsNoSaleBadge(table: ProductTable, language: string)
    ensures |Cards(table, language, Products)| == GridSize
    ensures forall i :: 0 <= i < GridSize ==> !Cards(table, language, Products)[i].saleBadge
  {
    ProductIdsAreOneToSixteen();
    NoProductIsDiscounted();
    var shown := DisplayProducts(Products);
    assert forall i :: 0 <= i < |shown| ==> shown[i] == Products[i];
  }

  /** Following a card's link opens that card's product: the digits after
      `/product/` denote its id, and that id finds it in the catalog
      (whenever ids are positions, as in `Products`). */
  lemma CardLinkOpensProduct(table: ProductTable, language: string, products: seq<Product>, i: nat)
    requires IdsArePositions(products) && i < |Cards(table, language, products)|
    ensures var path := Cards(table, language, products)[i].path;
            |path| > |ProductPrefix| &&
            ProductById(products, DecimalValue(path[|ProductPrefix|..])) ==
              Some(DisplayProducts(products)[i])
  {
    var p := DisplayProducts(products)[i];
    assert p == products[i];
    ProductPathNamesId(p.id);
    ProductByIdIsIndexed(products, p.id);
  }

  /** Different cards link to different pages (whenever ids are positions). */
  lemma CardLinksAreDistinct(table: ProductTable, language: string, products: seq<Product>, i: nat, j: nat)
    requires IdsArePositions(products) && i < j < |Cards(table, language, products)|
    ensures Cards(table, language, products)[i].path != Cards(table, language, products)[j].path
  {
    var pi, pj := DisplayProducts(products)[i], DisplayProducts(products)[j];
    assert pi == products[i] && pj == products[j];
    if ProductPath(pi.id) == ProductPath(pj.id) {
      ProductPathInjective(pi.id, pj.id);
    }
  }

  /** The "add to cart" overlay button: one `addToCart` per click. */
  method HandleAddToCart(cart: CartLog, p: Product)
    modifies cart
    ensures cart.added == old(cart.added) + [p]
  {
    cart.AddToCart(p);
  }
}
