/** The home page's "famous items" block: four category buttons, the
    active category they select, the first four matching products, and the
    labels drawn from the category translations. */
module FeaturesSection {
  import opened Wrappers
  import opened Seqs
  import opened Catalog
  import opened LanguageContext
  import opened Cart
  import opened ProductTranslations
  import opened Routes

  const CardLimit: nat := 4
  const ButtonCount: nat := 4

  /** `categories.slice(0, 4)` */
  function DisplayCategories(): (r: seq<Category>)
    ensures |r| == ButtonCount && r <= Categories
  {
    Take(Categories, ButtonCount)
  }

  function DisplayCategoryIds(): (ids: seq<string>)
    ensures |ids| == ButtonCount
    ensures forall i :: 0 <= i < ButtonCount ==> ids[i] == DisplayCategories()[i].id
  {
    CategoryIds()[..ButtonCount]
  }

  /** The buttons offer "all", "asian", "indian" and "mediterranean". */
  lemma DisplayedCategoryIds()
    ensures DisplayCategoryIds() == ["all", "asian", "indian", "mediterranean"]
  {
  }

  /** `filteredProducts`: the first four products for "all", otherwise the
      first four of that category. */
  function FilteredProducts(products: seq<Product>, active: string): (r: seq<Product>)
    ensures |r| <= CardLimit
    ensures r <= ProductsByCategory(products, active)
    ensures active != AllCategory ==> forall i :: 0 <= i < |r| ==> r[i].category == active
  {
    if active == AllCategory then Take(products, CardLimit)
    else
      var matching := Filter(products, HasCategory(active));
      TakeSatisfies(matching, HasCategory(active), CardLimit);
      Take(matching, CardLimit)
  }

  /** Both branches take the first four of `getProductsByCategory`: as
      many as there are, up to four, in catalog order. For the storefront's
      catalog, "all" shows products 1 to 4. */
  lemma FilteredIsPrefixOfCategory(products: seq<Product>, active: string)
    ensures |FilteredProducts(products, active)| ==
            if |ProductsByCategory(products, active)| < CardLimit then |ProductsByCategory(products, active)| else CardLimit
    ensures FilteredProducts(Products, AllCategory) == Products[..CardLimit]
  {
  }

  /** A product card of the block; `priceAmount` is what `formatPrice` gets. */
  datatype FeatureCard = FeatureCard(name: string, path: string, priceAmount: nat)

  function CardOf(table: ProductTable, language: string, p: Product): (card: FeatureCard)
    ensures card.name == DisplayName(table, language, p)
    ensures card.path == ProductPath(p.id) && card.priceAmount == p.price
  {
    FeatureCard(DisplayName(table, language, p), ProductPath(p.id), p.price)
  }

  /** One card per filtered product, in order: its localized name, its
      link and its price. */
  function FeatureCards(table: ProductTable, language: string, products: seq<Product>, active: string): (cards: seq<FeatureCard>)
    ensures |cards| == |FilteredProducts(products, active)|
    ensures forall i :: 0 <= i < |cards| ==>
              cards[i] == CardOf(table, language, FilteredProducts(products, active)[i])
  {
    var shown := FilteredProducts(products, active);
    seq(|shown|, i requires 0 <= i < |shown| => CardOf(table, language, shown[i]))
  }

  // --------------------------------------------------------------- labels

  /** `categoryTranslations`: category id -> translation key. */
  const CategoryKeys: map<string, string> := map[
    "all" := "categories.allMeals",
    "asian" := "categories.asianCuisine",
    "indian" := "categories.indianFlavors",
    "mediterranean" := "categories.mediterranean",
    "italian" := "categories.italianClassics",
    "mexican" := "categories.mexicanFavorites",
    "american" := "categories.americanComfort",
    "dessert" := "categories.desserts"
  ]

  /** The category translations for the active language. */
  function CategoryTranslations(translations: map<string, Tree>, language: string): (m: map<string, Tree>)
    ensures m.Keys == CategoryKeys.Keys
    ensures forall id :: id in m ==> m[id] == Resolve(translations, language, CategoryKeys[id])
  {
    map id | id in CategoryKeys :: Resolve(translations, language, CategoryKeys[id])
  }

  /** A button's label: `categoryTranslations[category.id] || category.name`. */
  function CategoryLabel(translations: map<string, Tree>, language: string, c: Category): (shown: Tree)
    ensures shown == Leaf(c.name) ||
            (c.id in CategoryKeys && shown == Resolve(translations, language, CategoryKeys[c.id]))
  {
    var m := CategoryTranslations(translations, language);
    if c.id in m && Truthy(m[c.id]) then m[c.id] else Leaf(c.name)
  }

  /** Every listed category has a translation key, and `t` of a non-empty
      key is never falsy: the `category.name` fall-back is never taken, and
      a missing translation shows the key instead. */
  lemma CategoryLabelIsTranslation(translations: map<string, Tree>, language: string, c: Category)
    requires c in Categories
    ensures c.id in CategoryKeys
    ensures CategoryLabel(translations, language, c) == Resolve(translations, language, CategoryKeys[c.id])
  {
    ResolveIsTruthy(translations, language, CategoryKeys[c.id]);
  }

  /** The "view all" suffix as written: the translation of the active
      category when it is not "all", else the translation of "all". */
  function ViewAllLabel(translations: map<string, Tree>, language: string, active: string): (suffix: Option<Tree>)
    ensures suffix.Some? <==> active in CategoryKeys
  {
    var m := CategoryTranslations(translations, language);
    if active != AllCategory then (if active in m then Some(m[active]) else None)
    else Some(m[AllCategory])
  }

  /** Both branches of the conditional give the active category's translation. */
  lemma ViewAllLabelIsActiveTranslation(translations: map<string, Tree>, language: string, active: string)
    requires active in CategoryKeys
    ensures ViewAllLabel(translations, language, active) ==
            Some(Resolve(translations, language, CategoryKeys[active]))
  {
  }

  // ---------------------------------------------------------------- state

  class FeaturesView {
    var activeCategory: string

    /** The active category is always one the buttons offer. */
    ghost predicate Valid()
      reads this
    {
      activeCategory in DisplayCategoryIds()
    }

    constructor ()
      ensures activeCategory == AllCategory && Valid()
    {
      activeCategory := AllCategory;
      DisplayedCategoryIds();
    }

    /** A category button's `onClick`. */
    method SelectCategory(c: Category)
      requires c in DisplayCategories()
      modifies this
      ensures activeCategory == c.id && Valid()
    {
      activeCategory := c.id;
      var i :| 0 <= i < |DisplayCategories()| && DisplayCategories()[i] == c;
      assert DisplayCategoryIds()[i] == c.id;
    }
  }

  /** A product card's hover "+" button: one `addToCart` for its product. */
  method AddFromHover(cart: CartLog, p: Product)
    modifies cart
    ensures cart.added == old(cart.added) + [p]
  {
    cart.AddToCart(p);
  }
}
