/** The static catalog: sixteen meals, eight categories, and the three
    queries over them. Prices are integer cents. */
module Catalog {
  import opened Wrappers
  import opened Seqs

  datatype Product = Product(
    id: nat,
    name: string,
    price: nat,                 // cents
    originalPrice: Option<nat>, // cents; `null` in every record
    image: string,
    category: string,
    inStock: bool,
    featured: bool,
    description: string)

  datatype Category = Category(id: string, name: string)

  const Products: seq<Product> := [
    Product(1, "Thai Basil Chicken", 800, None, "/food/roozchickn.jpg", "asian", true, true,
            "Aromatic Thai basil chicken with jasmine rice"),
    Product(2, "Mediterranean Bowl", 800, None, "/food/sallad.jpg", "mediterranean", true, true,
            "Fresh Mediterranean vegetables with quinoa and feta"),
    Product(3, "Butter Chicken", 800, None, "/food/roozchickn.jpg", "indian", true, true,
            "Creamy tomato-based curry with tender chicken"),
    Product(4, "Beef Bulgogi", 800, None, "/food/mix.jpg", "asian", true, false,
            "Korean marinated beef with steamed rice"),
    Product(5, "Chicken Tikka Masala", 800, None, "/food/roozchickn.jpg", "indian", true, true,
            "Classic tikka masala with basmati rice"),
    Product(6, "Teriyaki Salmon", 800, None, "/food/mix.jpg", "asian", true, false,
            "Glazed salmon with teriyaki sauce and vegetables"),
    Product(7, "Pasta Primavera", 800, None, "/food/sallad.jpg", "italian", true, false,
            "Fresh vegetables with penne in garlic sauce"),
    Product(8, "Mexican Rice Bowl", 800, None, "/food/mix.jpg", "mexican", true, true,
            "Spiced rice with black beans and salsa"),
    Product(9, "Green Curry Shrimp", 800, None, "/food/mix.jpg", "asian", true, false,
            "Thai green curry with shrimp and vegetables"),
    Product(10, "Chicken Alfredo", 800, None, "/food/roozchickn.jpg", "italian", true, false,
            "Creamy alfredo pasta with grilled chicken"),
    Product(11, "Lamb Biryani", 800, None, "/food/mix.jpg", "indian", true, true,
            "Aromatic spiced rice with tender lamb"),
    Product(12, "Vegetable Stir Fry", 800, None, "/food/sallad.jpg", "asian", true, false,
            "Mixed vegetables in savory sauce with rice"),
    Product(13, "Sandwich Combo", 800, None, "/food/pack sandich friese and salad.jpg", "american", true, false,
            "Sandwich with fries and fresh salad"),
    Product(14, "Classic Sandwich", 800, None, "/food/sandichs.jpg", "american", true, true,
            "Fresh made sandwich with your choice of fillings"),
    Product(15, "Kung Pao Chicken", 800, None, "/food/roozchickn.jpg", "asian", true, true,
            "Spicy chicken with peanuts and vegetables"),
    Product(16, "Dessert Special", 800, None, "/food/desert.jpg", "dessert", true, false,
            "Sweet treat to finish your meal")
  ]

  const Categories: seq<Category> := [
    Category("all", "All Meals"),
    Category("asian", "Asian Cuisine"),
    Category("indian", "Indian Flavors"),
    Category("mediterranean", "Mediterranean"),
    Category("italian", "Italian Classics"),
    Category("mexican", "Mexican Favorites"),
    Category("american", "American Comfort"),
    Category("dessert", "Desserts")
  ]

  /** The id that `getProductsByCategory` treats as "every product". */
  const AllCategory: string := "all"

  /** The ids of `Categories`, in order. */
  function CategoryIds(): (ids: seq<string>)
    ensures |ids| == |Categories|
    ensures forall i :: 0 <= i < |ids| ==> ids[i] == Categories[i].id
  {
    seq(|Categories|, i requires 0 <= i < |Categories| => Categories[i].id)
  }

  /** `getFeaturedProducts()`: the featured products. The query functions
      take the product array as `products`; the storefront passes `Products`. */
  function FeaturedProducts(products: seq<Product>): (r: seq<Product>)
    ensures forall p :: p in r <==> p in products && p.featured
  {
    Filter(products, (p: Product) => p.featured)
  }

  /** The test `p.category === category` that category filters apply. */
  function HasCategory(category: string): Product -> bool
  {
    (p: Product) => p.category == category
  }

  /** `getProductsByCategory(category)`: the whole catalog for "all",
      otherwise the products of that category. */
  function ProductsByCategory(products: seq<Product>, category: string): (r: seq<Product>)
    ensures category == AllCategory ==> r == products
    ensures category != AllCategory ==>
              forall p :: p in r <==> p in products && p.category == category
  {
    if category == AllCategory then products
    else Filter(products, HasCategory(category))
  }

  /** `getProductById(id)`: the first product with that id, if any. */
  function ProductById(products: seq<Product>, id: int): (r: Option<Product>)
    ensures r.Some? ==> r.value in products && r.value.id == id
    ensures r.None? <==> forall p :: p in products ==> p.id != id
  {
    Find(products, (p: Product) => p.id == id)
  }

  // ------------------------------------------------------ data invariants

  /** The product at position `i` has id `i + 1`. */
  ghost predicate IdsArePositions(products: seq<Product>)
  {
    forall i :: 0 <= i < |products| ==> products[i].id == i + 1
  }

  /** The catalog holds sixteen products whose ids are 1 to 16 in order. */
  lemma ProductIdsAreOneToSixteen()
    ensures |Products| == 16
    ensures IdsArePositions(Products)
  {
  }

  /** Position ids are pairwise distinct. */
  lemma IdsArePositionsDistinct(products: seq<Product>)
    requires IdsArePositions(products)
    ensures forall i, j :: 0 <= i < j < |products| ==> products[i].id != products[j].id
  {
  }

  /** Every product is in stock, so no catalog page disables its add button. */
  lemma ProductsAreInStock()
    ensures forall i :: 0 <= i < |Products| ==> Products[i].inStock
  {
  }

  /** No product has an original price (every record says `null`). */
  lemma NoProductIsDiscounted()
    ensures forall i :: 0 <= i < |Products| ==> Products[i].originalPrice.None?
  {
  }

  /** Every product has a non-empty name and description. */
  lemma ProductTextsAreNonEmpty()
    ensures forall i :: 0 <= i < |Products| ==> Products[i].name != "" && Products[i].description != ""
  {
  }

  /** Every product belongs to a listed category other than "all". */
  lemma ProductCategoriesAreListed()
    ensures forall i :: 0 <= i < |Products| ==> Products[i].category in CategoryIds()[1..]
  {
    var ids := CategoryIds();
    assert ids[1..] == ["asian", "indian", "mediterranean", "italian", "mexican", "american", "dessert"];
  }

  /** Eight categories with distinct ids, "all" first. */
  lemma CategoriesAreWellFormed()
    ensures |Categories| == 8 && Categories[0].id == AllCategory
    ensures forall i, j :: 0 <= i < j < |Categories| ==> Categories[i].id != Categories[j].id
  {
  }

  // ------------------------------------------------------------- queries

  /** Both filtering queries keep catalog order. */
  lemma QueriesKeepCatalogOrder(products: seq<Product>, category: string)
    ensures IsSubsequence(FeaturedProducts(products), products)
    ensures IsSubsequence(ProductsByCategory(products, category), products)
  {
    FilterIsSubsequence(products, (p: Product) => p.featured);
    if category != AllCategory {
      FilterIsSubsequence(products, HasCategory(category));
    } else {
      SubsequenceReflexive(products);
    }
  }

  /** A category no product carries yields nothing, "all" excepted. */
  lemma UnknownCategoryIsEmpty(products: seq<Product>, category: string)
    requires category != AllCategory
    requires forall i :: 0 <= i < |products| ==> products[i].category != category
    ensures ProductsByCategory(products, category) == []
  {
    FilterKeepsNone(products, HasCategory(category));
  }

  /** When ids are positions, ids 1 to `|products|` find their product and
      anything else finds nothing. */
  lemma ProductByIdIsIndexed(products: seq<Product>, id: int)
    requires IdsArePositions(products)
    ensures 1 <= id <= |products| ==> ProductById(products, id) == Some(products[id - 1])
    ensures !(1 <= id <= |products|) ==> ProductById(products, id) == None
  {
    if 1 <= id <= |products| {
      FindUnique(products, (p: Product) => p.id == id, id - 1);
    } else {
      FindNoneAt(products, (p: Product) => p.id == id);
    }
  }
}
