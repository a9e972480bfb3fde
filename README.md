# Storefront state and queries, modelled in Dafny

This project models the logic of a small bilingual (English/Arabic) meal-shop
front end. Most of the front end is markup. The model covers the parts that
hold state or compute something:

- **Language provider** (`language_context.dfy`). It picks the initial language from a stored value, derives the text direction, and toggles between `en` and `ar`. It also defines `t(key)`: the key is split on `.` and the nested translation table of the active language is walked one segment at a time. The table is a tree (`Leaf(string) | Node(map<string, Tree>)`). `t` is a class method with a loop, proved equal to a specification function `Resolve`. The `useLanguage` guard fails when no provider is in scope.
- **Catalog** (`catalog.dfy`). It holds the 16 product records and the 8 categories, with prices in integer cents. It has three queries: featured products, products by category, and product by id. They are built on the `filter`/`find`/`slice` helpers in `seqs.dfy`. The queries, and the component functions that read the product array, take that array as a parameter `products`; the storefront passes `Catalog.Products`. Facts about the concrete records are proved once as predicates on `Products` (for example, ids equal positions plus one) and then used by lemmas stated for any array that has them.
- **Product page** (`product_checkout.dfy`). It finds the product for the route id, or shows the not-found branch. It has a quantity selector kept within 1..10. The add button calls `addToCart` once per unit, and the page view records which amounts are passed to `formatPrice`.
- **FAQ page** (`faq.dfy`). A click toggles one index in the set of open questions. A running counter numbers the questions 0..13 across the four sections while they are rendered.
- **Famous-items block** (`features_section.dfy`). It shows the first four category buttons and keeps the active category. It shows the first four products of that category, with labels taken from the category translations.
- **Product grid** (`products_grid.dfy`). It shows the first eight products as cards. Each card has a localized name, a `/product/<id>` link (`routes.dfy`) and a sale badge. Its button makes one `addToCart` call per click.

The cart store is not part of this model. `cart.dfy` stands in for it: it records the products handed to `addToCart`, in call order, and that is all. The translation tables are compiled-in data that is not part of this model either. Every member that reads them takes them as a parameter.

Where the code and the intended design differ, the model follows the code:

- The stored language is not validated. A stored `"fr"` stays `"fr"`, and `t` then shows every key as itself.
- `t` returns the sub-table object when a key names an intermediate node.
- `t` also falls back to the key when the translation is an empty string.

## Model

| member | source | states |
|---|---|---|
| LanguageContext.InitialLanguage | src/context/LanguageContext.jsx:7-10 | the stored value when it is a non-empty string, otherwise "en"; no check against en/ar |
| LanguageContext.LanguageProvider.constructor | src/context/LanguageContext.jsx:6-10 | the provider starts in the initial language chosen from the stored value |
| LanguageContext.IsRtl | src/context/LanguageContext.jsx:12 | right-to-left exactly when the language is "ar" |
| LanguageContext.Split | src/context/LanguageContext.jsx:21 | `key.split('.')`: at least one segment, none containing a dot |
| LanguageContext.JoinSplit | src/context/LanguageContext.jsx:21 | joining the segments with dots gives the key back |
| LanguageContext.SplitJoin | src/context/LanguageContext.jsx:21 | splitting dot-joined dot-free segments gives the same segments back |
| LanguageContext.SplitSegment | src/context/LanguageContext.jsx:21 | a key without dots is a single segment |
| LanguageContext.SplitPrefix | src/context/LanguageContext.jsx:21 | a leading dot-free segment followed by a dot is split off first |
| LanguageContext.Step | src/context/LanguageContext.jsx:24 | `value?.[k]`: defined exactly when the value is a table that has key k, and then it is that entry |
| LanguageContext.WalkFromUndefined | src/context/LanguageContext.jsx:23-25 | once the value is undefined it stays undefined for the rest of the walk |
| LanguageContext.WalkConcat | src/context/LanguageContext.jsx:23-25 | walking a concatenated path is walking its parts one after the other |
| LanguageContext.LanguageTable | src/context/LanguageContext.jsx:22 | `translations[language]`: defined exactly for a language that has a table, and then it is that table |
| LanguageContext.Resolve | src/context/LanguageContext.jsx:20-27 | `t`'s result: the key, or else exactly what the walk reached; the key when the walk is undefined or an empty string; the string when non-empty; the sub-table when it reached a node |
| LanguageContext.LanguageProvider.T | src/context/LanguageContext.jsx:20-27 | the loop over the segments returns `Resolve` of the active language and key |
| LanguageContext.MissingSegmentGivesKey | src/context/LanguageContext.jsx:23-26 | if any prefix of the path is missing, `t` returns the key unchanged |
| LanguageContext.UnknownLanguageShowsKeys | src/context/LanguageContext.jsx:22-26 | for a language with no table, `t(k) == k` for every key |
| LanguageContext.MissingFirstSegmentGivesKey | src/context/LanguageContext.jsx:20-26 | a key like "nonexistent.key" whose first segment is absent is returned as itself |
| LanguageContext.ResolveIsTruthy | src/context/LanguageContext.jsx:26 | for a non-empty key `t` never returns a falsy value |
| LanguageContext.ResolveNested | src/context/LanguageContext.jsx:20-27 | "section.entry" leading to a non-empty string returns that string |
| LanguageContext.Toggle | src/context/LanguageContext.jsx:29-31 | "en" goes to "ar", every other value to "en"; the result is always en or ar |
| LanguageContext.ToggleTwice | src/context/LanguageContext.jsx:29-31 | toggling twice is the identity on en/ar; an unsupported value becomes "en", then "ar" |
| LanguageContext.ToggleFlipsDirection | src/context/LanguageContext.jsx:12 | for en/ar each toggle flips the text direction |
| LanguageContext.LanguageProvider.ToggleLanguage | src/context/LanguageContext.jsx:29-31 | the new language is `Toggle` of the old one |
| LanguageContext.LanguageProvider.SetLanguage | src/context/LanguageContext.jsx:34 | the exposed setter installs the given code |
| LanguageContext.UseLanguage | src/context/LanguageContext.jsx:40-46 | an error with the fixed message exactly when no provider is in scope, else the provider |
| Seqs.Filter | src/data/products.js:191 | `filter`: no longer than the input; holds exactly the input's elements that pass |
| Seqs.Find | src/data/products.js:194 | `find`: undefined exactly when nothing passes; otherwise an element of the input that passes |
| Seqs.SubsequenceReflexive | src/data/products.js:192-193 | the "all" branch returns the whole catalog, which keeps its own order |
| Seqs.FindIsFirst | src/data/products.js:194 | `find` returns the first passing element |
| Seqs.Take | src/components/home/FeaturesSection.jsx:41-42 | `slice(0, n)`: a prefix of length min(n, length) |
| Seqs.FilterConcat | src/data/products.js:193 | filtering a concatenation filters each part, which fixes the order of the result |
| Seqs.FilterIsSubsequence | src/data/products.js:193 | the filtered elements keep their input order |
| Seqs.FilterKeepsNone | src/data/products.js:193 | when nothing passes the result is empty |
| Seqs.FindUnique | src/data/products.js:194 | when exactly one position passes, `find` returns it |
| Seqs.FindNoneAt | src/data/products.js:194 | when no position passes, `find` is undefined |
| Seqs.TakeSatisfies | src/components/home/FeaturesSection.jsx:41-42 | every element of a prefix of a list whose elements pass a test passes it too |
| Catalog.CategoryIds | src/data/products.js:180-189 | the ids of the categories, in order |
| Catalog.FeaturedProducts | src/data/products.js:191 | exactly the catalog products with `featured` set |
| Catalog.ProductsByCategory | src/data/products.js:192-193 | the whole catalog for "all"; otherwise exactly the products of that category |
| Catalog.ProductById | src/data/products.js:194 | a catalog product with that id, or undefined exactly when no product has it |
| Catalog.ProductIdsAreOneToSixteen | src/data/products.js:1-178 | 16 products whose ids are 1..16 in order |
| Catalog.IdsArePositionsDistinct | src/data/products.js:1-178 | ids that follow positions are pairwise distinct |
| Catalog.ProductsAreInStock | src/data/products.js:1-178 | every product is in stock |
| Catalog.NoProductIsDiscounted | src/data/products.js:1-178 | no product has an original price (`null` in every record) |
| Catalog.ProductTextsAreNonEmpty | src/data/products.js:1-178 | every product has a non-empty name and description |
| Catalog.ProductCategoriesAreListed | src/data/products.js:1-189 | every product's category is a listed category id other than "all" |
| Catalog.CategoriesAreWellFormed | src/data/products.js:180-189 | 8 categories with distinct ids, "all" first |
| Catalog.QueriesKeepCatalogOrder | src/data/products.js:191-193 | featured and by-category results are subsequences of the catalog |
| Catalog.UnknownCategoryIsEmpty | src/data/products.js:193 | a category no product has yields an empty result |
| Catalog.ProductByIdIsIndexed | src/data/products.js:194 | when ids follow positions, as in the catalog, id k finds the product at position k-1; every other id (999, say) finds nothing |
| ProductTranslations.OrElse | src/pages/ProductCheckout.jsx:34 | `x || fallback` on an optional string: the value when non-empty, else the fallback |
| ProductTranslations.Entry | src/pages/ProductCheckout.jsx:34 | `productTranslations[language]?.[product.id]`: defined exactly when both keys are present, and then it is that entry |
| ProductTranslations.TranslatedName | src/components/home/ProductsGrid.jsx:81 | `…?.[product.id]?.name`: defined exactly when the language, the id and the name are all present, and then it is that name |
| ProductTranslations.TranslatedDescription | src/pages/ProductCheckout.jsx:35 | `…?.[product.id]?.description`: defined exactly when the language, the id and the description are all present, and then it is that description |
| ProductTranslations.DisplayName | src/pages/ProductCheckout.jsx:34 | the translated name whenever it is a non-empty string; the product's own name exactly otherwise |
| ProductTranslations.DisplayDescription | src/pages/ProductCheckout.jsx:35 | the translated description whenever it is a non-empty string; the product's own description exactly otherwise |
| ProductTranslations.CatalogTextsNeverBlank | src/pages/ProductCheckout.jsx:34-35 | every catalog product shows a non-empty name and description in any language |
| Cart.CartLog.AddToCart | src/pages/ProductCheckout.jsx:39 | one call appends the product to the record of calls |
| Cart.Repeat | src/pages/ProductCheckout.jsx:38-40 | n calls with the same product: n entries, all that product |
| Cart.TotalPriceOfRepeat | src/pages/ProductCheckout.jsx:174 | n additions of a product cost n times its price |
| ProductCheckout.RouteProduct | src/pages/ProductCheckout.jsx:10 | no product exactly when the id is NaN or matches no catalog product; else the product with that id |
| ProductCheckout.QuantityAfter | src/pages/ProductCheckout.jsx:45-50 | the new quantity is the sum exactly when it lies in 1..10, else unchanged; 1..10 is preserved |
| ProductCheckout.ControlsDisabledExactlyWhenIneffective | src/pages/ProductCheckout.jsx:151-161 | "−" is disabled exactly when a decrement has no effect, "+" exactly when an increment has none |
| ProductCheckout.CheckoutPage.constructor | src/pages/ProductCheckout.jsx:10-14 | the page starts at quantity 1, with no success banner, on the route's product |
| ProductCheckout.CheckoutPage.HandleQuantityChange | src/pages/ProductCheckout.jsx:45-50 | the quantity becomes `QuantityAfter` of the old one and stays within 1..10 |
| ProductCheckout.CheckoutPage.HandleAddToCart | src/pages/ProductCheckout.jsx:37-43 | only with a product; `quantity` calls with that product appended, then the banner shows |
| ProductCheckout.CheckoutPage.View | src/pages/ProductCheckout.jsx:16-182 | not-found exactly without a product; otherwise the localized texts, the price, the struck original price exactly when it is set and non-zero, the subtotal amount price × quantity, the disabled controls and the add button disabled exactly when out of stock |
| ProductCheckout.StruckPrice | src/pages/ProductCheckout.jsx:126-130 | the original price is shown exactly when it is set and non-zero, and then it is that price |
| ProductCheckout.DetailView | src/pages/ProductCheckout.jsx:34-182 | the found-product page: localized texts, price, struck price, subtotal price × quantity, "−" disabled at 1, "+" at 10, add disabled exactly when out of stock |
| ProductCheckout.SubtotalIsWhatAddingCosts | src/pages/ProductCheckout.jsx:174 | the subtotal shown equals the total price of what the add button puts in the cart |
| ProductCheckout.NotFoundExactlyForUnknownIds | src/pages/ProductCheckout.jsx:10-32 | not-found exactly for a NaN id or one outside 1..16; every found product can be added |
| Faq.Toggled | src/pages/FAQ.jsx:9-17 | the clicked index changes membership; every other index keeps it |
| Faq.ToggleTwice | src/pages/FAQ.jsx:9-17 | clicking the same question twice restores the open set |
| Faq.FaqPage.constructor | src/pages/FAQ.jsx:7 | the open set starts as exactly {0} |
| Faq.FaqPage.ToggleQuestion | src/pages/FAQ.jsx:9-17 | a new set built from a copy is installed: `Toggled` of the old one |
| Faq.Offset | src/pages/FAQ.jsx:56-90 | the counter's value at the start of a section: 0 at the first, and at least the size of every earlier section |
| Faq.OffsetGrows | src/pages/FAQ.jsx:89-90 | a later section's first index is past the end of every earlier section |
| Faq.RenderQuestions | src/pages/FAQ.jsx:56-133 | the counter gives question k of section s the index offset(s)+k; the question is open exactly when that index is in the open set |
| Faq.IndicesAreDistinct | src/pages/FAQ.jsx:89-90 | different questions get different indices |
| Faq.IndicesCoverRange | src/pages/FAQ.jsx:89-90 | every index below the question total belongs to some question |
| Faq.OffsetOfPrefix | src/pages/FAQ.jsx:56 | the counter at the start of a section depends only on the earlier sections |
| Faq.OffsetPrefixAgrees | src/pages/FAQ.jsx:56 | offsets computed over a prefix of the sections agree with the whole |
| Faq.FaqNumbering | src/pages/FAQ.jsx:19-56 | sections start at 0, 4, 7, 11; 14 questions in all; no key "faq.q8" |
| Faq.ClickFlipsOnlyThatQuestion | src/pages/FAQ.jsx:91-100 | clicking a rendered question flips its open state and no other question's |
| FeaturesSection.DisplayCategories | src/components/home/FeaturesSection.jsx:44 | four buttons, a prefix of the categories |
| FeaturesSection.DisplayCategoryIds | src/components/home/FeaturesSection.jsx:44 | the ids of the four buttons |
| FeaturesSection.DisplayedCategoryIds | src/components/home/FeaturesSection.jsx:44 | the buttons are all, asian, indian, mediterranean |
| FeaturesSection.FilteredProducts | src/components/home/FeaturesSection.jsx:39-42 | at most four products, a prefix of `getProductsByCategory`, all of the active category unless it is "all" |
| FeaturesSection.FilteredIsPrefixOfCategory | src/components/home/FeaturesSection.jsx:39-42 | as many products as the category has, up to four; the first four products for "all" |
| FeaturesSection.CardOf | src/components/home/FeaturesSection.jsx:113-129 | a card links to `/product/<id>` and shows the localized name and the price |
| FeaturesSection.FeatureCards | src/components/home/FeaturesSection.jsx:109-131 | one card per filtered product, in order, with its localized name, its `/product/<id>` link and its price |
| FeaturesSection.CategoryTranslations | src/components/home/FeaturesSection.jsx:28-37 | one entry per category id: `t` of its translation key |
| FeaturesSection.CategoryLabel | src/components/home/FeaturesSection.jsx:100 | the button label is the category name or the translation of its key |
| FeaturesSection.CategoryLabelIsTranslation | src/components/home/FeaturesSection.jsx:100 | for every listed category the label is the translation: the name fall-back is never taken |
| FeaturesSection.ViewAllLabel | src/components/home/FeaturesSection.jsx:155 | defined exactly for a category id that has a translation key |
| FeaturesSection.ViewAllLabelIsActiveTranslation | src/components/home/FeaturesSection.jsx:155 | both branches give the active category's translation |
| FeaturesSection.FeaturesView.constructor | src/components/home/FeaturesSection.jsx:9 | the active category starts as "all" |
| FeaturesSection.FeaturesView.SelectCategory | src/components/home/FeaturesSection.jsx:87-90 | a click sets the active category to the button's id, which stays among the four offered |
| FeaturesSection.AddFromHover | src/components/home/FeaturesSection.jsx:135-138 | the hover button makes exactly one `addToCart` call for its product |
| Routes.Decimal | src/components/home/ProductsGrid.jsx:57 | the decimal digits of the id, no leading zero |
| Routes.DecimalRoundTrip | src/components/home/ProductsGrid.jsx:57 | the digits denote the id again |
| Routes.ProductPath | src/components/home/ProductsGrid.jsx:57 | `/product/` followed by digits |
| Routes.ProductPathNamesId | src/components/home/ProductsGrid.jsx:79 | the digits after `/product/` denote the id |
| Routes.ProductPathInjective | src/components/home/ProductsGrid.jsx:57 | distinct ids give distinct paths |
| ProductsGrid.DisplayProducts | src/components/home/ProductsGrid.jsx:10 | the first eight products (all of them when fewer), in order |
| ProductsGrid.CardFor | src/components/home/ProductsGrid.jsx:33-95 | the localized name, the link path, the price; a badge and struck price exactly when an original price is set and non-zero |
| ProductsGrid.Cards | src/components/home/ProductsGrid.jsx:32 | one card per displayed product, in order |
| ProductsGrid.GridShowsNoSaleBadge | src/components/home/ProductsGrid.jsx:39 | the catalog's grid has eight cards and, since no product has an original price, none shows a badge |
| ProductsGrid.CardLinkOpensProduct | src/components/home/ProductsGrid.jsx:57 | when ids follow positions, as in the catalog, the id in a card's link finds that card's product |
| ProductsGrid.CardLinksAreDistinct | src/components/home/ProductsGrid.jsx:79 | when ids follow positions, different cards link to different paths |
| ProductsGrid.HandleAddToCart | src/components/home/ProductsGrid.jsx:12-15 | one click makes exactly one `addToCart` call for its product |

## Left out

- The cart store (`addToCart` accumulation, `formatPrice`, `cartCount`, currency) lives in `src/context/CartContext`, which is not part of this model. Calls to it are recorded, and the amounts passed to `formatPrice` are kept in the page and card views.
- The translation data (`src/data/translations`) is not part of this model. Members take the tables as parameters.
- Browser I/O is not modelled: `localStorage` reads and writes, and the `lang`/`dir` attributes set on the document. The stored value is an `Option<string>` parameter.
- `parseInt` of the route parameter is a library call. The page takes the id as `Option<int>`, where `None` stands for NaN.
- JavaScript property lookup beyond a table's own keys is not modelled. Indexing a string (`"abc"["0"]`, `"length"`) and inherited properties (`"constructor"`) give undefined in the model, though JavaScript returns a value for them.
- The discount percentage uses floating point and `Math.round`, so it is not modelled. Prices are integer cents.
- The `setTimeout` that hides the success banner after three seconds is timer-driven, so it is not modelled.
- CSS classes, animations, icons, router `Link` rendering and static markup are not modelled. The same goes for the feature tiles and the literal texts they translate.
- Catalog.FeaturedProducts: the model does not list the eight featured ids as a concrete sequence. It proves membership and order for any catalog instead.
- ProductCheckout.StruckPrice, ProductsGrid.CardFor: an `originalPrice` of `0` makes `{product.originalPrice && …}` render the text `0` (src/pages/ProductCheckout.jsx:85 and 127, src/components/home/ProductsGrid.jsx:39 and 88). The model shows nothing in that case. Every catalog record has `null` there.
- Faq: `FaqSections` holds the translation keys of the titles, questions and answers. The page holds `t(key)` of each (src/pages/FAQ.jsx:19-54). The resolved texts are not modelled here; `LanguageContext.Resolve` describes them.
- LanguageContext.Truthy only covers the values a table can hold (strings and objects). Numbers, booleans and `null` do not occur in the model.
