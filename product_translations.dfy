/** The per-language product texts and the fall-back every product surface
    uses: `productTranslations[language]?.[product.id]?.name || product.name`
    (and likewise for the description). The table itself is compiled-in
    data that is not part of this model; members take it as a parameter. */
module ProductTranslations {
  import opened Wrappers
  import opened Catalog

  /** An entry of the table; a missing field is `None`. */
  datatype ProductText = ProductText(name: Option<string>, description: Option<string>)

  /** language -> product id -> texts */
  type ProductTable = map<string, map<nat, ProductText>>

  /** `productTranslations[language]?.[id]`: defined exactly when both keys are present. */
  function Entry(table: ProductTable, language: string, id: nat): (e: Option<ProductText>)
    ensures e.Some? <==> language in table && id in table[language]
    ensures e.Some? ==> e.value == table[language][id]
  {
    if language in table && id in table[language] then Some(table[language][id]) else None
  }

  /** `x || fallback` for an optional string: the empty string is falsy. */
  function OrElse(x: Option<string>, fallback: string): (r: string)
    ensures x.Some? && x.value != "" ==> r == x.value
    ensures x.None? || x.value == "" ==> r == fallback
  {
    if x.Some? && x.value != "" then x.value else fallback
  }

  /** `productTranslations[language]?.[id]?.name` */
  function TranslatedName(table: ProductTable, language: string, id: nat): (name: Option<string>)
    ensures name.Some? <==> language in table && id in table[language] && table[language][id].name.Some?
    ensures name.Some? ==> name == table[language][id].name
  {
    match Entry(table, language, id)
    case Some(text) => text.name
    case None => None
  }

  /** `productTranslations[language]?.[id]?.description` */
  function TranslatedDescription(table: ProductTable, language: string, id: nat): (description: Option<string>)
    ensures description.Some? <==>
              language in table && id in table[language] && table[language][id].description.Some?
    ensures description.Some? ==> description == table[language][id].description
  {
    match Entry(table, language, id)
    case Some(text) => text.description
    case None => None
  }

  /** The displayed name: the translation for (language, id) when it is a
      non-empty string, otherwise the product's own name. */
  function DisplayName(table: ProductTable, language: string, p: Product): (name: string)
    ensures name == p.name || (TranslatedName(table, language, p.id) == Some(name) && name != "")
    ensures (forall s :: TranslatedName(table, language, p.id) == Some(s) ==> s == "") ==> name == p.name
    ensures forall s :: TranslatedName(table, language, p.id) == Some(s) && s != "" ==> name == s
  {
    OrElse(TranslatedName(table, language, p.id), p.name)
  }

  /** The displayed description, by the same rule as the name. */
  function DisplayDescription(table: ProductTable, language: string, p: Product): (description: string)
    ensures description == p.description ||
            (TranslatedDescription(table, language, p.id) == Some(description) && description != "")
    ensures (forall s :: TranslatedDescription(table, language, p.id) == Some(s) ==> s == "") ==>
              description == p.description
    ensures forall s :: TranslatedDescription(table, language, p.id) == Some(s) && s != "" ==> description == s
  {
    OrElse(TranslatedDescription(table, language, p.id), p.description)
  }

  /** Every catalog product shows a non-empty name and description in every
      language, whatever the table holds. */
  lemma CatalogTextsNeverBlank(table: ProductTable, language: string, i: nat)
    requires i < |Products|
    ensures DisplayName(table, language, Products[i]) != ""
    ensures DisplayDescription(table, language, Products[i]) != ""
  {
    ProductTextsAreNonEmpty();
  }
}
