/** The small display rules of the facility cards and the store: which service tags a card
    shows, the "+n more" tag, and the Out of Stock, Sale and Save badges of a product. */
module Display {
  import opened Catalog

  /** The most service tags a facility card shows. */
  const ShownServiceLimit: nat := 3

  /** The tags a card shows, `services.slice(0, 3)`: the first three, or all when there are fewer. */
  function ShownServices(services: seq<string>): (r: seq<string>)
    ensures |r| == if |services| < ShownServiceLimit then |services| else ShownServiceLimit
    ensures r == services[..|r|]
  {
    if |services| <= ShownServiceLimit then services else services[..ShownServiceLimit]
  }

  /** The "+n more" tag: present with `n` the number of tags the card leaves out. */
  function MoreServicesTag(services: seq<string>): (r: Option<nat>)
    ensures r.Some? <==> |ShownServices(services)| < |services|
    ensures r.Some? ==> r.value >= 1 && |ShownServices(services)| + r.value == |services|
  {
    if |services| > ShownServiceLimit then Some(|services| - ShownServiceLimit) else None
  }

  /** Whether `originalPrice` is truthy in JavaScript: present and not zero. */
  predicate HasOriginalPrice(p: Product) {
    p.originalPrice.Some? && p.originalPrice.value != 0.0
  }

  /** The Out of Stock badge of a store card and of the product screen (`!inStock`). */
  predicate ShowsOutOfStock(p: Product) {
    !p.inStock
  }

  /** The Sale badge of a store card, `originalPrice && inStock`: shown exactly when the
      product's screen has a Save badge and no Out of Stock badge. */
  function ShowsSale(p: Product): (r: bool)
    ensures r <==> SaveAmount(p).Some? && !ShowsOutOfStock(p)
  {
    HasOriginalPrice(p) && p.inStock
  }

  /** The Save badge of the product screen: the discount, shown whenever there is an original price
      (in stock or not). */
  function SaveAmount(p: Product): (r: Option<real>)
    ensures r.Some? <==> HasOriginalPrice(p)
    ensures r.Some? ==> p.price + r.value == p.originalPrice.value
  {
    match p.originalPrice
    case Some(o) => if o != 0.0 then Some(o - p.price) else None
    case None => None
  }

  /** A card with the Sale badge leads to a product screen with a Save badge. */
  lemma SaleImpliesSave(p: Product)
    ensures ShowsSale(p) ==> SaveAmount(p).Some? && SaveAmount(p).value == p.originalPrice.value - p.price
  {
  }
}
