/** The cart store as the pages see it. Its internals (line merging,
    currency, `formatPrice`) are not part of this model: the store stands
    for the record of the products handed to `addToCart`, in call order. */
module Cart {
  import opened Catalog

  class CartLog {
    var added: seq<Product>

    constructor ()
      ensures added == []
    {
      added := [];
    }

    /** `addToCart(product)` */
    method AddToCart(p: Product)
      modifies this
      ensures added == old(added) + [p]
    {
      added := added + [p];
    }
  }

  /** `n` copies of `p`, the calls a loop of `n` additions makes. */
  function Repeat(p: Product, n: nat): (r: seq<Product>)
    ensures |r| == n
    ensures forall i :: 0 <= i < n ==> r[i] == p
  {
    if n == 0 then [] else Repeat(p, n - 1) + [p]
  }

  /** What the added products cost together, in cents. */
  function TotalPrice(items: seq<Product>): nat
  {
    if items == [] then 0 else TotalPrice(items[..|items| - 1]) + items[|items| - 1].price
  }

  /** `n` additions of one product cost `n` times its price. */
  lemma {:induction false} TotalPriceOfRepeat(p: Product, n: nat)
    ensures TotalPrice(Repeat(p, n)) == p.price * n
  {
    if n > 0 {
      TotalPriceOfRepeat(p, n - 1);
      assert Repeat(p, n)[..n - 1] == Repeat(p, n - 1);
      calc {
        TotalPrice(Repeat(p, n));
        TotalPrice(Repeat(p, n - 1)) + p.price;
        p.price * (n - 1) + p.price;
        { MultiplyOut(p.price, n); }
        p.price * n;
      }
    }
  }

  lemma MultiplyOut(a: nat, n: nat)
    requires n > 0
    ensures a * (n - 1) + a == a * n
  {
  }
}
