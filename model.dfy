/** The webshop's product records. Every concrete product kind carries the
    same four fields; the kind itself is the only thing that tells them apart.
    `Other` stands for any further subclass of `Product`, which the
    repository's type switch sends to its default branch; the model does not
    record which such subclass it was. */
module Model {

  /** Stand-in for the Java `double` price. The repository only copies prices
      from products to documents and back, and never computes with them. */
  type Price = int

  datatype Product =
    | Electronics(articleNumber: string, title: string, price: Price, description: string)
    | Furniture(articleNumber: string, title: string, price: Price, description: string)
    | Clothing(articleNumber: string, title: string, price: Price, description: string)
    | Other(articleNumber: string, title: string, price: Price, description: string)

  /** A product of one of the three kinds the repository knows how to store
      and read back. */
  predicate IsKnown(p: Product)
  {
    !p.Other?
  }

  /** Two products are of the same kind. */
  predicate SameKind(p: Product, q: Product)
  {
    && p.Electronics? == q.Electronics?
    && p.Furniture? == q.Furniture?
    && p.Clothing? == q.Clothing?
    && p.Other? == q.Other?
  }

  /** The products of a known kind, in their original order. */
  function KnownOnly(ps: seq<Product>): (r: seq<Product>)
    ensures |r| <= |ps|
    ensures forall p | p in r :: p in ps && IsKnown(p)
  {
    if ps == [] then []
    else (if IsKnown(ps[0]) then [ps[0]] else []) + KnownOnly(ps[1..])
  }
}
