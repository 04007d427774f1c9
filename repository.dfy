/** The product repository: the mapping between products and the flat
    documents of the store, and the queries over one collection of such
    documents. The collection is modelled as the sequence of its documents in
    insertion order, which is also the order in which a scan yields them. */
module Repository {

  import opened Wrappers
  import opened Model

  const ElectronicsTag := "electronics"
  const FurnitureTag := "furniture"
  const ClothingTag := "clothing"
  /** The tag written for a product of no known kind; nothing reads it back. */
  const UnknownTag := "unknown"

  const KnownTags: set<string> := {ElectronicsTag, FurnitureTag, ClothingTag}

  /** A stored document with its five fields: the kind tag (the field `type`
      in the store) and the four copied product fields. */
  datatype Document = Document(
    typeTag: string,
    articleNumber: string,
    title: string,
    price: Price,
    description: string)

  // ---------------------------------------------------------------------
  // Mapping between products and documents
  // ---------------------------------------------------------------------

  /** The kind tag of a product: one of the known tags exactly for the known
      kinds, and the unknown tag for every other product. */
  function ProductType(p: Product): (tag: string)
    ensures tag in KnownTags <==> IsKnown(p)
    ensures !IsKnown(p) ==> tag == UnknownTag
  {
    match p
    case Electronics(_, _, _, _) => ElectronicsTag
    case Furniture(_, _, _, _) => FurnitureTag
    case Clothing(_, _, _, _) => ClothingTag
    case Other(_, _, _, _) => UnknownTag
  }

  /** The tag determines the kind: two products get the same tag exactly when
      they are of the same kind. */
  lemma ProductTypeSeparatesKinds(p: Product, q: Product)
    ensures ProductType(p) == ProductType(q) <==> SameKind(p, q)
  {
  }

  /** Writing a product: the document is filed under the product's article
      number, and its tag is a readable one exactly when the product's kind
      is known (see RoundTrip for reading it back). */
  function ProductToDocument(p: Product): (d: Document)
    ensures d.articleNumber == p.articleNumber
    ensures d.typeTag in KnownTags <==> IsKnown(p)
  {
    Document(ProductType(p), p.articleNumber, p.title, p.price, p.description)
  }

  /** Reading a document back: a product exactly when the tag is a known one,
      and then the one product that would be written as this very document. */
  function DocumentToProduct(d: Document): (r: Option<Product>)
    ensures r.Some? <==> d.typeTag in KnownTags
    ensures r.Some? ==> IsKnown(r.value) && ProductToDocument(r.value) == d
  {
    if d.typeTag == ElectronicsTag then
      Some(Electronics(d.articleNumber, d.title, d.price, d.description))
    else if d.typeTag == FurnitureTag then
      Some(Furniture(d.articleNumber, d.title, d.price, d.description))
    else if d.typeTag == ClothingTag then
      Some(Clothing(d.articleNumber, d.title, d.price, d.description))
    else
      None
  }

  /** Writing a product and reading it back gives the same product, of the
      same kind and with the same four fields, when its kind is known, and
      nothing otherwise. */
  lemma RoundTrip(p: Product)
    ensures DocumentToProduct(ProductToDocument(p)) == if IsKnown(p) then Some(p) else None
  {
  }

  /** A product of no known kind is written with the unknown tag and can never
      be read back. */
  lemma UnknownNeverReadsBack(p: Product)
    requires !IsKnown(p)
    ensures ProductToDocument(p).typeTag == UnknownTag
    ensures DocumentToProduct(ProductToDocument(p)) == None
  {
  }

  /** No two different products are written as the same document. */
  lemma ProductToDocumentInjective(p: Product, q: Product)
    ensures ProductToDocument(p) == ProductToDocument(q) ==> p == q
  {
    if ProductToDocument(p) == ProductToDocument(q) {
      ProductTypeSeparatesKinds(p, q);
    }
  }

  // ---------------------------------------------------------------------
  // The store's primitives over a collection of documents
  // ---------------------------------------------------------------------

  /** Some document of the collection has article number `k`. */
  predicate HasKey(ds: seq<Document>, k: string)
  {
    exists i :: 0 <= i < |ds| && ds[i].articleNumber == k
  }

  /** Position `i` holds the first document with article number `k`. */
  predicate IsFirstWithKey(ds: seq<Document>, k: string, i: int)
  {
    && 0 <= i < |ds|
    && ds[i].articleNumber == k
    && forall j :: 0 <= j < i ==> ds[j].articleNumber != k
  }

  /** The store's `find(eq("articleNumber", k)).first()`: the position of the
      first matching document, or none when no document matches. */
  function FirstIndexWithKey(ds: seq<Document>, k: string): (r: Option<nat>)
    ensures r.None? <==> !HasKey(ds, k)
    ensures r.Some? ==> IsFirstWithKey(ds, k, r.value)
  {
    if ds == [] then None
    else if ds[0].articleNumber == k then Some(0)
    else
      match FirstIndexWithKey(ds[1..], k)
      case None =>
        assert forall i :: 1 <= i < |ds| ==> ds[i] == ds[1..][i - 1];
        None
      case Some(i) => Some(i + 1)
  }

  /** There is only one first match. */
  lemma FirstWithKeyUnique(ds: seq<Document>, k: string, i: int, j: int)
    requires IsFirstWithKey(ds, k, i) && IsFirstWithKey(ds, k, j)
    ensures i == j
  {
  }

  /** The store's `countDocuments(eq("articleNumber", k))`. */
  function CountWithKey(ds: seq<Document>, k: string): (n: nat)
    ensures n <= |ds|
    ensures n > 0 <==> HasKey(ds, k)
  {
    if ds == [] then 0
    else
      assert forall i :: 1 <= i < |ds| ==> ds[i] == ds[1..][i - 1];
      (if ds[0].articleNumber == k then 1 else 0) + CountWithKey(ds[1..], k)
  }

  /** The products one document contributes to a scan: its reading, if any. */
  function Decoded(d: Document): seq<Product>
  {
    match DocumentToProduct(d)
    case None => []
    case Some(p) => [p]
  }

  /** What a full scan yields: the readings of the documents with a known
      tag, in collection order; the others are skipped. */
  function DecodeAll(ds: seq<Document>): (r: seq<Product>)
    ensures |r| <= |ds|
    ensures forall p | p in r :: IsKnown(p)
  {
    if ds == [] then [] else Decoded(ds[0]) + DecodeAll(ds[1..])
  }

  /** The documents written for a sequence of products, in order. */
  function EncodeAll(ps: seq<Product>): (r: seq<Document>)
    ensures |r| == |ps|
  {
    if ps == [] then [] else [ProductToDocument(ps[0])] + EncodeAll(ps[1..])
  }

  // ---------------------------------------------------------------------
  // Properties of the scan
  // ---------------------------------------------------------------------

  /** A scan keeps collection order: scanning two stretches of documents one
      after the other gives the two results one after the other. */
  lemma {:induction false} DecodeAllConcat(a: seq<Document>, b: seq<Document>)
    ensures DecodeAll(a + b) == DecodeAll(a) + DecodeAll(b)
  {
    if a == [] {
      assert a + b == b;
    } else {
      assert (a + b)[1..] == a[1..] + b;
      DecodeAllConcat(a[1..], b);
    }
  }

  /** A product is in the scan exactly when some document reads back as it. */
  lemma {:induction false} DecodeAllMembers(ds: seq<Document>, p: Product)
    ensures p in DecodeAll(ds) <==> exists i :: 0 <= i < |ds| && DocumentToProduct(ds[i]) == Some(p)
  {
    if ds != [] {
      DecodeAllMembers(ds[1..], p);
      assert forall i :: 1 <= i < |ds| ==> ds[i] == ds[1..][i - 1];
      if exists i :: 0 <= i < |ds| && DocumentToProduct(ds[i]) == Some(p) {
        var i :| 0 <= i < |ds| && DocumentToProduct(ds[i]) == Some(p);
        if i > 0 {
          assert DocumentToProduct(ds[1..][i - 1]) == Some(p);
        }
      }
    }
  }

  /** The scan loses a document exactly when some document has an unknown
      tag: it has as many products as the collection has documents if and
      only if every tag is known. */
  lemma {:induction false} DecodeAllComplete(ds: seq<Document>)
    ensures |DecodeAll(ds)| == |ds| <==> forall i :: 0 <= i < |ds| ==> ds[i].typeTag in KnownTags
  {
    if ds != [] {
      DecodeAllComplete(ds[1..]);
      assert forall i :: 1 <= i < |ds| ==> ds[i] == ds[1..][i - 1];
    }
  }

  /** Scanning what was written for a sequence of products gives back exactly
      its products of a known kind, in order. */
  lemma {:induction false} DecodeAllOfEncoded(ps: seq<Product>)
    ensures DecodeAll(EncodeAll(ps)) == KnownOnly(ps)
  {
    if ps != [] {
      RoundTrip(ps[0]);
      DecodeAllOfEncoded(ps[1..]);
    }
  }

  /** Appending one document adds its reading, if any, at the end of the scan. */
  lemma DecodeAllAppend(ds: seq<Document>, d: Document)
    ensures DecodeAll(ds + [d]) == DecodeAll(ds) + Decoded(d)
  {
    DecodeAllConcat(ds, [d]);
  }

  // ---------------------------------------------------------------------
  // Properties of lookups and counts under an insert
  // ---------------------------------------------------------------------

  /** After appending `d`, the first match for `k` is the old one if there was
      one, else `d` itself if it matches, else none. */
  lemma {:induction false} FirstIndexAfterAppend(ds: seq<Document>, d: Document, k: string)
    ensures FirstIndexWithKey(ds + [d], k) ==
      if HasKey(ds, k) then FirstIndexWithKey(ds, k)
      else if d.articleNumber == k then Some(|ds|)
      else None
  {
    if ds != [] {
      assert (ds + [d])[1..] == ds[1..] + [d];
      FirstIndexAfterAppend(ds[1..], d, k);
    }
  }

  /** Appending `d` raises the count for `k` by one when `d` has that key and
      leaves it alone otherwise: inserts are never refused as duplicates. */
  lemma {:induction false} CountAfterAppend(ds: seq<Document>, d: Document, k: string)
    ensures CountWithKey(ds + [d], k) == CountWithKey(ds, k) + (if d.articleNumber == k then 1 else 0)
  {
    if ds != [] {
      assert (ds + [d])[1..] == ds[1..] + [d];
      CountAfterAppend(ds[1..], d, k);
    }
  }

  /** Inserting two documents with one article number keeps both: the count
      for that key grows by two, and when the key was new, lookups find the
      first of the two. */
  lemma DuplicateInserts(ds: seq<Document>, d1: Document, d2: Document)
    requires d1.articleNumber == d2.articleNumber
    ensures CountWithKey(ds + [d1] + [d2], d1.articleNumber) == CountWithKey(ds, d1.articleNumber) + 2
    ensures !HasKey(ds, d1.articleNumber) ==>
      FirstIndexWithKey(ds + [d1] + [d2], d1.articleNumber) == Some(|ds|)
  {
    var k, mid := d1.articleNumber, ds + [d1];
    CountAfterAppend(ds, d1, k);
    CountAfterAppend(mid, d2, k);
    if !HasKey(ds, k) {
      FirstIndexAfterAppend(ds, d1, k);
      assert mid[|ds|].articleNumber == k;
      FirstIndexAfterAppend(mid, d2, k);
    }
  }

  /** Saving two products with one article number stores both documents,
      whatever their kinds. */
  lemma DuplicateSaves(ds: seq<Document>, p: Product, q: Product)
    requires p.articleNumber == q.articleNumber
    ensures CountWithKey(ds + [ProductToDocument(p)] + [ProductToDocument(q)], p.articleNumber)
         == CountWithKey(ds, p.articleNumber) + 2
    ensures !HasKey(ds, p.articleNumber) ==>
      FirstIndexWithKey(ds + [ProductToDocument(p)] + [ProductToDocument(q)], p.articleNumber) == Some(|ds|)
  {
    DuplicateInserts(ds, ProductToDocument(p), ProductToDocument(q));
  }

  /** An empty collection holds no key and scans to nothing. */
  lemma EmptyCollection(k: string)
    ensures !HasKey([], k) && CountWithKey([], k) == 0
    ensures FirstIndexWithKey([], k) == None && DecodeAll([]) == []
  {
  }

  // ---------------------------------------------------------------------
  // The repository over one collection
  // ---------------------------------------------------------------------

  class ProductRepository {
    /** The documents of the collection, in insertion order. */
    var docs: seq<Document>

    /** Opens the repository on a collection that already holds `existing`. */
    constructor (existing: seq<Document>)
      ensures docs == existing
    {
      docs := existing;
    }

    /** Inserts the document written for `p`, without any check for an
        existing document with the same article number. */
    method Save(p: Product)
      modifies this
      ensures docs == old(docs) + [ProductToDocument(p)]
      ensures CountWithKey(docs, p.articleNumber) == old(CountWithKey(docs, p.articleNumber)) + 1
      ensures ExistsByArticleNumber(p.articleNumber)
      ensures !old(ExistsByArticleNumber(p.articleNumber)) ==>
        FindByArticleNumber(p.articleNumber) == if IsKnown(p) then Some(p) else None
      ensures old(ExistsByArticleNumber(p.articleNumber)) ==>
        FindByArticleNumber(p.articleNumber) == old(FindByArticleNumber(p.articleNumber))
      ensures forall k | k != p.articleNumber ::
        FindByArticleNumber(k) == old(FindByArticleNumber(k)) &&
        ExistsByArticleNumber(k) == old(ExistsByArticleNumber(k))
      ensures DecodeAll(docs) == old(DecodeAll(docs)) + if IsKnown(p) then [p] else []
    {
      var doc := ProductToDocument(p);
      ghost var before := docs;
      docs := docs + [doc];
      CountAfterAppend(before, doc, p.articleNumber);
      FirstIndexAfterAppend(before, doc, p.articleNumber);
      assert docs[|before|] == doc;
      RoundTrip(p);
      forall k | k != p.articleNumber
        ensures FirstIndexWithKey(docs, k) == FirstIndexWithKey(before, k)
        ensures CountWithKey(docs, k) == CountWithKey(before, k)
      {
        FirstIndexAfterAppend(before, doc, k);
        CountAfterAppend(before, doc, k);
      }
      DecodeAllAppend(before, doc);
    }

    /** Scans the whole collection and collects the readings of the
        documents with a known tag. */
    method FindAll() returns (products: seq<Product>)
      ensures products == DecodeAll(docs)
    {
      products := [];
      for i := 0 to |docs|
        invariant products == DecodeAll(docs[..i])
      {
        var product := DocumentToProduct(docs[i]);
        if product.Some? {
          products := products + [product.value];
        }
        assert docs[..i + 1] == docs[..i] + [docs[i]];
        DecodeAllAppend(docs[..i], docs[i]);
      }
      assert docs[..|docs|] == docs;
    }

    /** Looks up the first document with article number `k` and reads it
        back: nothing when no document has that key, and also nothing when
        the first one that has it carries an unknown tag. */
    function FindByArticleNumber(k: string): (r: Option<Product>)
      reads this
      ensures !HasKey(docs, k) ==> r == None
      ensures forall i | IsFirstWithKey(docs, k, i) :: r == DocumentToProduct(docs[i])
      ensures r.Some? ==> ExistsByArticleNumber(k)
    {
      match FirstIndexWithKey(docs, k)
      case None => None
      case Some(i) =>
        assert forall j | IsFirstWithKey(docs, k, j) :: j == i by {
          forall j | IsFirstWithKey(docs, k, j) ensures j == i {
            FirstWithKeyUnique(docs, k, i, j);
          }
        }
        DocumentToProduct(docs[i])
    }

    /** Whether some document has article number `k`, whatever its tag:
        the count of documents with that key is positive. */
    function ExistsByArticleNumber(k: string): (b: bool)
      reads this
      ensures b <==> HasKey(docs, k)
    {
      CountWithKey(docs, k) > 0
    }
  }
}
