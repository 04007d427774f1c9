# Webshop product repository, modelled in Dafny

This project models the product repository of a small webshop. The repository stores
products in a document store and reads them back. It has two parts:

- a mapping from products to flat documents and back;
- four operations over one collection of such documents: save, find all,
  find by article number and exists by article number.

A product is electronics, furniture or clothing. Each kind carries the same four fields:
article number, title, price and description. A document holds those four fields plus a
string tag that names the kind. When a document is read back, the code switches on that
tag. A tag it does not recognise gives no product. There is also a fourth product
variant, `Other`. It stands for any other subclass of `Product`. Such a product is written
with the tag `"unknown"`, so it can never be read back.

Files:

- `wrappers.dfy` (module `Wrappers`): `Option`, which stands for both `Optional` and a
  nullable reference.
- `model.dfy` (module `Model`): the `Product` datatype, `IsKnown`, `SameKind`, and
  `KnownOnly` (the known products of a sequence, in order).
- `repository.dfy` (module `Repository`): the following pieces.
  - `Document`.
  - The mapping functions `ProductType`, `ProductToDocument` and `DocumentToProduct`.
  - The store primitives the repository calls: first match by key (`FirstIndexWithKey`)
    and count by key (`CountWithKey`).
  - The scan result `DecodeAll`.
  - The class `ProductRepository`, whose field `docs` is the collection.

Modelling assumptions:

- The collection is modelled as the sequence of its documents in insertion order. That
  sequence is also the order that a full scan and a "first match" use. This is an
  assumption about the store, not something proved about it.
- The constructor takes the documents already in the collection as a parameter. The real
  code gets them from the database server it connects to.
- Every document has all five fields. The field the store calls `type` is named
  `typeTag` here, because `type` is a Dafny keyword.
- `Price` is an `int` stand-in for the Java `double`. Prices are only ever copied.

## Model

| member | source | states |
|---|---|---|
| Repository.ProductType | src/main/java/se/iths/fabian/webshop/repository/ProductRepository.java:95-102 | the tag is one of "electronics", "furniture", "clothing" exactly when the product is of a known kind; any other product gets "unknown" |
| Repository.ProductTypeSeparatesKinds | src/main/java/se/iths/fabian/webshop/repository/ProductRepository.java:95-102 | two products get the same tag if and only if they are of the same kind, so the three known tags are distinct |
| Repository.ProductToDocument | src/main/java/se/iths/fabian/webshop/repository/ProductRepository.java:70-78 | the document is filed under the product's article number and has a readable tag exactly when the product's kind is known; the document carries the product's tag and its four fields unchanged, which its partners RoundTrip, UnknownNeverReadsBack and ProductToDocumentInjective state and prove |
| Repository.DocumentToProduct | src/main/java/se/iths/fabian/webshop/repository/ProductRepository.java:80-93 | a document reads back to a product exactly when its tag is one of the three known tags; that product is of a known kind, and writing it gives back this very document |
| Repository.RoundTrip | src/main/java/se/iths/fabian/webshop/repository/ProductRepository.java:70-93 | writing a product and reading it back gives the same product (same kind, article number, title, price and description) when its kind is known, and nothing otherwise |
| Repository.UnknownNeverReadsBack | src/main/java/se/iths/fabian/webshop/repository/ProductRepository.java:87-100 | a product of no known kind is written with the tag "unknown", and that document never reads back |
| Repository.ProductToDocumentInjective | src/main/java/se/iths/fabian/webshop/repository/ProductRepository.java:70-78 | different products are always written as different documents |
| Repository.FirstIndexWithKey | src/main/java/se/iths/fabian/webshop/repository/ProductRepository.java:51 | gives no position exactly when no document has the key; otherwise gives the position of the first document with that key |
| Repository.FirstWithKeyUnique | src/main/java/se/iths/fabian/webshop/repository/ProductRepository.java:51 | the first document with a given key is unique, so the lookup reads one document even when there are duplicates |
| Repository.CountWithKey | src/main/java/se/iths/fabian/webshop/repository/ProductRepository.java:62 | the number of documents with the key is at most the size of the collection, and it is positive exactly when some document has the key |
| Repository.DecodeAll | src/main/java/se/iths/fabian/webshop/repository/ProductRepository.java:37-48 | a scan yields at most as many products as there are documents, and every product it yields is of a known kind |
| Repository.DecodeAllConcat | src/main/java/se/iths/fabian/webshop/repository/ProductRepository.java:40-45 | a scan keeps collection order: the scan of two stretches of documents is the scan of the first followed by the scan of the second |
| Repository.DecodeAllMembers | src/main/java/se/iths/fabian/webshop/repository/ProductRepository.java:40-45 | a product is in the scan if and only if some document of the collection reads back as that product |
| Repository.DecodeAllComplete | src/main/java/se/iths/fabian/webshop/repository/ProductRepository.java:40-45 | the scan has as many products as the collection has documents if and only if every document's tag is known; documents with other tags are skipped |
| Repository.DecodeAllOfEncoded | src/main/java/se/iths/fabian/webshop/repository/ProductRepository.java:31-48 | scanning the documents written for a sequence of products gives exactly the products of a known kind, in their original order |
| Repository.DecodeAllAppend | src/main/java/se/iths/fabian/webshop/repository/ProductRepository.java:31-48 | appending one document adds its reading, if it has one, to the end of the scan |
| Repository.FirstIndexAfterAppend | src/main/java/se/iths/fabian/webshop/repository/ProductRepository.java:31-33 | after an insert, the first match for a key is the old first match if there was one; otherwise it is the new document if that document has the key; otherwise there is none |
| Repository.CountAfterAppend | src/main/java/se/iths/fabian/webshop/repository/ProductRepository.java:31-33 | an insert raises the count for the new document's key by one and leaves every other key's count unchanged; duplicates are never refused |
| Repository.DuplicateInserts | src/main/java/se/iths/fabian/webshop/repository/ProductRepository.java:31-62 | inserting two documents with one article number keeps both (the count for the key grows by two); when the key was new, the lookup finds the first of the two |
| Repository.DuplicateSaves | src/main/java/se/iths/fabian/webshop/repository/ProductRepository.java:31-62 | saving two products with one article number stores both documents, whatever their kinds: the count for the key grows by two, and when the key was new, the lookup finds the first of the two |
| Repository.EmptyCollection | src/main/java/se/iths/fabian/webshop/repository/ProductRepository.java:37-62 | on an empty collection no key exists, every count is zero, every lookup finds nothing and a scan yields nothing |
| Repository.ProductRepository.constructor | src/main/java/se/iths/fabian/webshop/repository/ProductRepository.java:24-29 | the repository starts on the documents already in the collection |
| Repository.ProductRepository.Save | src/main/java/se/iths/fabian/webshop/repository/ProductRepository.java:31-35 | appends exactly the document written for the product and leaves the earlier documents as they were; the key's count grows by one; the key then exists; a new key of a known kind then finds the product itself, and an existing key keeps its earlier lookup result; other keys are unaffected; find-all gains the product at the end when its kind is known |
| Repository.ProductRepository.FindAll | src/main/java/se/iths/fabian/webshop/repository/ProductRepository.java:37-48 | the loop returns exactly the scan of the current documents (see DecodeAll and the lemmas about it) |
| Repository.ProductRepository.FindByArticleNumber | src/main/java/se/iths/fabian/webshop/repository/ProductRepository.java:50-59 | nothing when no document has the key; otherwise the reading of the first document with the key, which is also nothing when that document's tag is unknown; a product found means the key exists |
| Repository.ProductRepository.ExistsByArticleNumber | src/main/java/se/iths/fabian/webshop/repository/ProductRepository.java:61-62 | true if and only if some document has the article number, whatever its tag |

## Left out

- Connecting to the database server and choosing the database and collection
  (ProductRepository.java:24-27). This is connection setup inside a client library that is
  not modelled. The collection's starting content is a parameter of the constructor.
- `close` (ProductRepository.java:104-109). It only releases the library's connection.
- `saveToFile` (ProductRepository.java:65-68). It only prints the number of documents,
  which is `|docs|` in the model.
- All console logging (ProductRepository.java:28, 34, 67, 107). Printing has no behaviour
  to verify.
- Documents with missing or wrongly typed fields, and null products, fields or keys.
  - In Java, a document with no `type` field, or with a non-string `type`, makes
    `documentToProduct` throw (ProductRepository.java:81, 87). A null `type` gives a
    `NullPointerException` in the switch; a non-string value gives a `ClassCastException`
    from `getString`.
  - A missing `price` throws a `NullPointerException` when it is unboxed. A price stored as
    an integer or any other non-double throws a `ClassCastException` from `getDouble`
    (ProductRepository.java:84).
  - A non-string `articleNumber`, `title` or `description` throws a `ClassCastException`
    from `getString` (ProductRepository.java:82-83, 85). Missing string fields give a
    product with `null` fields.
  - One such document makes the whole of `findAll` throw (ProductRepository.java:40-45). It
    makes `findByArticleNumber` throw when it is the first match (ProductRepository.java:57).
  - `save(null)` throws a `NullPointerException` in the type switch
    (ProductRepository.java:72, 96). A product with a `null` field is stored with a `null`
    value.
  - `eq("articleNumber", null)` also matches documents whose `articleNumber` is null or
    missing (ProductRepository.java:51, 62).
  - In the model, every `Document` field is present and well typed, so a scan or a lookup
    always succeeds. Products, strings and keys are never null, and none of these
    exceptions is modelled.
- Which unrecognised class a product had. The one variant `Other` stands for every subclass
  of `Product` other than the three known ones. In Java, two products of different
  unrecognised classes with equal fields are written as the same document. The model
  cannot tell such classes apart, and ProductToDocumentInjective holds for two `Other`
  products only because of this. The repository contains no such subclass.
- Floating-point prices. The price is only copied, so it is an `int` stand-in, and NaN
  equality is not modelled.
- The store's real iteration order, concurrency, network failures and cursor semantics.
  The collection is a sequence in insertion order, read and written one call at a time.
