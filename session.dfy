/** `Session.load_collection` (cgls_land.py:55-123) without its network calls:
    the list of product names and the text of the product's manifest are
    parameters. */
module Session {
  import opened Wrappers
  import opened Text
  import opened Manifest
  import opened Catalog

  datatype LoadError =
    | UnknownProduct          // 'Product not in the list'
    | BadLine(ParseError)     // a manifest line aborts the table

  /** `products.str.contains(product_name, regex=False).any()`: the name occurs
      inside some listed product, not necessarily as the whole of it. */
  predicate Listed(products: seq<string>, productName: string)
  {
    exists i :: 0 <= i < |products| && Contains(products[i], productName)
  }

  /** The collection of a product: refused when the name occurs in no listed
      product; otherwise the table of its manifest, or the error of the first
      manifest line that fails. */
  method LoadCollection(products: seq<string>, productName: string, manifest: string)
    returns (r: Result<Collection, LoadError>)
    ensures !Listed(products, productName) ==> r == Err(UnknownProduct)
    ensures Listed(products, productName) ==> (r.Ok? <==> ParseAll(Lines(manifest)).Ok?)
    ensures Listed(products, productName) && r.Err? ==> r.error == BadLine(ParseAll(Lines(manifest)).error)
    ensures r.Ok? ==> fresh(r.value) && r.value.Valid()
    ensures r.Ok? ==> r.value.name == productName && r.value.table == Table(ParseAll(Lines(manifest)).value)
    ensures r.Ok? ==> (r.value.rtColumn <==> exists i :: 0 <= i < |r.value.table| && r.value.table[i].rt.Some?)
    ensures r.Ok? ==> !r.value.dateIndexed && r.value.startDate.None? && r.value.endDate.None? && r.value.path.None?
    ensures r.Ok? ==> r.value.sensors.None? && r.value.algVersionList.None? && r.value.rt.None?
  {
    if !Listed(products, productName) {
      return Err(UnknownProduct);
    }
    var built := BuildTable(manifest);
    match built
    case Err(e) =>
      r := Err(BadLine(e));
    case Ok(table) =>
      TableSorted(ParseAll(Lines(manifest)).value);
      var c := new Collection(productName, table);
      r := Ok(c);
  }
}
