/**
 * ProductMapper: the projection of domain products onto ProductResponse.
 */
module Mapper {
  import opened Common
  import opened Domain

  /** The response record: a product without its soft-delete flag. */
  datatype ProductResponse = ProductResponse(
    id: Uuid,
    name: Option<string>,
    description: Option<string>,
    price: Option<real>,
    stockQuantity: Option<int>)

  /** The response a product in state d projects to. */
  function ResponseOf(d: ProductData): (r: ProductResponse)
  {
    ProductResponse(d.id, d.name, d.description, d.price, d.stockQuantity)
  }

  /** ProductMapper.toResponse: null gives null; otherwise the five fields are
      copied unchanged. */
  function ToResponse(product: Product?): (r: Option<ProductResponse>)
    reads product
    ensures product == null <==> r == None
    ensures product != null ==>
      && r.value.id == product.id
      && r.value.name == product.name
      && r.value.description == product.description
      && r.value.price == product.price
      && r.value.stockQuantity == product.stockQuantity
  {
    if product == null then None else Some(ResponseOf(product.Data()))
  }

  /** ProductMapper.toResponseList: a null list gives an empty list; otherwise
      element i of the result is the projection of element i of the input. */
  function ToResponseList(products: Option<seq<Product>>): (r: seq<ProductResponse>)
    reads if products.Some? then products.value else []
    ensures products == None ==> r == []
    ensures products.Some? ==> |r| == |products.value|
    ensures products.Some? ==> forall i :: 0 <= i < |r| ==> ToResponse(products.value[i]) == Some(r[i])
  {
    if products.None? then [] else ResponseList(products.value)
  }

  /** The stream map behind toResponseList. */
  function ResponseList(products: seq<Product>): (r: seq<ProductResponse>)
    reads products
    ensures |r| == |products|
    ensures forall i :: 0 <= i < |r| ==> r[i] == ResponseOf(products[i].Data())
  {
    if products == [] then []
    else [ResponseOf(products[0].Data())] + ResponseList(products[1..])
  }

  /** The responses of a sequence of product states, element by element. */
  function ResponsesOf(ds: seq<ProductData>): (r: seq<ProductResponse>)
    ensures |r| == |ds|
    ensures forall i :: 0 <= i < |ds| ==> r[i] == ResponseOf(ds[i])
  {
    seq(|ds|, i requires 0 <= i < |ds| => ResponseOf(ds[i]))
  }
}
