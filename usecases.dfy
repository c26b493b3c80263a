/**
 * The application use cases: create, get by id, update, soft delete and list
 * (whole and paged). Each one orchestrates the repository, the Product
 * invariants and the response mapper; an exception becomes a Failure.
 */
module UseCases {
  import opened Common
  import opened Domain
  import opened JpaStore
  import opened Pagination
  import opened Mapper
  import opened Repository

  /** The resource name ResourceNotFoundException is raised with. */
  const ProductResource := "Product"

  /** CreateProductRequest and UpdateProductRequest: the four client-supplied
      fields, each possibly null. */
  datatype ProductRequest = ProductRequest(
    name: Option<string>,
    description: Option<string>,
    price: Option<real>,
    stockQuantity: Option<int>)

  /** The message the Product invariants reject a request with, if any. */
  function RequestError(request: ProductRequest): (r: Option<string>)
  {
    Validate(request.name, request.description, request.price, request.stockQuantity)
  }

  /** The row a created product is stored as. */
  function CreatedRow(id: Uuid, request: ProductRequest): (d: ProductData)
  {
    ProductData(id, request.name, request.description, request.price, request.stockQuantity, true)
  }

  /** A stored row with the request's four fields written over it. */
  function UpdatedRow(d: ProductData, request: ProductRequest): (r: ProductData)
  {
    d.(name := request.name, description := request.description,
       price := request.price, stockQuantity := request.stockQuantity)
  }

  /** The response that echoes a request under an id. */
  function RequestResponse(id: Uuid, request: ProductRequest): (r: ProductResponse)
  {
    ProductResponse(id, request.name, request.description, request.price, request.stockQuantity)
  }

  // ---------------------------------------------------------------------------
  // The read-only use cases as functions of the table.

  /** GetProductByIdUseCase.execute over a table: the projection of the active
      row under id, not-found for an absent or deactivated id. */
  function GetProduct(rows: Table, id: Uuid): (r: Result<ProductResponse, Error>)
    ensures r.Success? <==> id in rows && rows[id].active && ValidData(rows[id])
    ensures !(id in rows && rows[id].active) ==> r == Failure(ResourceNotFound(ProductResource, id))
    ensures id in rows && rows[id].active && !ValidData(rows[id]) ==>
      r == Failure(IllegalArgument(Validate(rows[id].name, rows[id].description, rows[id].price, rows[id].stockQuantity).value))
    ensures r.Success? ==> r.value == ResponseOf(rows[id])
  {
    if !(id in rows && rows[id].active) then Failure(ResourceNotFound(ProductResource, id))
    else if !ValidData(rows[id]) then
      Failure(IllegalArgument(Validate(rows[id].name, rows[id].description, rows[id].price, rows[id].stockQuantity).value))
    else Success(ResponseOf(rows[id]))
  }

  /** ListProductsUseCase.execute() over a table: the projections of the
      active rows in scan order. */
  function ListAll(order: seq<Uuid>, rows: Table): (r: Result<seq<ProductResponse>, Error>)
    ensures r.Success? <==> AllValid(ActiveIn(order, rows))
    ensures r.Failure? ==> r.error == IllegalArgument(FirstFailure(ActiveIn(order, rows)).value)
    ensures r.Success? ==> r.value == ResponsesOf(ActiveIn(order, rows))
  {
    if FirstFailure(ActiveIn(order, rows)).Some? then
      Failure(IllegalArgument(FirstFailure(ActiveIn(order, rows)).value))
    else
      Success(ResponsesOf(ActiveIn(order, rows)))
  }

  /** Over a table of valid rows stored under their ids the listing
      succeeds. */
  lemma ListAllSucceeds(order: seq<Uuid>, rows: Table)
    requires KeysMatch(rows) && RowsValid(rows)
    ensures ListAll(order, rows).Success?
  {
    ActiveInValid(order, rows);
  }

  /** The active rows on page page of size size. */
  function ActivePage(order: seq<Uuid>, rows: Table, page: nat, size: nat): (r: seq<ProductData>)
  {
    PageSlice(ActiveIn(order, rows), page, size)
  }

  /** ListProductsUseCase.execute(page, size) over a table: PageRequest's
      argument checks, then the page's projections with the metadata
      PageResponse.of recomputes from the active count. */
  function ListPage(order: seq<Uuid>, rows: Table, page: int, size: int): (r: Result<PageResponse<ProductResponse>, Error>)
    ensures page < 0 ==> r == Failure(IllegalArgument(PageIndexMessage))
    ensures page >= 0 && size < 1 ==> r == Failure(IllegalArgument(PageSizeMessage))
    ensures page >= 0 && size >= 1 ==>
      (r.Success? <==> AllValid(ActivePage(order, rows, page, size)))
    ensures page >= 0 && size >= 1 && r.Failure? ==>
      r.error == IllegalArgument(FirstFailure(ActivePage(order, rows, page, size)).value)
    ensures r.Success? ==>
      && page >= 0 && size >= 1
      && r.value.content == ResponsesOf(ActivePage(order, rows, page, size))
      && r.value.page == page && r.value.size == size
      && r.value.totalElements == |ActiveIn(order, rows)|
      && r.value.totalPages == CeilDiv(|ActiveIn(order, rows)|, size)
      && r.value.first == (page == 0)
      && r.value.last == (page + 1 >= r.value.totalPages)
  {
    if page < 0 then Failure(IllegalArgument(PageIndexMessage))
    else if size < 1 then Failure(IllegalArgument(PageSizeMessage))
    else if FirstFailure(ActivePage(order, rows, page, size)).Some? then
      Failure(IllegalArgument(FirstFailure(ActivePage(order, rows, page, size)).value))
    else
      Success(Of(ResponsesOf(ActivePage(order, rows, page, size)), page, size, |ActiveIn(order, rows)|))
  }

  // ---------------------------------------------------------------------------
  // How the writing use cases change what the reading ones see.

  /** A created product can be read back under its id with the request's
      fields. */
  lemma GetAfterCreate(rows: Table, id: Uuid, request: ProductRequest)
    requires RequestError(request) == None
    ensures GetProduct(rows[id := CreatedRow(id, request)], id) == Success(RequestResponse(id, request))
  {
  }

  /** An updated product is read back with the request's fields and its id. */
  lemma GetAfterUpdate(rows: Table, id: Uuid, request: ProductRequest)
    requires KeysMatch(rows) && id in rows && rows[id].active && RequestError(request) == None
    ensures GetProduct(rows[id := UpdatedRow(rows[id], request)], id) == Success(RequestResponse(id, request))
  {
  }

  /** After a delete the id is not found, and every other id reads as before. */
  lemma GetAfterDelete(rows: Table, id: Uuid)
    ensures GetProduct(Deactivated(rows, id), id) == Failure(ResourceNotFound(ProductResource, id))
    ensures forall k :: k != id ==> GetProduct(Deactivated(rows, id), k) == GetProduct(rows, k)
  {
  }

  /** A product created under a new id is appended to the listing. */
  lemma {:induction false} ListAfterCreate(order: seq<Uuid>, rows: Table, id: Uuid, request: ProductRequest)
    requires id !in order && RequestError(request) == None
    requires ListAll(order, rows).Success?
    ensures ListAll(order + [id], rows[id := CreatedRow(id, request)]).Success?
    ensures ListAll(order + [id], rows[id := CreatedRow(id, request)]).value
         == ListAll(order, rows).value + [RequestResponse(id, request)]
  {
    var d := CreatedRow(id, request);
    ActiveInInsert(order, rows, d);
    var before := ActiveIn(order, rows);
    var after := before + [d];
    assert forall i :: 0 <= i < |before| ==> after[i] == before[i];
    assert ResponsesOf(after) == ResponsesOf(before) + [ResponseOf(d)];
  }

  /** A delete drops exactly the rows with that id from the listing. */
  lemma ListAfterDelete(order: seq<Uuid>, rows: Table, id: Uuid)
    requires KeysMatch(rows) && RowsValid(rows)
    ensures ListAll(order, Deactivated(rows, id)).Success?
    ensures ListAll(order, Deactivated(rows, id)).value == ResponsesOf(Without(ActiveIn(order, rows), id))
  {
    var after := Deactivated(rows, id);
    assert KeysMatch(after) && RowsValid(after) by {
      forall k | k in after
        ensures after[k].id == k && ValidData(after[k])
      {
        assert k in rows;
      }
    }
    ListAllSucceeds(order, after);
    ActiveInDeactivated(order, rows, id);
  }

  /** Over a table of valid rows, every page request with acceptable
      arguments succeeds. */
  lemma ListPageSucceeds(order: seq<Uuid>, rows: Table, page: nat, size: int)
    requires KeysMatch(rows) && RowsValid(rows) && size >= 1
    ensures ListPage(order, rows, page, size).Success?
    ensures ListPage(order, rows, page, size).value.content == ResponsesOf(ActivePage(order, rows, page, size))
  {
    var all := ActiveIn(order, rows);
    ActiveInValid(order, rows);
    PageSliceWithin(all, page, size);
    var slice := PageSlice(all, page, size);
    assert forall i :: 0 <= i < |slice| ==> slice[i] in all;
  }

  /** Active row page * size + pos of the listing is item pos of that page. */
  lemma PageHoldsRow(order: seq<Uuid>, rows: Table, page: nat, size: int, pos: nat)
    requires KeysMatch(rows) && RowsValid(rows)
    requires pos < size && page * size + pos < |ActiveIn(order, rows)|
    ensures ListPage(order, rows, page, size).Success?
    ensures pos < |ListPage(order, rows, page, size).value.content|
    ensures ListPage(order, rows, page, size).value.content[pos] == ResponseOf(ActiveIn(order, rows)[page * size + pos])
  {
    ListPageSucceeds(order, rows, page, size);
    var all := ActiveIn(order, rows);
    var slice := PageSlice(all, page, size);
    PageSliceItem(all, page, size, pos);
    assert ResponsesOf(slice)[pos] == ResponseOf(slice[pos]);
  }

  // ---------------------------------------------------------------------------
  // The use case services.

  class CreateProductUseCase {
    const repository: ProductRepositoryImpl

    constructor (repository: ProductRepositoryImpl)
      ensures this.repository == repository
    {
      this.repository := repository;
    }

    /** execute(request): builds a product under the generated id (the
        UUID.randomUUID the id-less constructor draws), saves it and returns
        its projection. An invalid request fails before anything is saved. */
    method Execute(request: ProductRequest, generatedId: Uuid) returns (r: Result<ProductResponse, Error>)
      requires repository.jpa.Valid()
      modifies repository.jpa
      ensures repository.jpa.Valid()
      ensures RequestError(request) != None ==>
        && r == Failure(IllegalArgument(RequestError(request).value))
        && unchanged(repository.jpa)
      ensures RequestError(request) == None ==>
        && r == Success(RequestResponse(generatedId, request))
        && repository.jpa.rows == old(repository.jpa.rows)[generatedId := CreatedRow(generatedId, request)]
        && repository.jpa.order == if generatedId in old(repository.jpa.rows) then old(repository.jpa.order)
                                   else old(repository.jpa.order) + [generatedId]
      ensures RowsValid(old(repository.jpa.rows)) ==> RowsValid(repository.jpa.rows)
    {
      var product := Product.NewWithGeneratedId(generatedId, request.name, request.description,
                                                request.price, request.stockQuantity);
      if product.Failure? {
        return Failure(product.error);
      }
      var saved := repository.Save(product.value);
      assert saved.Success?;
      r := Success(ToResponse(saved.value).value);
    }
  }

  class GetProductByIdUseCase {
    const repository: ProductRepositoryImpl

    constructor (repository: ProductRepositoryImpl)
      ensures this.repository == repository
    {
      this.repository := repository;
    }

    /** execute(id): the projection of the active product, or not-found. */
    method Execute(id: Uuid) returns (r: Result<ProductResponse, Error>)
      requires repository.jpa.Valid()
      ensures r == GetProduct(repository.jpa.rows, id)
    {
      var found := repository.FindById(id);
      if found.Failure? {
        return Failure(found.error);
      }
      if found.value.None? {
        return Failure(ResourceNotFound(ProductResource, id));
      }
      r := Success(ToResponse(found.value.value).value);
    }
  }

  class UpdateProductUseCase {
    const repository: ProductRepositoryImpl

    constructor (repository: ProductRepositoryImpl)
      ensures this.repository == repository
    {
      this.repository := repository;
    }

    /** execute(id, request): loads the active product, overwrites its four
        fields, saves it and returns its projection. A failed lookup or an
        invalid request leaves the table as it was. */
    method Execute(id: Uuid, request: ProductRequest) returns (r: Result<ProductResponse, Error>)
      requires repository.jpa.Valid()
      modifies repository.jpa
      ensures repository.jpa.Valid() && repository.jpa.order == old(repository.jpa.order)
      ensures GetProduct(old(repository.jpa.rows), id).Failure? ==>
        && r == Failure(GetProduct(old(repository.jpa.rows), id).error)
        && unchanged(repository.jpa)
      ensures GetProduct(old(repository.jpa.rows), id).Success? && RequestError(request) != None ==>
        && r == Failure(IllegalArgument(RequestError(request).value))
        && unchanged(repository.jpa)
      ensures GetProduct(old(repository.jpa.rows), id).Success? && RequestError(request) == None ==>
        && r == Success(RequestResponse(id, request))
        && repository.jpa.rows == old(repository.jpa.rows)[id := UpdatedRow(old(repository.jpa.rows)[id], request)]
      ensures RowsValid(old(repository.jpa.rows)) ==> RowsValid(repository.jpa.rows)
    {
      var found := repository.FindById(id);
      if found.Failure? {
        return Failure(found.error);
      }
      if found.value.None? {
        return Failure(ResourceNotFound(ProductResource, id));
      }
      var product := found.value.value;
      var failure := product.Update(request.name, request.description, request.price, request.stockQuantity);
      if failure.Some? {
        return Failure(failure.value);
      }
      var saved := repository.Save(product);
      assert saved.Success?;
      r := Success(ToResponse(saved.value).value);
    }
  }

  class DeleteProductUseCase {
    const repository: ProductRepositoryImpl

    constructor (repository: ProductRepositoryImpl)
      ensures this.repository == repository
    {
      this.repository := repository;
    }

    /** execute(id): not-found unless the id is stored and active; otherwise
        the row is deactivated, which drops it from every active query. */
    method Execute(id: Uuid) returns (r: Outcome<Error>)
      requires repository.jpa.Valid()
      modifies repository.jpa
      ensures repository.jpa.Valid() && repository.jpa.order == old(repository.jpa.order)
      ensures !(id in old(repository.jpa.rows) && old(repository.jpa.rows)[id].active) ==>
        && r == Fail(ResourceNotFound(ProductResource, id))
        && unchanged(repository.jpa)
      ensures id in old(repository.jpa.rows) && old(repository.jpa.rows)[id].active ==>
        && r == Pass
        && repository.jpa.rows == Deactivated(old(repository.jpa.rows), id)
      ensures repository.jpa.ActiveRows() == Without(old(repository.jpa.ActiveRows()), id)
      ensures RowsValid(old(repository.jpa.rows)) ==> RowsValid(repository.jpa.rows)
    {
      ghost var order0, rows0 := repository.jpa.order, repository.jpa.rows;
      ActiveInDeactivated(order0, rows0, id);
      var present := repository.ExistsByIdAndActive(id);
      if !present {
        assert Deactivated(rows0, id) == rows0;
        return Fail(ResourceNotFound(ProductResource, id));
      }
      repository.DeactivateById(id);
      r := Pass;
    }
  }

  class ListProductsUseCase {
    const repository: ProductRepositoryImpl

    constructor (repository: ProductRepositoryImpl)
      ensures this.repository == repository
    {
      this.repository := repository;
    }

    /** execute(): every active product, projected, in scan order. */
    method Execute() returns (r: Result<seq<ProductResponse>, Error>)
      requires repository.jpa.Valid()
      ensures r == ListAll(repository.jpa.order, repository.jpa.rows)
    {
      var products := repository.FindAll();
      if products.Failure? {
        return Failure(products.error);
      }
      var content := ToResponseList(Some(products.value));
      assert content == ResponsesOf(repository.jpa.ActiveRows());
      r := Success(content);
    }

    /** execute(page, size): one page of projections with the metadata
        PageResponse.of derives from the repository's total count. */
    method ExecutePaged(page: int, size: int) returns (r: Result<PageResponse<ProductResponse>, Error>)
      requires repository.jpa.Valid()
      ensures r == ListPage(repository.jpa.order, repository.jpa.rows, page, size)
    {
      var pageResult := repository.FindAllPage(page, size);
      if pageResult.Failure? {
        return Failure(pageResult.error);
      }
      var content := ToResponseList(Some(pageResult.value.content));
      assert content == ResponsesOf(PageSlice(repository.jpa.ActiveRows(), page, size));
      r := Success(Of(content, page, size, pageResult.value.totalElements));
    }
  }

  /** A product's life through the services: created, updated, deleted, then
      neither found nor deletable a second time. */
  method Lifecycle(id: Uuid, created: ProductRequest, changes: ProductRequest)
    returns (c: Result<ProductResponse, Error>, u: Result<ProductResponse, Error>,
             d1: Outcome<Error>, g: Result<ProductResponse, Error>, d2: Outcome<Error>)
    requires RequestError(created) == None && RequestError(changes) == None
    ensures c == Success(RequestResponse(id, created))
    ensures u == Success(RequestResponse(id, changes))
    ensures d1 == Pass
    ensures g == Failure(ResourceNotFound(ProductResource, id))
    ensures d2 == Fail(ResourceNotFound(ProductResource, id))
  {
    var jpa := new JpaProductRepository();
    var repository := new ProductRepositoryImpl(jpa);
    var create := new CreateProductUseCase(repository);
    var update := new UpdateProductUseCase(repository);
    var delete := new DeleteProductUseCase(repository);
    var get := new GetProductByIdUseCase(repository);
    c := create.Execute(created, id);
    u := update.Execute(id, changes);
    d1 := delete.Execute(id);
    g := get.Execute(id);
    d2 := delete.Execute(id);
  }
}
