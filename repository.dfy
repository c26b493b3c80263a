/**
 * ProductRepositoryImpl: maps between Product and ProductEntity and delegates
 * to the JPA store.
 */
module Repository {
  import opened Common
  import opened Domain
  import opened Entity
  import opened JpaStore
  import opened Pagination

  /** PageRequest.of rejects a negative page index and a size below one. */
  const PageIndexMessage := "Page index must not be less than zero"
  const PageSizeMessage := "Page size must not be less than one"

  /** The index of the first row that fails the Product invariants, or the
      length when every row passes. */
  function FirstInvalid(rows: seq<ProductData>): (k: nat)
    ensures k <= |rows|
    ensures forall j :: 0 <= j < k ==> ValidData(rows[j])
    ensures k < |rows| ==> !ValidData(rows[k])
  {
    if rows == [] || !ValidData(rows[0]) then 0
    else
      assert forall j :: 1 <= j < |rows| ==> rows[j] == rows[1..][j - 1];
      1 + FirstInvalid(rows[1..])
  }

  /** The first failing row is the only row that fails after a run of rows
      that all pass. */
  lemma FirstInvalidUnique(rows: seq<ProductData>, i: nat)
    requires i < |rows| && !ValidData(rows[i])
    requires forall j :: 0 <= j < i ==> ValidData(rows[j])
    ensures FirstInvalid(rows) == i
  {
  }

  /** The message the stream map of toDomain over the rows fails with: that
      of the first failing row; None when every row passes. */
  function FirstFailure(rows: seq<ProductData>): (r: Option<string>)
    ensures r == None <==> AllValid(rows)
    ensures r != None ==>
      r == Validate(rows[FirstInvalid(rows)].name, rows[FirstInvalid(rows)].description,
                    rows[FirstInvalid(rows)].price, rows[FirstInvalid(rows)].stockQuantity)
  {
    var k := FirstInvalid(rows);
    if k < |rows| then Validate(rows[k].name, rows[k].description, rows[k].price, rows[k].stockQuantity)
    else None
  }

  class ProductRepositoryImpl {
    const jpa: JpaProductRepository

    constructor (jpa: JpaProductRepository)
      ensures this.jpa == jpa
    {
      this.jpa := jpa;
    }

    /** toEntity: a new entity holding the product's six fields. */
    method ToEntity(product: Product) returns (entity: ProductEntity)
      ensures fresh(entity) && entity.Data() == product.Data()
    {
      entity := new ProductEntity(product.id, product.name, product.description,
                                  product.price, product.stockQuantity, Some(product.active));
    }

    /** toDomain: a new product rebuilt from a stored row through the
        validating six-argument constructor. */
    method ToDomain(row: ProductData) returns (r: Result<Product, Error>)
      ensures r.Success? <==> ValidData(row)
      ensures r.Failure? ==> r.error == IllegalArgument(Validate(row.name, row.description, row.price, row.stockQuantity).value)
      ensures r.Success? ==> fresh(r.value) && r.value.Data() == row
    {
      r := Product.Restore(row.id, row.name, row.description, row.price, row.stockQuantity, Some(row.active));
    }

    /** The stream map of toDomain over a list of rows; the first row that
        fails validation stops it. */
    method ToDomainAll(rows: seq<ProductData>) returns (r: Result<seq<Product>, Error>)
      ensures r.Success? <==> AllValid(rows)
      ensures r.Failure? ==> r.error == IllegalArgument(FirstFailure(rows).value)
      ensures r.Success? ==> |r.value| == |rows|
      ensures r.Success? ==> forall i :: 0 <= i < |rows| ==> fresh(r.value[i]) && r.value[i].Data() == rows[i]
    {
      var products: seq<Product> := [];
      var i := 0;
      while i < |rows|
        invariant 0 <= i <= |rows| && |products| == i
        invariant forall j :: 0 <= j < i ==> ValidData(rows[j])
        invariant forall j :: 0 <= j < i ==> fresh(products[j]) && products[j].Data() == rows[j]
      {
        var p := ToDomain(rows[i]);
        if p.Failure? {
          FirstInvalidUnique(rows, i);
          return Failure(p.error);
        }
        products := products + [p.value];
        i := i + 1;
      }
      return Success(products);
    }

    /** save: stores the product's row, then rebuilds the saved product. */
    method Save(product: Product) returns (r: Result<Product, Error>)
      requires jpa.Valid()
      modifies jpa
      ensures jpa.Valid()
      ensures jpa.rows == old(jpa.rows)[product.id := product.Data()]
      ensures jpa.order == if product.id in old(jpa.rows) then old(jpa.order) else old(jpa.order) + [product.id]
      ensures r.Success? <==> ValidData(product.Data())
      ensures r.Failure? ==> r.error == IllegalArgument(Validate(product.name, product.description, product.price, product.stockQuantity).value)
      ensures r.Success? ==> fresh(r.value) && r.value.Data() == product.Data()
    {
      var entity := ToEntity(product);
      var saved := jpa.Save(entity);
      r := ToDomain(saved.Data());
    }

    /** findById: the active product with that id, if any. */
    method FindById(id: Uuid) returns (r: Result<Option<Product>, Error>)
      requires jpa.Valid()
      ensures !(id in jpa.rows && jpa.rows[id].active) ==> r == Success(None)
      ensures id in jpa.rows && jpa.rows[id].active ==> (r.Success? <==> ValidData(jpa.rows[id]))
      ensures r.Success? ==> (r.value.Some? <==> id in jpa.rows && jpa.rows[id].active)
      ensures r.Failure? ==> id in jpa.rows && r.error == IllegalArgument(Validate(jpa.rows[id].name, jpa.rows[id].description, jpa.rows[id].price, jpa.rows[id].stockQuantity).value)
      ensures r.Success? && r.value.Some? ==>
        && fresh(r.value.value)
        && r.value.value.active
        && r.value.value.Data() == jpa.rows[id]
    {
      var row := jpa.FindByIdAndActive(id);
      if row.None? {
        return Success(None);
      }
      var p := ToDomain(row.value);
      if p.Failure? {
        return Failure(p.error);
      }
      return Success(Some(p.value));
    }

    /** findAll(): the active products in scan order. */
    method FindAll() returns (r: Result<seq<Product>, Error>)
      requires jpa.Valid()
      ensures r.Success? <==> AllValid(jpa.ActiveRows())
      ensures r.Failure? ==> r.error == IllegalArgument(FirstFailure(jpa.ActiveRows()).value)
      ensures r.Success? ==> |r.value| == |jpa.ActiveRows()|
      ensures r.Success? ==>
        forall i :: 0 <= i < |r.value| ==> fresh(r.value[i]) && r.value[i].Data() == jpa.ActiveRows()[i]
    {
      var rows := jpa.FindAllActive();
      assert rows == jpa.ActiveRows();
      r := ToDomainAll(rows);
    }

    /** findAll(page, size): one page of active products; the totals are
        passed through from the store's page. */
    method FindAllPage(page: int, size: int) returns (r: Result<PageResult<Product>, Error>)
      requires jpa.Valid()
      ensures page < 0 ==> r == Failure(IllegalArgument(PageIndexMessage))
      ensures page >= 0 && size < 1 ==> r == Failure(IllegalArgument(PageSizeMessage))
      ensures page >= 0 && size >= 1 ==>
        var slice := PageSlice(jpa.ActiveRows(), page, size);
        && (r.Success? <==> AllValid(slice))
        && (r.Failure? ==> r.error == IllegalArgument(FirstFailure(slice).value))
        && (r.Success? ==> |r.value.content| == |slice|)
        && (r.Success? ==> forall i :: 0 <= i < |slice| ==> fresh(r.value.content[i]) && r.value.content[i].Data() == slice[i])
        && (r.Success? ==> r.value.totalElements == |jpa.ActiveRows()|)
        && (r.Success? ==> r.value.totalPages == CeilDiv(|jpa.ActiveRows()|, size))
    {
      if page < 0 {
        return Failure(IllegalArgument(PageIndexMessage));
      }
      if size < 1 {
        return Failure(IllegalArgument(PageSizeMessage));
      }
      var pageResult := jpa.FindAllActivePage(page, size);
      var products := ToDomainAll(pageResult.content);
      if products.Failure? {
        return Failure(products.error);
      }
      return Success(PageResult(products.value, pageResult.totalElements, pageResult.totalPages));
    }

    /** deactivateById: delegates to the store. */
    method DeactivateById(id: Uuid)
      requires jpa.Valid()
      modifies jpa
      ensures jpa.Valid() && jpa.order == old(jpa.order)
      ensures jpa.rows == Deactivated(old(jpa.rows), id)
    {
      jpa.DeactivateById(id);
    }

    method ExistsById(id: Uuid) returns (present: bool)
      ensures present <==> id in jpa.rows
    {
      present := jpa.ExistsById(id);
    }

    method ExistsByIdAndActive(id: Uuid) returns (present: bool)
      requires jpa.Valid()
      ensures present <==> id in jpa.rows && jpa.rows[id].active
    {
      present := jpa.ExistsByIdAndActive(id);
    }
  }
}
