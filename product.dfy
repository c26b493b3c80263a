/**
 * The Product aggregate: its state, the guard chain that enforces its four
 * invariants, and the mutable Product object with its constructors, update
 * and setId.
 */
module Domain {
  import opened Common

  /** Everything a product holds: the five fields of Product plus the
      soft-delete flag. The same record is the state of a stored row. */
  datatype ProductData = ProductData(
    id: Uuid,
    name: Option<string>,
    description: Option<string>,
    price: Option<real>,
    stockQuantity: Option<int>,
    active: bool)

  /** The page of a paged query: content plus totals over every page. */
  datatype PageResult<T> = PageResult(content: seq<T>, totalElements: int, totalPages: int)

  const NameMessage := "Product name cannot be null or empty"
  const DescriptionMessage := "Product description cannot be null or empty"
  const PriceMessage := "Product price cannot be null or negative"
  const StockMessage := "Product stock quantity cannot be null or negative"

  // ---------------------------------------------------------------------------
  // String.trim: strips leading and trailing characters at or below U+0020.

  function TrimStart(s: string): (r: string)
  {
    if |s| > 0 && s[0] <= ' ' then TrimStart(s[1..]) else s
  }

  function TrimEnd(s: string): (r: string)
  {
    if |s| > 0 && s[|s| - 1] <= ' ' then TrimEnd(s[..|s| - 1]) else s
  }

  function Trim(s: string): (r: string)
  {
    TrimEnd(TrimStart(s))
  }

  /** Every character is at or below U+0020: what trim() turns into "". */
  ghost predicate Blank(s: string)
  {
    forall i :: 0 <= i < |s| ==> s[i] <= ' '
  }

  lemma {:induction false} TrimStartBlank(s: string)
    ensures TrimStart(s) == [] <==> Blank(s)
    ensures TrimStart(s) != [] ==> TrimStart(s)[0] > ' '
    decreases |s|
  {
    if |s| > 0 && s[0] <= ' ' {
      TrimStartBlank(s[1..]);
      if Blank(s[1..]) {
        assert forall i :: 0 <= i < |s| ==> i == 0 || s[i] == s[1..][i - 1];
      } else {
        var i :| 0 <= i < |s[1..]| && s[1..][i] > ' ';
        assert s[i + 1] > ' ';
      }
    } else if |s| > 0 {
      assert s[0] > ' ';
    }
  }

  lemma {:induction false} TrimEndKeepsHead(s: string)
    requires |s| > 0 && s[0] > ' '
    ensures |TrimEnd(s)| > 0 && TrimEnd(s)[0] == s[0]
    decreases |s|
  {
    if s[|s| - 1] <= ' ' {
      assert |s| > 1;
      TrimEndKeepsHead(s[..|s| - 1]);
    }
  }

  /** trim().isEmpty() holds exactly of the strings made of characters at or
      below U+0020, the empty string included. */
  lemma TrimEmptyIffBlank(s: string)
    ensures Trim(s) == [] <==> Blank(s)
  {
    TrimStartBlank(s);
    if TrimStart(s) != [] {
      TrimEndKeepsHead(TrimStart(s));
    }
  }

  /** A string argument the guard chain accepts: not null and not blank. */
  ghost predicate Filled(s: Option<string>)
  {
    s.Some? && !Blank(s.value)
  }

  /** A numeric argument the guard chain accepts: not null and not negative. */
  predicate NonNegativePrice(p: Option<real>)
  {
    p.Some? && p.value >= 0.0
  }

  predicate NonNegativeStock(q: Option<int>)
  {
    q.Some? && q.value >= 0
  }

  /** Product.validate: the message of the first failed check, None when all
      four pass. Name, description, price and stock are checked in that order. */
  function Validate(name: Option<string>, description: Option<string>,
                    price: Option<real>, stockQuantity: Option<int>): (r: Option<string>)
    ensures r == None <==>
      Filled(name) && Filled(description) && NonNegativePrice(price) && NonNegativeStock(stockQuantity)
    ensures !Filled(name) ==> r == Some(NameMessage)
    ensures Filled(name) && !Filled(description) ==> r == Some(DescriptionMessage)
    ensures Filled(name) && Filled(description) && !NonNegativePrice(price) ==> r == Some(PriceMessage)
    ensures Filled(name) && Filled(description) && NonNegativePrice(price) && !NonNegativeStock(stockQuantity)
      ==> r == Some(StockMessage)
  {
    TrimEmptyIffBlank(if name.Some? then name.value else "");
    TrimEmptyIffBlank(if description.Some? then description.value else "");
    if name.None? || Trim(name.value) == [] then Some(NameMessage)
    else if description.None? || Trim(description.value) == [] then Some(DescriptionMessage)
    else if price.None? || price.value < 0.0 then Some(PriceMessage)
    else if stockQuantity.None? || stockQuantity.value < 0 then Some(StockMessage)
    else None
  }

  /** The rejections and acceptances the unit tests of Product exercise. */
  lemma ValidateCases()
    ensures Validate(Some("   "), Some("Description"), Some(100.0), Some(10)) == Some(NameMessage)
    ensures Validate(Some(""), Some("Description"), Some(100.0), Some(10)) == Some(NameMessage)
    ensures Validate(Some("Name"), Some(""), Some(100.0), Some(10)) == Some(DescriptionMessage)
    ensures Validate(Some("Name"), Some("Description"), Some(-100.0), Some(10)) == Some(PriceMessage)
    ensures Validate(Some("Name"), Some("Description"), Some(100.0), Some(-1)) == Some(StockMessage)
    ensures Validate(Some("Name"), Some("Description"), Some(0.0), Some(10)) == None
    ensures Validate(Some("Product"), Some("Description"), Some(100.0), Some(0)) == None
  {
    assert "Name"[0] == 'N' && "Product"[0] == 'P' && "Description"[0] == 'D';
  }

  /** A state that satisfies the four invariants. */
  predicate ValidData(d: ProductData)
  {
    Validate(d.name, d.description, d.price, d.stockQuantity) == None
  }

  /** Every state in the sequence satisfies the four invariants. */
  predicate AllValid(ds: seq<ProductData>)
  {
    forall i :: 0 <= i < |ds| ==> ValidData(ds[i])
  }

  /** The mutable product aggregate. */
  class Product {
    var id: Uuid
    var name: Option<string>
    var description: Option<string>
    var price: Option<real>
    var stockQuantity: Option<int>
    var active: bool

    function Data(): ProductData
      reads this
    {
      ProductData(id, name, description, price, stockQuantity, active)
    }

    /** The field assignments every constructor performs before validate(). */
    constructor Assign(d: ProductData)
      ensures Data() == d
    {
      id, name, description, price, stockQuantity, active :=
        d.id, d.name, d.description, d.price, d.stockQuantity, d.active;
    }

    /** new Product(id, name, description, price, stockQuantity): stores the
        arguments, then validates; a failed check throws. */
    static method New(id: Uuid, name: Option<string>, description: Option<string>,
                      price: Option<real>, stockQuantity: Option<int>) returns (r: Result<Product, Error>)
      ensures r.Success? <==> Validate(name, description, price, stockQuantity) == None
      ensures r.Failure? ==> r.error == IllegalArgument(Validate(name, description, price, stockQuantity).value)
      ensures r.Success? ==>
        fresh(r.value) && r.value.Data() == ProductData(id, name, description, price, stockQuantity, true)
    {
      r := Restore(id, name, description, price, stockQuantity, None);
    }

    /** new Product(name, description, price, stockQuantity): as New, with the
        id drawn from the random UUID generator, here the argument generatedId. */
    static method NewWithGeneratedId(generatedId: Uuid, name: Option<string>, description: Option<string>,
                                     price: Option<real>, stockQuantity: Option<int>) returns (r: Result<Product, Error>)
      ensures r.Success? <==> Validate(name, description, price, stockQuantity) == None
      ensures r.Failure? ==> r.error == IllegalArgument(Validate(name, description, price, stockQuantity).value)
      ensures r.Success? ==>
        && fresh(r.value) && r.value.id == generatedId && r.value.active
        && r.value.name == name && r.value.description == description
        && r.value.price == price && r.value.stockQuantity == stockQuantity
    {
      r := New(generatedId, name, description, price, stockQuantity);
    }

    /** The six-argument constructor the repository uses to rebuild a product
        from a stored row; a null active flag means true. */
    static method Restore(id: Uuid, name: Option<string>, description: Option<string>,
                          price: Option<real>, stockQuantity: Option<int>, active: Option<bool>)
      returns (r: Result<Product, Error>)
      ensures r.Success? <==> Validate(name, description, price, stockQuantity) == None
      ensures r.Failure? ==> r.error == IllegalArgument(Validate(name, description, price, stockQuantity).value)
      ensures r.Success? ==>
        && fresh(r.value)
        && r.value.Data() == ProductData(id, name, description, price, stockQuantity,
                                         if active.Some? then active.value else true)
    {
      var p := new Product.Assign(ProductData(id, name, description, price, stockQuantity,
                                              if active.Some? then active.value else true));
      var failure := Validate(p.name, p.description, p.price, p.stockQuantity);
      if failure.Some? {
        return Failure(IllegalArgument(failure.value));
      }
      return Success(p);
    }

    /** Product.update: assigns all four mutable fields, then validates. A
        failed check is reported, but the rejected values stay assigned. */
    method Update(name: Option<string>, description: Option<string>,
                  price: Option<real>, stockQuantity: Option<int>) returns (failure: Option<Error>)
      modifies this
      ensures Data() == old(Data()).(name := name, description := description,
                                      price := price, stockQuantity := stockQuantity)
      ensures failure.None? <==> Validate(name, description, price, stockQuantity) == None
      ensures failure.Some? ==> failure.value == IllegalArgument(Validate(name, description, price, stockQuantity).value)
    {
      this.name := name;
      this.description := description;
      this.price := price;
      this.stockQuantity := stockQuantity;
      var check := Validate(this.name, this.description, this.price, this.stockQuantity);
      failure := if check.Some? then Some(IllegalArgument(check.value)) else None;
    }

    /** Product.setId: replaces the id and nothing else. */
    method SetId(newId: Uuid)
      modifies this`id
      ensures id == newId
    {
      id := newId;
    }
  }
}
