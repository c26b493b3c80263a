/**
 * ProductEntity: the persisted form of a product, with its setters and the
 * rule that a null active flag is stored as true.
 */
module Entity {
  import opened Common
  import opened Domain

  class ProductEntity {
    var id: Uuid
    var name: Option<string>
    var description: Option<string>
    var price: Option<real>
    var stockQuantity: Option<int>
    var active: bool

    /** The row this entity is written as. */
    function Data(): ProductData
      reads this
    {
      ProductData(id, name, description, price, stockQuantity, active)
    }

    /** The six-argument constructor: stores the fields as given; a null
        active flag is stored as true. */
    constructor (id: Uuid, name: Option<string>, description: Option<string>,
                 price: Option<real>, stockQuantity: Option<int>, active: Option<bool>)
      ensures this.id == id && this.name == name && this.description == description
      ensures this.price == price && this.stockQuantity == stockQuantity
      ensures active == None ==> this.active
      ensures active != None ==> this.active == active.value
    {
      this.id := id;
      this.name := name;
      this.description := description;
      this.price := price;
      this.stockQuantity := stockQuantity;
      this.active := if active != None then active.value else true;
    }

    method SetId(id: Uuid)
      modifies this`id
      ensures this.id == id
    {
      this.id := id;
    }

    method SetName(name: Option<string>)
      modifies this`name
      ensures this.name == name
    {
      this.name := name;
    }

    method SetDescription(description: Option<string>)
      modifies this`description
      ensures this.description == description
    {
      this.description := description;
    }

    method SetPrice(price: Option<real>)
      modifies this`price
      ensures this.price == price
    {
      this.price := price;
    }

    method SetStockQuantity(stockQuantity: Option<int>)
      modifies this`stockQuantity
      ensures this.stockQuantity == stockQuantity
    {
      this.stockQuantity := stockQuantity;
    }

    /** setActive: null is stored as true. */
    method SetActive(active: Option<bool>)
      modifies this`active
      ensures active == None ==> this.active
      ensures active != None ==> this.active == active.value
    {
      this.active := if active != None then active.value else true;
    }
  }
}
