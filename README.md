# Product catalogue service — a Dafny model

This project models the core of a small product-catalogue CRUD service.

- **Product aggregate.** A product has an id, a name, a description, a price and a stock quantity. Four invariants hold:
  - the name is non-null and not blank;
  - the description is non-null and not blank;
  - the price is non-null and non-negative;
  - the stock is non-null and non-negative.

  The constructors and `update` enforce them, and `update` assigns the fields before it checks them.
- **Soft-delete store.** The store is a table of persisted product rows. Its queries see only rows whose `active` flag is set. Deleting a product clears that flag.
- **Repository adapter.** It maps domain products to stored rows and back, and rebuilds each product through the validating constructor.
- **Page metadata and parameter validator.** These belong to the paged listing.
- **Five use cases.** Create, get by id, update, delete and list (whole and paged) orchestrate all of the above.

Java's `null` is `Option.None`. A thrown exception is a `Failure` carrying `IllegalArgument(message)` or `ResourceNotFound(resource, id)`. Prices are exact `real`s and stock is an `int`. A UUID is a 128-bit number. The random UUID a new product receives is a parameter of the operation.

The store (`JpaStore.JpaProductRepository`) keeps a map from id to row and the keys in insertion order. The queries have no ORDER BY, so the database promises no order; the model assumes a table scan returns rows in insertion order (see "## Left out"). The specification functions `ActiveIn`, `Deactivated` and `PageSlice` describe the queries. The use-case methods are proved against `GetProduct`, `ListAll` and `ListPage`, which are functions of the table. Lemmas relate these functions to create, update and delete.

Where the code disagrees with its tests, or one source file with another, the model makes these choices:

- `DeleteProductUseCase.execute` calls `existsById` and `deleteById`. The `ProductRepository` interface it depends on declares `existsById`, `existsByIdAndActive` and `deactivateById`, but no `deleteById` and no other hard delete. The unit tests of the use case expect that soft-delete pairing. `UseCases.DeleteProductUseCase.Execute` models the soft-delete pairing, so a second delete of the same id fails with not-found.
- `ProductRepositoryImpl` calls `Product.getActive()` and a six-argument `Product` constructor, and `Product.java` has neither. The model gives `Product` an `active` field that defaults to true, as `ProductEntity` does. `Domain.Product.Restore` is that six-argument constructor: it validates like the other constructors.
- `update` assigns all four fields before it validates (`Product.java:49-55`), so a rejected update leaves the product object holding the rejected values. `Domain.Product.Update` follows the code. `UseCases.UpdateProductUseCase.Execute` then discards that object without saving it, so the store is unchanged either way.

## Model

| member | source | states |
|---|---|---|
| Domain.Validate | src/main/java/com/techsolution/product_service/domain/Product.java:34-47 | no error iff name and description are non-null and not blank, price ≥ 0 and stock ≥ 0; otherwise the message of the first failing check, in the order name, description, price, stock |
| Domain.TrimEmptyIffBlank | src/main/java/com/techsolution/product_service/domain/Product.java:35-40 | `trim()` of a string is empty iff every character is at most U+0020 |
| Domain.ValidateCases | src/test/java/com/techsolution/product_service/domain/ProductTest.java:33-107 | blank or empty names, an empty description, a negative price and a negative stock are each rejected with their own message; a zero price and a zero stock are accepted |
| Domain.Product.New | src/main/java/com/techsolution/product_service/domain/Product.java:16-23 | succeeds iff the four invariants hold, else fails with the first check's message; on success a new product holds exactly the five given fields, active |
| Domain.Product.NewWithGeneratedId | src/main/java/com/techsolution/product_service/domain/Product.java:25-32 | as New, with the id taken from the id generator |
| Domain.Product.Restore | src/main/java/com/techsolution/product_service/infrastructure/persistence/ProductRepositoryImpl.java:110-119 | the six-argument constructor: validates as New does; a null active flag becomes true |
| Domain.Product.Update | src/main/java/com/techsolution/product_service/domain/Product.java:49-55 | the four mutable fields are replaced and id and active are kept, whether or not validation then fails; it fails iff the new values break an invariant |
| Domain.Product.SetId | src/main/java/com/techsolution/product_service/domain/Product.java:61-63 | replaces the id and may change no other field |
| Pagination.ValidatePage | src/main/java/com/techsolution/product_service/api/controller/PaginationValidator.java:19-30 | no message iff page ≥ 0 and 1 ≤ size ≤ 100; a negative page gives the page message even when the size is also wrong |
| Pagination.MessagesText | src/main/java/com/techsolution/product_service/api/controller/PaginationValidator.java:20-27 | the two messages, formatted from the constants, read "Page must be greater than or equal to 0" and "Size must be between 1 and 100" |
| Pagination.DefaultsAccepted | src/main/java/com/techsolution/product_service/interfaces/controller/PaginationConstants.java:9-10 | the default page 0 and size 20 pass the validator |
| Pagination.CeilDivBounds | src/main/java/com/techsolution/product_service/interfaces/dto/PageResponse.java:15 | the integer ceiling t of a / b satisfies (t-1)·b < a ≤ t·b, is non-negative for a ≥ 0 and is 0 for a = 0 |
| Pagination.CeilDivUnique | src/main/java/com/techsolution/product_service/interfaces/dto/PageResponse.java:15 | the ceiling is the only integer with that bracketing |
| Pagination.BelowCeilIff | src/main/java/com/techsolution/product_service/interfaces/dto/PageResponse.java:15-17 | x·b < n iff x < ceil(n / b): a page starts inside the data iff its index is below the page count |
| Pagination.Of | src/main/java/com/techsolution/product_service/interfaces/dto/PageResponse.java:14-28 | content, page, size and totalElements pass through; totalPages is the ceiling of totalElements / size; first iff page = 0; last iff page ≥ totalPages − 1 |
| Pagination.OfEmpty | src/test/java/com/techsolution/product_service/application/usecase/ListProductsUseCaseTest.java:157-180 | with no elements there are 0 pages, and page 0 is both first and last |
| Pagination.OfTwentyFive | src/test/java/com/techsolution/product_service/application/usecase/ListProductsUseCaseTest.java:128-155 | 25 elements in pages of 10 make 3 pages; page 0 is first and not last, page 2 is last and not first |
| Mapper.ToResponse | src/main/java/com/techsolution/product_service/application/mapper/ProductMapper.java:22-34 | null maps to null; otherwise id, name, description, price and stock are copied unchanged |
| Mapper.ToResponseList | src/main/java/com/techsolution/product_service/application/mapper/ProductMapper.java:42-50 | a null list gives the empty list; otherwise the length is kept and element i is toResponse of input element i |
| Mapper.ResponseList | src/main/java/com/techsolution/product_service/application/mapper/ProductMapper.java:47-49 | the stream map keeps the length and order |
| Entity.ProductEntity.constructor | src/main/java/com/techsolution/product_service/infrastructure/persistence/entity/ProductEntity.java:32-39 | stores the five fields as given; a null active becomes true and a non-null one is kept |
| Entity.ProductEntity.SetId | src/main/java/com/techsolution/product_service/infrastructure/persistence/entity/ProductEntity.java:45-47 | sets the id and may change no other field |
| Entity.ProductEntity.SetName | src/main/java/com/techsolution/product_service/infrastructure/persistence/entity/ProductEntity.java:53-55 | sets the name and may change no other field |
| Entity.ProductEntity.SetDescription | src/main/java/com/techsolution/product_service/infrastructure/persistence/entity/ProductEntity.java:61-63 | sets the description and may change no other field |
| Entity.ProductEntity.SetPrice | src/main/java/com/techsolution/product_service/infrastructure/persistence/entity/ProductEntity.java:69-71 | sets the price and may change no other field |
| Entity.ProductEntity.SetStockQuantity | src/main/java/com/techsolution/product_service/infrastructure/persistence/entity/ProductEntity.java:77-79 | sets the stock and may change no other field |
| Entity.ProductEntity.SetActive | src/main/java/com/techsolution/product_service/infrastructure/persistence/entity/ProductEntity.java:85-87 | null becomes true, otherwise the argument is stored; no other field may change |
| JpaStore.Deactivated | src/main/java/com/techsolution/product_service/infrastructure/persistence/jpa/JpaProductRepository.java:31-33 | the same keys; the row under id becomes inactive and keeps its other five fields; every other row is unchanged |
| JpaStore.DeactivatedIdempotent | src/main/java/com/techsolution/product_service/infrastructure/persistence/jpa/JpaProductRepository.java:31-33 | deactivating twice is deactivating once |
| JpaStore.DeactivatedQueries | src/main/java/com/techsolution/product_service/infrastructure/persistence/jpa/JpaProductRepository.java:28-33 | after deactivation existsById is unchanged and the id is no longer active |
| JpaStore.ActiveInMember | src/main/java/com/techsolution/product_service/infrastructure/persistence/jpa/JpaProductRepository.java:19-20 | a row is in the active scan iff it is the stored row under its id and it is active |
| JpaStore.ActiveInValid | src/main/java/com/techsolution/product_service/infrastructure/persistence/jpa/JpaProductRepository.java:19-20 | over a table of valid rows stored under their ids, every row of the active scan is valid |
| JpaStore.ActiveInDistinct | src/main/java/com/techsolution/product_service/infrastructure/persistence/jpa/JpaProductRepository.java:19-20 | the active scan holds no two rows with one id |
| JpaStore.ActiveInUnrelated | src/main/java/com/techsolution/product_service/infrastructure/persistence/jpa/JpaProductRepository.java:19-20 | a row under a key the scan does not visit does not change the scan |
| JpaStore.ActiveInInsert | src/main/java/com/techsolution/product_service/infrastructure/persistence/jpa/JpaProductRepository.java:17-20 | saving under a new id appends the row to the active scan if it is active |
| JpaStore.WithoutConcat | src/main/java/com/techsolution/product_service/infrastructure/persistence/jpa/JpaProductRepository.java:31-33 | dropping the rows of one id distributes over concatenation |
| JpaStore.ActiveInDeactivated | src/main/java/com/techsolution/product_service/infrastructure/persistence/jpa/JpaProductRepository.java:19-33 | after deactivateById(id) the active scan is the old one without the rows of id, in the same order |
| JpaStore.CountActiveWithIdPositive | src/main/java/com/techsolution/product_service/infrastructure/persistence/jpa/JpaProductRepository.java:28-29 | the count query is positive iff the id is stored and active |
| JpaStore.PageSlice | src/main/java/com/techsolution/product_service/infrastructure/persistence/jpa/JpaProductRepository.java:22-23 | a page holds at most size elements |
| JpaStore.PageSliceWithin | src/main/java/com/techsolution/product_service/infrastructure/persistence/jpa/JpaProductRepository.java:22-23 | a page holds only elements of the active set |
| JpaStore.PageSliceItem | src/main/java/com/techsolution/product_service/infrastructure/persistence/jpa/JpaProductRepository.java:22-23 | item pos of a page is element page·size + pos |
| JpaStore.PageSliceAt | src/main/java/com/techsolution/product_service/infrastructure/persistence/jpa/JpaProductRepository.java:22-23 | element k is item k mod size of page k div size |
| JpaStore.PageSliceNonEmpty | src/main/java/com/techsolution/product_service/infrastructure/persistence/jpa/JpaProductRepository.java:22-23 | a page has content iff its index is below the page count |
| JpaStore.LastIffNoNextPage | src/main/java/com/techsolution/product_service/interfaces/dto/PageResponse.java:15-17 | PageResponse calls a page last iff the next page of the store is empty |
| JpaStore.JpaProductRepository.Save | src/main/java/com/techsolution/product_service/infrastructure/persistence/jpa/JpaProductRepository.java:17 | the inherited save inserts or replaces the row under the entity's id; a new id is appended to the scan order; the table invariant is kept |
| JpaStore.JpaProductRepository.FindAllActive | src/main/java/com/techsolution/product_service/infrastructure/persistence/jpa/JpaProductRepository.java:19-20 | the scan loop returns exactly the active rows in scan order |
| JpaStore.JpaProductRepository.FindAllActivePage | src/main/java/com/techsolution/product_service/infrastructure/persistence/jpa/JpaProductRepository.java:22-23 | the page's slice of the active rows, their total count and the page count |
| JpaStore.JpaProductRepository.FindByIdAndActive | src/main/java/com/techsolution/product_service/infrastructure/persistence/jpa/JpaProductRepository.java:25-26 | present iff the id is stored and active, and then it is that row |
| JpaStore.JpaProductRepository.ExistsByIdAndActive | src/main/java/com/techsolution/product_service/infrastructure/persistence/jpa/JpaProductRepository.java:28-29 | true iff the id is stored and active, so it agrees with FindByIdAndActive |
| JpaStore.JpaProductRepository.ExistsById | src/main/java/com/techsolution/product_service/infrastructure/persistence/jpa/JpaProductRepository.java:17 | true iff the id is stored, whatever its flag |
| JpaStore.JpaProductRepository.DeactivateById | src/main/java/com/techsolution/product_service/infrastructure/persistence/jpa/JpaProductRepository.java:31-33 | the table becomes Deactivated(old table, id) and the scan order is kept |
| Repository.FirstInvalid | src/main/java/com/techsolution/product_service/infrastructure/persistence/ProductRepositoryImpl.java:49-51 | the index where the stream map of toDomain first throws: every earlier row passes the invariants and the row there fails; the length when all pass |
| Repository.FirstInvalidUnique | src/main/java/com/techsolution/product_service/infrastructure/persistence/ProductRepositoryImpl.java:49-51 | a failing row preceded only by passing rows is the first failing row |
| Repository.FirstFailure | src/main/java/com/techsolution/product_service/infrastructure/persistence/ProductRepositoryImpl.java:49-51 | None iff every row passes the invariants; otherwise the validation message of the first failing row |
| Repository.ProductRepositoryImpl.ToEntity | src/main/java/com/techsolution/product_service/infrastructure/persistence/ProductRepositoryImpl.java:99-108 | a new entity holding all six fields of the product, active included |
| Repository.ProductRepositoryImpl.ToDomain | src/main/java/com/techsolution/product_service/infrastructure/persistence/ProductRepositoryImpl.java:110-119 | succeeds iff the row is valid, with a new product equal to the row, so toDomain(toEntity(p)) keeps every field; otherwise it fails with the row's validation message |
| Repository.ProductRepositoryImpl.ToDomainAll | src/main/java/com/techsolution/product_service/infrastructure/persistence/ProductRepositoryImpl.java:49-51 | the mapping loop succeeds iff every row is valid, keeps length and order, and otherwise fails with the first failing row's message |
| Repository.ProductRepositoryImpl.Save | src/main/java/com/techsolution/product_service/infrastructure/persistence/ProductRepositoryImpl.java:28-35 | stores the product's row under its id and returns a product with the same fields |
| Repository.ProductRepositoryImpl.FindById | src/main/java/com/techsolution/product_service/infrastructure/persistence/ProductRepositoryImpl.java:37-44 | empty unless the id is stored and active, so it never returns an inactive product; otherwise a product equal to the row |
| Repository.ProductRepositoryImpl.FindAll | src/main/java/com/techsolution/product_service/infrastructure/persistence/ProductRepositoryImpl.java:46-54 | the active products in scan order, as many as there are active rows |
| Repository.ProductRepositoryImpl.FindAllPage | src/main/java/com/techsolution/product_service/infrastructure/persistence/ProductRepositoryImpl.java:56-74 | PageRequest's argument errors; otherwise the page's products elementwise, with the store's totalElements and totalPages passed through |
| Repository.ProductRepositoryImpl.DeactivateById | src/main/java/com/techsolution/product_service/infrastructure/persistence/ProductRepositoryImpl.java:76-81 | delegates: the table becomes Deactivated(old table, id) |
| Repository.ProductRepositoryImpl.ExistsById | src/main/java/com/techsolution/product_service/infrastructure/persistence/ProductRepositoryImpl.java:83-89 | true iff the id is stored |
| Repository.ProductRepositoryImpl.ExistsByIdAndActive | src/main/java/com/techsolution/product_service/infrastructure/persistence/ProductRepositoryImpl.java:91-97 | true iff the id is stored and active |
| UseCases.GetProduct | src/main/java/com/techsolution/product_service/application/usecase/GetProductByIdUseCase.java:26-34 | succeeds iff the id is stored, active and valid, with the projection of that row; an absent or inactive id is not-found for "Product" and that id |
| UseCases.GetProductByIdUseCase.Execute | src/main/java/com/techsolution/product_service/application/usecase/GetProductByIdUseCase.java:26-34 | returns GetProduct of the current table and changes nothing |
| UseCases.ListAll | src/main/java/com/techsolution/product_service/application/usecase/ListProductsUseCase.java:26-33 | succeeds iff every active row passes the invariants, with the projections of all active rows in scan order; otherwise fails with the first failing row's message |
| UseCases.ListAllSucceeds | src/main/java/com/techsolution/product_service/application/usecase/ListProductsUseCase.java:26-33 | over a table of valid rows stored under their ids the listing never fails |
| UseCases.ListProductsUseCase.Execute | src/main/java/com/techsolution/product_service/application/usecase/ListProductsUseCase.java:26-33 | returns ListAll of the current table and changes nothing |
| UseCases.ListPage | src/main/java/com/techsolution/product_service/application/usecase/ListProductsUseCase.java:35-46 | PageRequest's argument errors; otherwise the projections of the page's slice, the requested page and size, the active count as totalElements, its recomputed ceiling as totalPages, first iff the page is 0 and last iff no later page is within totalPages |
| UseCases.ListProductsUseCase.ExecutePaged | src/main/java/com/techsolution/product_service/application/usecase/ListProductsUseCase.java:35-46 | returns ListPage of the current table and changes nothing |
| UseCases.ListPageSucceeds | src/main/java/com/techsolution/product_service/application/usecase/ListProductsUseCase.java:38-45 | over a valid table every page request with acceptable arguments succeeds, with the projections of the page's slice |
| UseCases.PageHoldsRow | src/main/java/com/techsolution/product_service/application/usecase/ListProductsUseCase.java:38-40 | active row page·size + pos is item pos of that page's response |
| UseCases.CreateProductUseCase.Execute | src/main/java/com/techsolution/product_service/application/usecase/CreateProductUseCase.java:25-40 | an invalid request fails with its validation message and leaves the store unchanged; otherwise the active row is stored under the generated id and the response echoes the request under that id; a table of valid rows stays valid |
| UseCases.GetAfterCreate | src/main/java/com/techsolution/product_service/application/usecase/CreateProductUseCase.java:29-39 | a created product reads back under its id with the request's fields |
| UseCases.ListAfterCreate | src/main/java/com/techsolution/product_service/application/usecase/CreateProductUseCase.java:29-36 | a product created under a new id is appended to the listing |
| UseCases.UpdateProductUseCase.Execute | src/main/java/com/techsolution/product_service/application/usecase/UpdateProductUseCase.java:28-46 | a failed lookup passes its error through; an invalid request fails with its validation message; in both cases the store is unchanged. Otherwise only the row under id changes, taking the request's four fields, and the response carries the id and those fields |
| UseCases.GetAfterUpdate | src/main/java/com/techsolution/product_service/application/usecase/UpdateProductUseCase.java:32-45 | an updated product reads back with the request's fields under its id |
| UseCases.DeleteProductUseCase.Execute | src/test/java/com/techsolution/product_service/application/usecase/DeleteProductUseCaseTest.java:33-55 | not-found for "Product" and the id, with the store unchanged, unless the id is stored and active; otherwise the row is deactivated and no other row changes; either way the active scan loses exactly the rows of that id |
| UseCases.GetAfterDelete | src/main/java/com/techsolution/product_service/infrastructure/persistence/jpa/JpaProductRepository.java:25-33 | after a delete the id is not found and every other id reads as before |
| UseCases.ListAfterDelete | src/main/java/com/techsolution/product_service/infrastructure/persistence/jpa/JpaProductRepository.java:19-33 | after a delete the listing is the old listing without that id |
| UseCases.Lifecycle | src/test/java/com/techsolution/product_service/application/usecase/DeleteProductUseCaseTest.java:33-55 | create, update, delete, get and a second delete of one id give the created response, the updated response, success, not-found and not-found |

## Left out

- Caching is not modelled: the Redis cache, the cache annotations and their TTLs are framework configuration.
- Transactions are not modelled. Every operation runs on its own, and `@Transactional` atomicity is framework behaviour.
- The HTTP controller, the exception handler, the error DTOs, CORS configuration and logging are left out. They are I/O and presentation.
- The inline page and size check in `ProductController` duplicates `PaginationValidator` and is not modelled separately.
- Null ids and the no-argument constructors of `Product` and `ProductEntity` are not modelled. They exist only for frameworks.
- Getters are not modelled as operations. They are field reads in the model.
- `UUID.randomUUID()` is not modelled. The generated id is a parameter of `CreateProductUseCase.Execute`. The model does not assume it is new: saving under a stored id replaces that row.
- `ResourceNotFound` keeps the resource name and the id as values. The formatted text "Product with id … not found" is not built, because UUID text formatting is not modelled.
- Pagination.Of: assumes `size > 0`. It uses exact integer ceiling in place of the `double` division and `int` cast, and does not model the `size == 0` result or `int` overflow.
- Price is an exact `real` and stock an unbounded `int`. The 32-bit range of `Integer` is not modelled; only the sign is inspected.
- JpaStore.JpaProductRepository.Save: does not round the price to the `price` column's `precision = 19, scale = 2` (`ProductEntity.java:20`); a stored price keeps every digit.
- JpaStore.JpaProductRepository.Save: does not enforce the `nullable = false` column constraints (`ProductEntity.java:14-27`). A row with a null field is stored rather than rejected with a constraint violation; `Repository.ProductRepositoryImpl.Save` then fails in `toDomain` instead. The use cases validate before they save, so they never reach this path.
- JpaStore.JpaProductRepository.Save: returns the argument entity itself, where JPA's merge may return a managed copy. Only the copy's fields are used (`Repository.ProductRepositoryImpl.Save` reads `saved.Data()`), so the identity does not matter to the model.
- JpaStore.ActiveIn: the JPQL queries (`JpaProductRepository.java:19-25`) have no ORDER BY, so the database promises no result order. The model fixes the scan order to insertion order, and updates (`JpaStore.JpaProductRepository.Save` on a stored id) and deactivation keep it. The order parts of `UseCases.ListAfterCreate` (appended at the end), `UseCases.ListAfterDelete` (the same order), `JpaStore.ActiveInInsert` and `UseCases.PageHoldsRow` (positions compared across calls) hold only under this assumption.
- `CreateProductRequest`, `UpdateProductRequest` and any bean-validation annotations on them are not part of this model. Both requests are `UseCases.ProductRequest`, whose fields may each be null.
- JPA queries return row values (`ProductData`) rather than managed entity objects. Entity identity and aliasing between a query result and the stored entity are not modelled.
- Spring Data's `Page` is modelled by its content, total count and page count only. `PageRequest.of`'s argument checks are modelled as IllegalArgument failures with Spring's messages.
- The `ProductRepository` interface is not separate: the use cases depend on `Repository.ProductRepositoryImpl` directly.
- The hard-delete body `DeleteProductUseCase.java:28-32` is left out. It calls `existsById` and `deleteById`, and `deleteById` is not declared by `ProductRepository`. The model follows the soft-delete pairing the unit tests expect.
- The tests' call-count expectations (that `findById` or `save` runs exactly once, or never) are not stated. The model states the resulting state and results instead.
- `ProductMapper.toResponseList` over a list holding null elements is not modelled: element lists are sequences of non-null products.
