/**
 * JpaProductRepository: the products table, keyed by id, with the soft-delete
 * queries. Rows are scanned in insertion order, which stands for the order the
 * database returns them in.
 */
module JpaStore {
  import opened Common
  import opened Domain
  import opened Entity
  import opened Pagination

  /** The products table: id to stored row. */
  type Table = map<Uuid, ProductData>

  /** Every row is stored under its own id. */
  ghost predicate KeysMatch(rows: Table)
  {
    forall k :: k in rows ==> rows[k].id == k
  }

  /** Every stored row satisfies the product invariants. */
  ghost predicate RowsValid(rows: Table)
  {
    forall k :: k in rows ==> ValidData(rows[k])
  }

  /** The row under key k when it is active, as a sequence of at most one. */
  function ActiveRow(k: Uuid, rows: Table): (r: seq<ProductData>)
  {
    if k in rows && rows[k].active then [rows[k]] else []
  }

  /** SELECT p WHERE p.active = true, scanning the keys in the given order. */
  function ActiveIn(order: seq<Uuid>, rows: Table): (r: seq<ProductData>)
  {
    if order == [] then []
    else ActiveIn(order[..|order| - 1], rows) + ActiveRow(order[|order| - 1], rows)
  }

  /** The rows of ds whose id is not id, in order. */
  function Without(ds: seq<ProductData>, id: Uuid): (r: seq<ProductData>)
  {
    if ds == [] then []
    else Without(ds[..|ds| - 1], id) + (if ds[|ds| - 1].id == id then [] else [ds[|ds| - 1]])
  }

  /** The number of active rows with the given id met in a scan of order. */
  function CountActiveWithId(order: seq<Uuid>, rows: Table, id: Uuid): (n: nat)
  {
    if order == [] then 0
    else
      var last := order[|order| - 1];
      CountActiveWithId(order[..|order| - 1], rows, id) + (if last == id && last in rows && rows[last].active then 1 else 0)
  }

  /** UPDATE p SET p.active = false WHERE p.id = :id. */
  function Deactivated(rows: Table, id: Uuid): (r: Table)
    ensures r.Keys == rows.Keys
    ensures id in rows ==> !r[id].active
    ensures forall k :: k in rows && k != id ==> r[k] == rows[k]
    ensures id in rows ==> r[id] == rows[id].(active := false)
  {
    if id in rows then rows[id := rows[id].(active := false)] else rows
  }

  /** The active scan holds exactly the stored rows whose flag is set. */
  lemma {:induction false} ActiveInMember(order: seq<Uuid>, rows: Table, d: ProductData)
    requires KeysMatch(rows)
    ensures d in ActiveIn(order, rows) <==> d.id in order && d.id in rows && rows[d.id] == d && d.active
  {
    if order != [] {
      var init, last := order[..|order| - 1], order[|order| - 1];
      ActiveInMember(init, rows, d);
      assert order == init + [last];
      assert d.id in order <==> d.id in init || d.id == last;
    }
  }

  /** Over a table of valid rows stored under their ids, every active row
      passes the Product invariants. */
  lemma ActiveInValid(order: seq<Uuid>, rows: Table)
    requires KeysMatch(rows) && RowsValid(rows)
    ensures forall d :: d in ActiveIn(order, rows) ==> ValidData(d)
    ensures AllValid(ActiveIn(order, rows))
  {
    forall d | d in ActiveIn(order, rows)
      ensures ValidData(d)
    {
      ActiveInMember(order, rows, d);
    }
    assert forall i :: 0 <= i < |ActiveIn(order, rows)| ==> ActiveIn(order, rows)[i] in ActiveIn(order, rows);
  }

  /** Under a scan order without repeats, the active scan has no two rows
      with one id. */
  lemma {:induction false} ActiveInDistinct(order: seq<Uuid>, rows: Table)
    requires KeysMatch(rows)
    requires forall i, j :: 0 <= i < j < |order| ==> order[i] != order[j]
    ensures forall i, j :: 0 <= i < j < |ActiveIn(order, rows)| ==>
      ActiveIn(order, rows)[i].id != ActiveIn(order, rows)[j].id
  {
    if order != [] {
      var init, last := order[..|order| - 1], order[|order| - 1];
      ActiveInDistinct(init, rows);
      var a := ActiveIn(init, rows);
      forall i | 0 <= i < |a|
        ensures a[i].id != last
      {
        ActiveInMember(init, rows, a[i]);
      }
    }
  }

  /** A row under a key the scan never visits does not change the scan. */
  lemma {:induction false} ActiveInUnrelated(order: seq<Uuid>, rows: Table, k: Uuid, v: ProductData)
    requires k !in order
    ensures ActiveIn(order, rows[k := v]) == ActiveIn(order, rows)
  {
    if order != [] {
      var init := order[..|order| - 1];
      assert order == init + [order[|order| - 1]];
      ActiveInUnrelated(init, rows, k, v);
    }
  }

  /** Saving a row under a new id appends it to the active scan when it is
      active, and leaves the scan as it was when it is not. */
  lemma ActiveInInsert(order: seq<Uuid>, rows: Table, d: ProductData)
    requires d.id !in order
    ensures ActiveIn(order + [d.id], rows[d.id := d]) == ActiveIn(order, rows) + (if d.active then [d] else [])
  {
    assert (order + [d.id])[..|order|] == order;
    ActiveInUnrelated(order, rows, d.id, d);
  }

  lemma {:induction false} WithoutConcat(a: seq<ProductData>, b: seq<ProductData>, id: Uuid)
    ensures Without(a + b, id) == Without(a, id) + Without(b, id)
    decreases |b|
  {
    if b != [] {
      var init := b[..|b| - 1];
      assert (a + b)[..|a + b| - 1] == a + init;
      WithoutConcat(a, init, id);
    } else {
      assert a + b == a;
    }
  }

  /** Deactivating one id removes exactly that row from the active scan. */
  lemma {:induction false} ActiveInDeactivated(order: seq<Uuid>, rows: Table, id: Uuid)
    requires KeysMatch(rows)
    ensures ActiveIn(order, Deactivated(rows, id)) == Without(ActiveIn(order, rows), id)
  {
    if order != [] {
      var init, last := order[..|order| - 1], order[|order| - 1];
      ActiveInDeactivated(init, rows, id);
      WithoutConcat(ActiveIn(init, rows), ActiveRow(last, rows), id);
      var row := ActiveRow(last, rows);
      if row != [] {
        assert Without(row, id) == Without([], id) + (if row[0].id == id then [] else [row[0]]);
      }
    }
  }

  /** Deactivation is idempotent. */
  lemma DeactivatedIdempotent(rows: Table, id: Uuid)
    ensures Deactivated(Deactivated(rows, id), id) == Deactivated(rows, id)
  {
  }

  /** After deactivation the id still exists but no longer counts as active. */
  lemma DeactivatedQueries(rows: Table, id: Uuid)
    ensures id in Deactivated(rows, id) <==> id in rows
    ensures !(id in Deactivated(rows, id) && Deactivated(rows, id)[id].active)
  {
  }

  /** The count query is positive exactly when the id is stored and active. */
  lemma {:induction false} CountActiveWithIdPositive(order: seq<Uuid>, rows: Table, id: Uuid)
    ensures CountActiveWithId(order, rows, id) > 0 <==> id in order && id in rows && rows[id].active
  {
    if order != [] {
      var init, last := order[..|order| - 1], order[|order| - 1];
      CountActiveWithIdPositive(init, rows, id);
      assert order == init + [last];
      assert id in order <==> id in init || id == last;
    }
  }

  // ---------------------------------------------------------------------------
  // Paging: a PageRequest of (page, size) selects the elements from offset
  // page * size, at most size of them.

  function PageSlice<T>(s: seq<T>, page: nat, size: nat): (r: seq<T>)
    ensures |r| <= size
  {
    var from := if page * size <= |s| then page * size else |s|;
    var to := if from + size <= |s| then from + size else |s|;
    s[from..to]
  }

  /** A page holds only elements of the sequence it is cut from. */
  lemma PageSliceWithin<T>(s: seq<T>, page: nat, size: nat)
    ensures forall x :: x in PageSlice(s, page, size) ==> x in s
  {
    var from := if page * size <= |s| then page * size else |s|;
    var to := if from + size <= |s| then from + size else |s|;
    forall x | x in s[from..to]
      ensures x in s
    {
      var i :| 0 <= i < to - from && s[from..to][i] == x;
      assert s[from + i] == x;
    }
  }

  /** Item pos of page page is element page * size + pos. */
  lemma PageSliceItem<T>(s: seq<T>, page: nat, size: nat, pos: nat)
    requires pos < size && page * size + pos < |s|
    ensures pos < |PageSlice(s, page, size)|
    ensures PageSlice(s, page, size)[pos] == s[page * size + pos]
  {
  }

  /** Element k sits on page k / size at position k % size. */
  lemma PageSliceAt<T>(s: seq<T>, size: nat, k: nat)
    requires size > 0 && k < |s|
    ensures k % size < |PageSlice(s, k / size, size)|
    ensures PageSlice(s, k / size, size)[k % size] == s[k]
  {
    var page, pos := k / size, k % size;
    assert k == page * size + pos;
  }

  /** A page has content exactly when its index is below the page count. */
  lemma PageSliceNonEmpty<T>(s: seq<T>, page: nat, size: nat)
    requires size > 0
    ensures PageSlice(s, page, size) != [] <==> page < CeilDiv(|s|, size)
  {
    BelowCeilIff(page, |s|, size);
  }

  /** PageResponse.of calls a page last exactly when the next page would be
      empty. */
  lemma LastIffNoNextPage<T, U>(s: seq<T>, content: seq<U>, page: nat, size: nat)
    requires size > 0
    ensures Of(content, page, size, |s|).last <==> PageSlice(s, page + 1, size) == []
  {
    PageSliceNonEmpty(s, page + 1, size);
  }

  // ---------------------------------------------------------------------------

  class JpaProductRepository {
    var rows: Table
    /** The keys of rows in insertion order: the order of a table scan. */
    var order: seq<Uuid>

    ghost predicate Valid()
      reads this
    {
      && KeysMatch(rows)
      && (forall k :: k in rows <==> k in order)
      && (forall i, j :: 0 <= i < j < |order| ==> order[i] != order[j])
    }

    constructor ()
      ensures Valid() && rows == map[] && order == []
    {
      rows, order := map[], [];
    }

    /** The active rows in scan order. */
    function ActiveRows(): seq<ProductData>
      reads this
    {
      ActiveIn(order, rows)
    }

    /** save (inherited): insert or replace the row under the entity's id. */
    method Save(entity: ProductEntity) returns (saved: ProductEntity)
      requires Valid()
      modifies this
      ensures Valid() && saved == entity
      ensures rows == old(rows)[entity.id := entity.Data()]
      ensures order == if entity.id in old(rows) then old(order) else old(order) + [entity.id]
    {
      if entity.id !in rows {
        order := order + [entity.id];
      }
      rows := rows[entity.id := entity.Data()];
      saved := entity;
    }

    /** findAllActive(): every active row, in scan order. */
    method FindAllActive() returns (result: seq<ProductData>)
      requires Valid()
      ensures result == ActiveIn(order, rows)
    {
      result := [];
      var i := 0;
      while i < |order|
        invariant 0 <= i <= |order|
        invariant result == ActiveIn(order[..i], rows)
      {
        assert order[..i + 1][..i] == order[..i];
        var k := order[i];
        if rows[k].active {
          result := result + [rows[k]];
        }
        i := i + 1;
      }
      assert order[..|order|] == order;
    }

    /** findAllActive(pageable): one page of the active rows, with the total
        count and page count of the active rows. */
    method FindAllActivePage(page: nat, size: nat) returns (result: PageResult<ProductData>)
      requires Valid() && size >= 1
      ensures result.content == PageSlice(ActiveIn(order, rows), page, size)
      ensures result.totalElements == |ActiveIn(order, rows)|
      ensures result.totalPages == CeilDiv(|ActiveIn(order, rows)|, size)
    {
      var all := FindAllActive();
      result := PageResult(PageSlice(all, page, size), |all|, CeilDiv(|all|, size));
    }

    /** findByIdAndActive: the row under id when it is active. */
    method FindByIdAndActive(id: Uuid) returns (result: Option<ProductData>)
      requires Valid()
      ensures result.Some? <==> id in rows && rows[id].active
      ensures result.Some? ==> result.value == rows[id]
    {
      var i := 0;
      while i < |order|
        invariant 0 <= i <= |order|
        invariant forall j :: 0 <= j < i ==> order[j] != id || !rows[order[j]].active
      {
        if order[i] == id && rows[order[i]].active {
          return Some(rows[order[i]]);
        }
        i := i + 1;
      }
      return None;
    }

    /** existsByIdAndActive: SELECT COUNT(p) > 0 over the active rows with id. */
    method ExistsByIdAndActive(id: Uuid) returns (present: bool)
      requires Valid()
      ensures present <==> id in rows && rows[id].active
    {
      var count := 0;
      var i := 0;
      while i < |order|
        invariant 0 <= i <= |order|
        invariant count == CountActiveWithId(order[..i], rows, id)
      {
        assert order[..i + 1][..i] == order[..i];
        if order[i] == id && rows[order[i]].active {
          count := count + 1;
        }
        i := i + 1;
      }
      assert order[..|order|] == order;
      CountActiveWithIdPositive(order, rows, id);
      present := count > 0;
    }

    /** existsById (inherited): a primary-key lookup that ignores the flag. */
    method ExistsById(id: Uuid) returns (present: bool)
      ensures present <==> id in rows
    {
      present := id in rows;
    }

    /** deactivateById: clears the flag of that one row; an unknown id
        changes nothing. */
    method DeactivateById(id: Uuid)
      requires Valid()
      modifies this
      ensures Valid() && order == old(order)
      ensures rows == Deactivated(old(rows), id)
    {
      rows := Deactivated(rows, id);
    }
  }
}
