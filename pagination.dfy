/**
 * Pagination: the bounds on page and size, the validator that checks them,
 * and the page metadata PageResponse.of derives from a total count.
 */
module Pagination {
  import opened Common

  const DefaultPage := 0
  const DefaultSize := 20
  const MinSize := 1
  const MaxSize := 100

  /** The decimal text of a natural number, as String.format's %d writes it. */
  function DecimalText(n: nat): (r: string)
    ensures |r| > 0
  {
    var digit := [(48 + n % 10) as char];
    if n < 10 then digit else DecimalText(n / 10) + digit
  }

  const PageMessage := "Page must be greater than or equal to " + DecimalText(DefaultPage)
  const SizeMessage := "Size must be between " + DecimalText(MinSize) + " and " + DecimalText(MaxSize)

  /** The two messages, with the constants written into them. */
  lemma MessagesText()
    ensures PageMessage == "Page must be greater than or equal to 0"
    ensures SizeMessage == "Size must be between 1 and 100"
  {
    assert DecimalText(10) == "10";
    assert DecimalText(100) == "100";
  }

  /** PaginationValidator.validate: an error message, or None (Java's null)
      when the parameters are acceptable. The page is checked first. */
  function ValidatePage(page: int, size: int): (r: Option<string>)
    ensures r == None <==> page >= 0 && 1 <= size <= 100
    ensures page < 0 ==> r == Some(PageMessage)
    ensures page >= 0 && (size < 1 || size > 100) ==> r == Some(SizeMessage)
  {
    if page < DefaultPage then Some(PageMessage)
    else if size < MinSize || size > MaxSize then Some(SizeMessage)
    else None
  }

  /** The defaults of the listing endpoint pass the validator. */
  lemma DefaultsAccepted()
    ensures ValidatePage(DefaultPage, DefaultSize) == None
  {
  }

  /** The paged response: content plus the page metadata. */
  datatype PageResponse<T> = PageResponse(
    content: seq<T>,
    page: int,
    size: int,
    totalElements: int,
    totalPages: int,
    first: bool,
    last: bool)

  /** Math.ceil(a / b) for a positive divisor, in integers. */
  function CeilDiv(a: int, b: int): (t: int)
    requires b > 0
  {
    -((-a) / b)
  }

  /** CeilDiv is the ceiling: the least t with a <= t * b. */
  lemma CeilDivBounds(a: int, b: int)
    requires b > 0
    ensures (CeilDiv(a, b) - 1) * b < a <= CeilDiv(a, b) * b
    ensures a >= 0 ==> CeilDiv(a, b) >= 0
    ensures a == 0 ==> CeilDiv(a, b) == 0
  {
    var q, m := (-a) / b, (-a) % b;
    assert -a == q * b + m && 0 <= m < b;
    assert CeilDiv(a, b) * b == a + m by {
      calc {
        CeilDiv(a, b) * b;
        (-q) * b;
        -(q * b);
        a + m;
      }
    }
    assert (CeilDiv(a, b) - 1) * b == a + m - b;
  }

  /** Any t with (t - 1) * b < a <= t * b is CeilDiv(a, b). */
  lemma CeilDivUnique(a: int, b: int, t: int)
    requires b > 0 && (t - 1) * b < a <= t * b
    ensures t == CeilDiv(a, b)
  {
    CeilDivBounds(a, b);
    var c := CeilDiv(a, b);
    MulCancel(t - 1, c, b);
    MulCancel(c - 1, t, b);
  }

  lemma MulCancel(x: int, y: int, b: int)
    requires b > 0 && x * b < y * b
    ensures x < y
  {
    assert (y - x) * b == y * b - x * b;
  }

  lemma MulMonotone(x: int, y: int, b: int)
    requires x <= y && b >= 0
    ensures x * b <= y * b
  {
    assert y * b - x * b == (y - x) * b;
  }

  /** A page starts below the total exactly when its index is below the
      page count: x * b < n iff x < ceil(n / b). */
  lemma BelowCeilIff(x: int, n: int, b: int)
    requires b > 0
    ensures x * b < n <==> x < CeilDiv(n, b)
  {
    CeilDivBounds(n, b);
    var t := CeilDiv(n, b);
    if x < t {
      MulMonotone(x, t - 1, b);
    } else {
      MulMonotone(t, x, b);
    }
  }

  /** PageResponse.of: passes content, page, size and totalElements through
      and derives totalPages, first and last. */
  function Of<T>(content: seq<T>, page: int, size: int, totalElements: int): (r: PageResponse<T>)
    requires size > 0
    ensures r.content == content && r.page == page && r.size == size && r.totalElements == totalElements
    ensures r.totalPages == CeilDiv(totalElements, size)
    ensures (r.totalPages - 1) * size < totalElements <= r.totalPages * size
    ensures totalElements >= 0 ==> r.totalPages >= 0
    ensures r.first <==> page == 0
    ensures r.last <==> page + 1 >= r.totalPages
  {
    CeilDivBounds(totalElements, size);
    var totalPages := CeilDiv(totalElements, size);
    PageResponse(content, page, size, totalElements, totalPages, page == 0, page >= totalPages - 1)
  }

  /** An empty listing has no pages, and its page 0 is both first and last. */
  lemma OfEmpty<T>(size: int)
    requires size > 0
    ensures Of<T>([], 0, size, 0).totalPages == 0
    ensures Of<T>([], 0, size, 0).first && Of<T>([], 0, size, 0).last
  {
    CeilDivBounds(0, size);
  }

  /** 25 elements in pages of 10: three pages; page 0 is first and not last,
      page 2 is last and not first. */
  lemma OfTwentyFive<T>(content: seq<T>)
    ensures Of(content, 0, 10, 25).totalPages == 3
    ensures Of(content, 0, 10, 25).first && !Of(content, 0, 10, 25).last
    ensures !Of(content, 2, 10, 25).first && Of(content, 2, 10, 25).last
  {
    CeilDivUnique(25, 10, 3);
  }
}
