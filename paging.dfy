/** The `from`/`size` paging parameters of the list endpoints.

    A client asks for rows starting at index `from`, `size` at a time; the
    controllers turn that into Spring's PageRequest.of(from / size, size). */
module PageParams {
  import opened Base

  /** validatePageParam: `from` and `size` must be non-negative and not both
      zero; the first violated rule decides the failure. */
  function ValidatePageParam(from: int, size: int): (o: Outcome)
    ensures o.Pass? <==> 0 <= from && 0 <= size && (from != 0 || size != 0)
    ensures from < 0 ==> o == Fail(NegativeFrom)
    ensures 0 <= from && size < 0 ==> o == Fail(NegativeSize)
    ensures from == 0 && size == 0 ==> o == Fail(ZeroFromAndSize)
    ensures o.Fail? ==> StatusOf(o.error) == HttpBadRequest
  {
    if from < 0 then Fail(NegativeFrom)
    else if size < 0 then Fail(NegativeSize)
    else if from == 0 && size == 0 then Fail(ZeroFromAndSize)
    else Pass
  }

  /** The rules do not exclude a zero size: from = 1, size = 0 passes. */
  lemma ZeroSizeAccepted()
    ensures ValidatePageParam(1, 0) == Pass
  {
  }
}

/** BookingController.findPageRequest (monolith): validation, then
    `page = from / size` in Java int arithmetic, then PageRequest.of. */
module BookingPaging {
  import opened Base
  import opened Seqs
  import opened PageParams

  /** findPageRequest. For `from >= 0` and `size > 0` Java's truncating
      division agrees with Dafny's. A positive `from` with `size == 0` passes
      validation and then divides by zero. */
  function FindPageRequest(from: int, size: int): (r: Result<PageRequest>)
    ensures r.Ok? ==> ValidatePageParam(from, size) == Pass && 0 < size
    ensures r.Ok? ==> r.value.size == size
    ensures r.Ok? ==> Offset(r.value) <= from < Offset(r.value) + size
    ensures ValidatePageParam(from, size).Fail? ==> r == Err(ValidatePageParam(from, size).error)
    ensures ValidatePageParam(from, size) == Pass && size == 0 ==> r == Err(DivisionByZero)
    ensures ValidatePageParam(from, size) == Pass && 0 < size ==> r.Ok?
  {
    match ValidatePageParam(from, size)
    case Fail(e) => Err(e)
    case Pass =>
      if size == 0 then Err(DivisionByZero)
      else
        var page := from / size;
        assert page * size <= from < page * size + size;
        Ok(PageRequest(page, size))
  }

  /** The page holds row `from` at position `from % size`; when `from` is a
      multiple of `size` the page starts exactly at `from`. */
  lemma PageStartsAtFrom<T(!new)>(rows: seq<T>, from: int, size: int)
    requires FindPageRequest(from, size).Ok?
    requires from < |rows|
    ensures Window(rows, FindPageRequest(from, size).value)[from % size] == rows[from]
    ensures from % size == 0 ==> Offset(FindPageRequest(from, size).value) == from
  {
    var p := FindPageRequest(from, size).value;
    assert p.page == from / size;
    assert Offset(p) + from % size == from;
  }

  /** The zero size that validation lets through makes findPageRequest fail. */
  lemma ZeroSizeDividesByZero()
    ensures FindPageRequest(1, 0) == Err(DivisionByZero)
  {
  }
}
