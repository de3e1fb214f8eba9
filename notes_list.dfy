/** `list_notes`: how the query parameters of a listing are normalised before
    they reach the database — page and page size clamped, the offset derived,
    the sort column whitelisted, the order chosen — which filters the query
    applies, and how an item's tags are reported. Instants are integers. */
module NotesList {
  import opened Wrappers
  import opened Ids
  import opened Text

  const I64_MIN := -0x8000_0000_0000_0000
  const I64_MAX := 0x7FFF_FFFF_FFFF_FFFF
  type I64 = x: int | I64_MIN <= x <= I64_MAX

  const MAX_PAGE_SIZE := 100

  function DefaultPage(): I64 { 1 }
  function DefaultPageSize(): I64 { 20 }
  function DefaultSort(): string { "created_at" }
  function DefaultOrder(): string { "desc" }

  /** The query string after deserialisation; the instants bound the creation
      time of the notes listed. */
  datatype NoteQueryParams = NoteQueryParams(
    page: I64,
    pageSize: I64,
    search: Option<string>,
    from: Option<int>,
    to: Option<int>,
    sort: string,
    order: string,
    tag: Option<string>)

  /** Deserialisation: an absent `page`, `page_size`, `sort` or `order` takes
      its default; the other parameters stay optional. */
  function FromQuery(page: Option<I64>, pageSize: Option<I64>, search: Option<string>,
                     from: Option<int>, to: Option<int>, sort: Option<string>,
                     order: Option<string>, tag: Option<string>): (p: NoteQueryParams)
    ensures p.page == (if page.Some? then page.value else DefaultPage())
    ensures p.pageSize == (if pageSize.Some? then pageSize.value else DefaultPageSize())
    ensures p.sort == (if sort.Some? then sort.value else DefaultSort())
    ensures p.order == (if order.Some? then order.value else DefaultOrder())
    ensures p.search == search && p.from == from && p.to == to && p.tag == tag
  {
    NoteQueryParams(
      if page.Some? then page.value else DefaultPage(),
      if pageSize.Some? then pageSize.value else DefaultPageSize(),
      search, from, to,
      if sort.Some? then sort.value else DefaultSort(),
      if order.Some? then order.value else DefaultOrder(),
      tag)
  }

  /** `page.max(1)`. */
  function EffectivePage(page: I64): (r: I64)
    ensures 1 <= r && page <= r
    ensures r == page || r == 1
  {
    if page < 1 then 1 else page
  }

  /** `page_size.clamp(1, 100)`. */
  function EffectivePageSize(pageSize: I64): (r: I64)
    ensures 1 <= r <= MAX_PAGE_SIZE
    ensures 1 <= pageSize <= MAX_PAGE_SIZE ==> r == pageSize
    ensures pageSize < 1 ==> r == 1
    ensures MAX_PAGE_SIZE < pageSize ==> r == MAX_PAGE_SIZE
  {
    if pageSize < 1 then 1 else if MAX_PAGE_SIZE < pageSize then MAX_PAGE_SIZE else pageSize
  }

  /** Two's-complement wrap-around of a 64-bit signed result. */
  function Wrap64(x: int): (r: I64)
    ensures I64_MIN <= x <= I64_MAX ==> r == x
    ensures (r - x) % 0x1_0000_0000_0000_0000 == 0
  {
    (x - I64_MIN) % 0x1_0000_0000_0000_0000 + I64_MIN
  }

  /** `(page - 1) * page_size` as written, in 64-bit arithmetic that wraps on
      overflow. */
  function OffsetAsWritten(page: I64, pageSize: I64): I64
    requires 1 <= page && 1 <= pageSize <= MAX_PAGE_SIZE
  {
    Wrap64(Wrap64(page - 1) * pageSize)
  }

  /** The largest page whose offset is still a 64-bit value is
      `I64_MAX / page_size + 1`; beyond it the written product wraps to a
      negative offset. */
  lemma OffsetAsWrittenGoesNegative()
    ensures OffsetAsWritten(I64_MAX, 100) == -200
  {
  }

  /** The offset with the product held inside 64 bits: beyond the last page
      that can be addressed it stays at that page's offset. */
  function Offset(page: I64, pageSize: I64): (r: I64)
    requires 1 <= page && 1 <= pageSize <= MAX_PAGE_SIZE
    ensures 0 <= r
    ensures r % pageSize == 0
    ensures page == 1 ==> r == 0
    // exactly the written product whenever that product is a 64-bit value
    ensures (page - 1) * pageSize <= I64_MAX ==> r == (page - 1) * pageSize
  {
    var lastPage := I64_MAX / pageSize;
    var index := if page - 1 <= lastPage then page - 1 else lastPage;
    MulBound(index, lastPage, pageSize);
    MulExceeds(page - 1, lastPage, pageSize);
    index * pageSize
  }

  /** Where the product fits, the corrected offset is the written one. */
  lemma OffsetAgreesWhenNoOverflow(page: I64, pageSize: I64)
    requires 1 <= page && 1 <= pageSize <= MAX_PAGE_SIZE
    requires (page - 1) * pageSize <= I64_MAX
    ensures Offset(page, pageSize) == OffsetAsWritten(page, pageSize)
  {
  }

  lemma MulBound(k: nat, lastPage: nat, pageSize: nat)
    requires 1 <= pageSize && k <= lastPage && lastPage == I64_MAX / pageSize
    ensures 0 <= k * pageSize <= I64_MAX
    ensures (k * pageSize) % pageSize == 0
  {
    assert k * pageSize <= lastPage * pageSize;
    assert lastPage * pageSize <= I64_MAX;
    MulMod(k, pageSize);
  }

  lemma MulExceeds(k: nat, lastPage: nat, pageSize: nat)
    requires 1 <= pageSize && lastPage == I64_MAX / pageSize
    ensures lastPage < k ==> I64_MAX < k * pageSize
  {
    if lastPage < k {
      assert (lastPage + 1) * pageSize <= k * pageSize;
    }
  }

  lemma MulMod(k: nat, p: int)
    requires 1 <= p
    ensures (k * p) % p == 0
  {
    var q, r := (k * p) / p, (k * p) % p;
    assert k * p == p * q + r;
    assert p * (k - q) == r;
    if k - q >= 1 {
      MulAtLeast(p, k - q);
    } else if k - q <= -1 {
      MulAtLeast(p, q - k);
    }
  }

  lemma MulAtLeast(p: int, m: int)
    requires 1 <= p && 1 <= m
    ensures p <= p * m
  {
  }

  /** Successive pages do not overlap: each starts one page after the last. */
  lemma {:induction false} PagesAreConsecutive(page: I64, pageSize: I64)
    requires 1 <= page < I64_MAX && 1 <= pageSize <= MAX_PAGE_SIZE
    requires page * pageSize <= I64_MAX
    ensures Offset(page + 1, pageSize) == Offset(page, pageSize) + pageSize
  {
    assert (page - 1) * pageSize <= page * pageSize;
    assert (page + 1 - 1) * pageSize == (page - 1) * pageSize + pageSize;
  }

  predicate IsSortColumn(field: string) {
    field == "title" || field == "created_at" || field == "updated_at"
  }

  /** `validate_sort_field`: a whitelisted column is kept, anything else sorts
      by creation time. */
  function ValidateSortField(field: string): (r: string)
    ensures IsSortColumn(r)
    ensures IsSortColumn(field) ==> r == field
    ensures !IsSortColumn(field) ==> r == DefaultSort()
  {
    match field
    case "title" => "title"
    case "created_at" => "created_at"
    case "updated_at" => "updated_at"
    case _ => "created_at"
  }

  /** Whitelisting is idempotent, so only whitelisted text ever reaches the
      `ORDER BY` clause. */
  lemma ValidateSortFieldIdempotent(field: string)
    ensures ValidateSortField(ValidateSortField(field)) == ValidateSortField(field)
  {
  }

  /** The order: ascending exactly when the parameter, lower-cased, reads "asc". */
  function SortOrder(order: string): (r: string)
    ensures r == "ASC" || r == "DESC"
    ensures r == "ASC" <==> ToLowercase(order) == "asc"
  {
    if ToLowercase(order) == "asc" then "ASC" else "DESC"
  }

  /** Any capitalisation of "asc" sorts ascending; the default sorts descending. */
  lemma SortOrderIgnoresCase()
    ensures SortOrder("ASC") == "ASC" && SortOrder("Asc") == "ASC" && SortOrder("asc") == "ASC"
    ensures SortOrder(DefaultOrder()) == "DESC"
  {
    assert ToLowercase("ASC") == "asc" by { LowercaseOfAsc("ASC"); }
    assert ToLowercase("Asc") == "asc" by { LowercaseOfAsc("Asc"); }
    assert ToLowercase("asc") == "asc" by { LowercaseOfAsc("asc"); }
    assert ToLowercase("desc")[0] == 'd';
  }

  lemma LowercaseOfAsc(s: string)
    requires |s| == 3
    requires s[0] in {'a', 'A'} && s[1] in {'s', 'S'} && s[2] in {'c', 'C'}
    ensures ToLowercase(s) == "asc"
  {
    var l := ToLowercase(s);
    assert l[0] == 'a' && l[1] == 's' && l[2] == 'c';
  }

  /** The `WHERE` conditions both queries (the count and the page) build. */
  datatype QueryFilters = QueryFilters(
    joinTags: bool,
    textSearch: Option<string>,
    createdFrom: Option<int>,
    createdTo: Option<int>,
    tagName: Option<string>)

  /** Filter selection: the tag tables are joined and filtered iff a tag is
      given; full-text search applies only to a non-empty term; the date
      bounds apply when given. */
  function SelectFilters(p: NoteQueryParams): (f: QueryFilters)
    ensures f.joinTags <==> p.tag.Some?
    ensures f.tagName == p.tag
    ensures f.textSearch.Some? <==> p.search.Some? && p.search.value != ""
    ensures f.textSearch.Some? ==> f.textSearch == p.search
    ensures f.createdFrom == p.from && f.createdTo == p.to
  {
    QueryFilters(
      p.tag.Some?,
      if p.search.Some? && p.search.value != "" then p.search else None,
      p.from,
      p.to,
      p.tag)
  }

  /** A note as the listing sees it, with the names of its tags. */
  datatype ListedNote = ListedNote(noteId: Uuid, userId: Uuid, title: string, content: string,
                                   createdAt: int, updatedAt: int, tags: seq<string>)

  /** Whether a note belongs in the listing of `userId`. `textMatches(doc, term)`
      stands for PostgreSQL's English full-text match of the term against
      the title and content joined by a space. */
  predicate Selected(f: QueryFilters, userId: Uuid, n: ListedNote, textMatches: (string, string) -> bool) {
    && n.userId == userId
    && (f.textSearch.Some? ==> textMatches(n.title + " " + n.content, f.textSearch.value))
    && (f.createdFrom.Some? ==> f.createdFrom.value <= n.createdAt)
    && (f.createdTo.Some? ==> n.createdAt <= f.createdTo.value)
    && (f.tagName.Some? ==> f.tagName.value in n.tags)
  }

  /** An empty search term selects exactly what no search term selects. */
  lemma EmptySearchSelectsAll(p: NoteQueryParams, userId: Uuid, n: ListedNote, textMatches: (string, string) -> bool)
    requires p.search == Some("")
    ensures Selected(SelectFilters(p), userId, n, textMatches) ==
            Selected(SelectFilters(p.(search := None)), userId, n, textMatches)
  {
  }

  /** Without any filter, every note of the user and only those are listed. */
  lemma NoFilterSelectsOwnNotes(p: NoteQueryParams, userId: Uuid, n: ListedNote, textMatches: (string, string) -> bool)
    requires p.search.None? && p.from.None? && p.to.None? && p.tag.None?
    ensures Selected(SelectFilters(p), userId, n, textMatches) <==> n.userId == userId
  {
  }

  /** An item's `tags`: absent when the note has none (and then left out of
      the JSON), otherwise the names in the order the query returned them. */
  function TagsField(tags: seq<string>): (r: Option<seq<string>>)
    ensures r.None? <==> tags == []
    ensures r.Some? ==> r.value == tags
  {
    if tags == [] then None else Some(tags)
  }

  /** The normalised request: the page, its size and offset, the column and
      direction to sort by, and the filters. */
  datatype ListPlan = ListPlan(page: I64, pageSize: I64, offset: I64, sortField: string,
                               order: string, filters: QueryFilters)

  function Normalise(p: NoteQueryParams): (plan: ListPlan)
    ensures 1 <= plan.page && 1 <= plan.pageSize <= MAX_PAGE_SIZE
    ensures plan.page == EffectivePage(p.page) && plan.pageSize == EffectivePageSize(p.pageSize)
    ensures 0 <= plan.offset && plan.offset % plan.pageSize == 0
    ensures plan.offset == Offset(plan.page, plan.pageSize)
    ensures IsSortColumn(plan.sortField) && plan.sortField == ValidateSortField(p.sort)
    ensures plan.order == SortOrder(p.order)
    ensures plan.filters == SelectFilters(p)
  {
    var page := EffectivePage(p.page);
    var pageSize := EffectivePageSize(p.pageSize);
    ListPlan(page, pageSize, Offset(page, pageSize), ValidateSortField(p.sort), SortOrder(p.order), SelectFilters(p))
  }

  /** A request without parameters lists the first twenty notes, newest first. */
  lemma DefaultsListNewestFirst()
    ensures var plan := Normalise(FromQuery(None, None, None, None, None, None, None, None));
            && plan.page == 1 && plan.pageSize == 20 && plan.offset == 0
            && plan.sortField == "created_at" && plan.order == "DESC"
            && !plan.filters.joinTags && plan.filters.textSearch.None?
  {
    assert ToLowercase(DefaultOrder())[0] == 'd';
  }

  /** An oversized page size is cut to 100 and a zero one raised to 1. */
  lemma PageSizeClamped()
    ensures EffectivePageSize(200) == 100 && EffectivePageSize(0) == 1
  {
  }

  /** The response body: the page of notes, the normalised page and size,
      and the total number of matching notes. */
  datatype NoteListResponse = NoteListResponse(notes: seq<ListedNote>, page: I64, pageSize: I64, totalCount: I64)

  function ListResponse(plan: ListPlan, notes: seq<ListedNote>, totalCount: I64): NoteListResponse {
    NoteListResponse(notes, plan.page, plan.pageSize, totalCount)
  }

  /** The response reports the page and size actually used, not the ones
      requested. */
  lemma ResponseEchoesNormalised(p: NoteQueryParams, notes: seq<ListedNote>, totalCount: I64)
    ensures var r := ListResponse(Normalise(p), notes, totalCount);
            && r.page == EffectivePage(p.page) && 1 <= r.page
            && r.pageSize == EffectivePageSize(p.pageSize) && 1 <= r.pageSize <= MAX_PAGE_SIZE
            && r.notes == notes && r.totalCount == totalCount
  {
  }
}
