/**
 * The query-parameter logic of GetSongsHandler and GetSongLyricsHandler
 * (internal/handlers/handlers.go): defaulting of the page and page-size
 * parameters, and the choice of the listing filter from `field` and `value`.
 * The database query itself is a parameter: the model says which filter,
 * limit and offset it is given and what the response is built from.
 */
module Query {
  import opened Wrappers
  import opened Dates
  import opened Models

  /** Page size of the song listing when `limit` is absent or not a positive number. */
  const ListingLimitDefault: int := 10
  /** Page of the song listing when `page` is absent or not a positive number. */
  const ListingPageDefault: int := 1
  /** Page of the lyrics when `verse_page` is absent or not a positive number. */
  const VersePageDefault: int := 1
  /** Verses per page when `verse_limit` is absent or not a positive number. */
  const VerseLimitDefault: int := 3

  /**
   * The parameter after strconv.Atoi: the number when Atoi succeeded and gave
   * at least 1, the default when Atoi failed (`parsed` is None) or gave less.
   */
  function Coerce(parsed: Option<int>, default: int): (v: int)
    requires default >= 1
    ensures v >= 1
    ensures parsed.Some? && parsed.value >= 1 ==> v == parsed.value
    ensures parsed.None? || parsed.value < 1 ==> v == default
  {
    match parsed
    case Some(n) => if n < 1 then default else n
    case None => default
  }

  /** Coercing an already coerced value changes nothing. */
  lemma CoerceIdempotent(parsed: Option<int>, default: int)
    requires default >= 1
    ensures Coerce(Some(Coerce(parsed, default)), default) == Coerce(parsed, default)
  {
  }

  /** A page number and a page size, both at least 1. */
  datatype Paging = Paging(page: int, limit: int)

  predicate ValidPaging(p: Paging)
  {
    p.page >= 1 && p.limit >= 1
  }

  /** The number of items before the page. */
  function Offset(p: Paging): (o: int)
    requires ValidPaging(p)
    ensures o >= 0
  {
    (p.page - 1) * p.limit
  }

  /** The paging of the song listing: `limit` defaults to 10 and `page` to 1. */
  function ListingPaging(limitArg: Option<int>, pageArg: Option<int>): (p: Paging)
    ensures ValidPaging(p) && Offset(p) >= 0
    ensures p.limit == Coerce(limitArg, ListingLimitDefault)
    ensures p.page == Coerce(pageArg, ListingPageDefault)
  {
    Paging(Coerce(pageArg, ListingPageDefault), Coerce(limitArg, ListingLimitDefault))
  }

  /** The paging of the lyrics: `verse_page` defaults to 1 and `verse_limit` to 3. */
  function LyricsPaging(pageArg: Option<int>, limitArg: Option<int>): (p: Paging)
    ensures ValidPaging(p) && Offset(p) >= 0
    ensures p.page == Coerce(pageArg, VersePageDefault)
    ensures p.limit == Coerce(limitArg, VerseLimitDefault)
  {
    Paging(Coerce(pageArg, VersePageDefault), Coerce(limitArg, VerseLimitDefault))
  }

  /** Without usable parameters the listing shows the first ten songs. */
  lemma ListingDefaults(limitArg: Option<int>, pageArg: Option<int>)
    requires limitArg.None? || limitArg.value < 1
    requires pageArg.None? || pageArg.value < 1
    ensures ListingPaging(limitArg, pageArg) == Paging(1, 10)
    ensures Offset(ListingPaging(limitArg, pageArg)) == 0
  {
  }

  /** Without usable parameters the lyrics show the first three verses. */
  lemma LyricsDefaults(pageArg: Option<int>, limitArg: Option<int>)
    requires pageArg.None? || pageArg.value < 1
    requires limitArg.None? || limitArg.value < 1
    ensures LyricsPaging(pageArg, limitArg) == Paging(1, 3)
  {
  }

  /** The next page starts where the previous one ends. */
  lemma OffsetNextPage(p: Paging)
    requires ValidPaging(p)
    ensures Offset(Paging(p.page + 1, p.limit)) == Offset(p) + p.limit
  {
  }

  /**
   * The predicate the listing query gets: none, a case-insensitive pattern
   * on the song name, a case-insensitive pattern on the joined artist's name,
   * an exact release date, or a rejection of the request with 400.
   */
  datatype Filter =
    | NoFilter
    | SongNameILike(pattern: string)
    | ArtistNameILike(pattern: string)
    | ReleaseDateEq(date: Time)
    | Reject

  /** The fields the listing can filter on. */
  predicate KnownField(field: string)
  {
    field == "song_name" || field == "artist_name" || field == "release_date"
  }

  /** The ILIKE pattern that matches any name containing `value`. */
  function Containing(value: string): (p: string)
    ensures |p| == |value| + 2 && p[0] == '%' && p[|p| - 1] == '%'
    ensures p[1..|p| - 1] == value
  {
    "%" + value + "%"
  }

  /** The filter selected from the `field` and `value` query parameters. */
  function SelectFilter(field: string, value: string): (f: Filter)
    ensures f.NoFilter? <==>
      field == "" || value == "" || (field == "release_date" && ParseDate(value).None?)
    ensures f.Reject? <==> field != "" && value != "" && !KnownField(field)
    ensures f.SongNameILike? <==> field == "song_name" && value != ""
    ensures f.ArtistNameILike? <==> field == "artist_name" && value != ""
    ensures f.ReleaseDateEq? <==> field == "release_date" && ParseDate(value).Some?
    ensures f.SongNameILike? ==> f.pattern == value
    ensures f.ArtistNameILike? ==> f.pattern == Containing(value)
    ensures f.ReleaseDateEq? ==> f.date == Midnight(ParseDate(value).value)
  {
    if field != "" && value != "" then
      if field == "song_name" then SongNameILike(value)
      else if field == "artist_name" then ArtistNameILike(Containing(value))
      else if field == "release_date" then
        match ParseDate(value)
        case Some(d) => ReleaseDateEq(Midnight(d))
        case None => NoFilter
      else Reject
    else NoFilter
  }

  /** A release date filter always compares with a real calendar date at midnight. */
  lemma ReleaseDateFilterValid(field: string, value: string)
    requires SelectFilter(field, value).ReleaseDateEq?
    ensures ValidDate(SelectFilter(field, value).date.date)
    ensures SelectFilter(field, value).date.clock == 0
    ensures FormatDate(SelectFilter(field, value).date.date) == value
  {
    FormatParse(value);
  }

  /** A release date written in the layout selects exactly that date. */
  lemma ReleaseDateFilterOf(d: Date)
    requires ValidDate(d)
    ensures SelectFilter("release_date", FormatDate(d)) == ReleaseDateEq(Midnight(d))
  {
    ParseFormat(d);
  }

  /** The outcome of the listing: 400 for an unknown filter field, or a page of songs. */
  datatype ListingResult = InvalidField | Listed(response: SongsResponse)

  /**
   * GetSongsHandler after the query parameters are read. `fetch` is the
   * database query: given the filter, the limit and the offset it returns the
   * songs of that page.
   */
  function ListSongs(
    field: string, value: string, limitArg: Option<int>, pageArg: Option<int>,
    fetch: (Filter, int, int) -> seq<SongDetail>): (r: ListingResult)
    ensures r.InvalidField? <==> SelectFilter(field, value).Reject?
    ensures r.Listed? ==>
      var p := ListingPaging(limitArg, pageArg);
      && r.response.songs == fetch(SelectFilter(field, value), p.limit, Offset(p))
      && r.response.totalItems == |r.response.songs|
      && r.response.page == p.page && r.response.limit == p.limit
  {
    var p := ListingPaging(limitArg, pageArg);
    var f := SelectFilter(field, value);
    if f.Reject? then InvalidField
    else
      var songs := fetch(f, p.limit, Offset(p));
      Listed(SongsResponse(|songs|, p.page, p.limit, songs))
  }

  /**
   * TotalItems counts the songs of the returned page, not all matching songs:
   * a query that honours its limit never reports more than that limit.
   */
  lemma TotalItemsWithinLimit(
    field: string, value: string, limitArg: Option<int>, pageArg: Option<int>,
    fetch: (Filter, int, int) -> seq<SongDetail>)
    requires forall f, l, o :: |fetch(f, l, o)| <= l
    requires ListSongs(field, value, limitArg, pageArg, fetch).Listed?
    ensures ListSongs(field, value, limitArg, pageArg, fetch).response.totalItems
      <= ListingPaging(limitArg, pageArg).limit
  {
  }
}
