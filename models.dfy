/**
 * The records of internal/models/models.go that the handlers read and write,
 * and the two request/response records that internal/handlers/handlers.go
 * uses without their definition being shown (SongUpdateResponse and
 * SongsResponse), reconstructed from their uses. Creation timestamps are
 * set by the database clock and are not part of this model.
 */
module Models {
  import opened Dates

  /** models.Artist: a primary key and a unique name. */
  datatype Artist = Artist(id: nat, name: string)

  /** models.SongText: the verses in reading order. */
  datatype SongText = SongText(verses: seq<string>)

  /**
   * models.SongDetail. `text` is the stored lyrics as one string: the handlers
   * assign the JSON encoding of a SongText to it and read it back as raw text.
   */
  datatype SongDetail = SongDetail(
    id: nat,
    artistId: nat,
    groupName: string,
    songName: string,
    releaseDate: Time,
    text: string)

  /**
   * models.SongUpdateResponse, as decoded from an update request and as sent
   * back: every field is optional, "" (or the zero time, or no verses) meaning
   * "leave unchanged".
   */
  datatype SongUpdate = SongUpdate(
    artistName: string,
    songName: string,
    releaseDate: Time,
    groupLink: string,
    text: SongText)

  /** models.PaginatedLyricsResponse. */
  datatype PaginatedLyrics = PaginatedLyrics(
    songName: string,
    versePage: int,
    verseLimit: int,
    totalVerses: nat,
    verses: seq<string>)

  /** models.SongsResponse. */
  datatype SongsResponse = SongsResponse(
    totalItems: nat,
    page: int,
    limit: int,
    songs: seq<SongDetail>)
}
