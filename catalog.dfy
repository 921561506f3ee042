/**
 * The song catalog behind AddSongHandler, DeleteSongHandler,
 * UpdateSongHandler and GetSongLyricsHandler (internal/handlers/handlers.go).
 * The two tables the handlers touch, artists and song_details, are held in
 * memory in primary-key order, with the next key of each table's
 * auto-increment. A `Where(...).First(...)` lookup is the first row in that
 * order that matches, which is the matching row with the smallest key.
 *
 * Each handler is a method of Store that follows the handler step by step;
 * its contract ties the new tables and the response to a function of the old
 * tables (Add, Delete, Update), and the lemmas below state what those
 * functions promise.
 */
module Catalog {
  import opened Wrappers
  import opened Dates
  import opened Models
  import opened Query
  import opened Lyrics

  /** The two tables and their next primary keys. */
  datatype Db = Db(artists: seq<Artist>, songs: seq<SongDetail>, nextArtistId: nat, nextSongId: nat)

  /** Rows are kept in increasing primary-key order, and every key is below the next one. */
  predicate ArtistKeys(artists: seq<Artist>, next: nat)
  {
    (forall i, j :: 0 <= i < j < |artists| ==> artists[i].id < artists[j].id) &&
    (forall i :: 0 <= i < |artists| ==> artists[i].id < next)
  }

  predicate SongKeys(songs: seq<SongDetail>, next: nat)
  {
    (forall i, j :: 0 <= i < j < |songs| ==> songs[i].id < songs[j].id) &&
    (forall i :: 0 <= i < |songs| ==> songs[i].id < next)
  }

  /** The `unique` constraint on the artist name. */
  predicate UniqueNames(artists: seq<Artist>)
  {
    forall i, j :: 0 <= i < j < |artists| ==> artists[i].name != artists[j].name
  }

  /** Some artist row carries the key `id`. */
  predicate KnownArtist(artists: seq<Artist>, id: nat)
  {
    exists j :: 0 <= j < |artists| && artists[j].id == id
  }

  /** Every song refers to an artist that exists. */
  predicate ArtistRefs(songs: seq<SongDetail>, artists: seq<Artist>)
  {
    forall i :: 0 <= i < |songs| ==> KnownArtist(artists, songs[i].artistId)
  }

  predicate ValidDb(d: Db)
  {
    ArtistKeys(d.artists, d.nextArtistId) && UniqueNames(d.artists) &&
    SongKeys(d.songs, d.nextSongId) && ArtistRefs(d.songs, d.artists)
  }

  /** The database a fresh migration leaves: empty tables whose keys start at 1. */
  const EmptyDb: Db := Db([], [], 1, 1)

  /** `Where("name = ?", name).First(&artist)`: the index of the artist with that name. */
  function FindArtist(artists: seq<Artist>, name: string): (r: Option<nat>)
    ensures r.Some? ==> r.value < |artists| && artists[r.value].name == name
    ensures r.Some? ==> forall j :: 0 <= j < r.value ==> artists[j].name != name
    ensures r.None? <==> forall j :: 0 <= j < |artists| ==> artists[j].name != name
  {
    if artists == [] then None
    else if artists[0].name == name then Some(0)
    else
      match FindArtist(artists[1..], name)
      case None => None
      case Some(i) => Some(i + 1)
  }

  /**
   * The song filter of the handlers: `song_name = ?`, and with `artist` present
   * also `artist_id = ?`.
   */
  predicate SongMatches(s: SongDetail, name: string, artist: Option<nat>)
  {
    s.songName == name && (artist.None? || s.artistId == artist.value)
  }

  /** `Where(...).First(&song)` with the filter of SongMatches: the index of the first match. */
  function FindSong(songs: seq<SongDetail>, name: string, artist: Option<nat>): (r: Option<nat>)
    ensures r.Some? ==> r.value < |songs| && SongMatches(songs[r.value], name, artist)
    ensures r.Some? ==> forall j :: 0 <= j < r.value ==> !SongMatches(songs[j], name, artist)
    ensures r.None? <==> forall j :: 0 <= j < |songs| ==> !SongMatches(songs[j], name, artist)
  {
    if songs == [] then None
    else if SongMatches(songs[0], name, artist) then Some(0)
    else
      match FindSong(songs[1..], name, artist)
      case None => None
      case Some(i) => Some(i + 1)
  }

  /** The row First returns is the matching row with the smallest primary key. */
  lemma FirstIsSmallestKey(songs: seq<SongDetail>, next: nat, name: string, artist: Option<nat>)
    requires SongKeys(songs, next) && FindSong(songs, name, artist).Some?
    ensures forall j :: 0 <= j < |songs| && SongMatches(songs[j], name, artist) ==>
      songs[FindSong(songs, name, artist).value].id <= songs[j].id
  {
  }

  // ---------------------------------------------------------------- adding

  /** AddSongHandler's outcomes: 409 when the artist already has a song of that name, 201 with the new row. */
  datatype AddResult = Conflict | Created(song: SongDetail)

  /**
   * AddSongHandler on a decoded `{group, song}` body: the artist named `group`
   * is looked up and created when missing, then the song is refused when that
   * artist already has one with the same name, and otherwise inserted with
   * only its name, its artist and `group` as group name.
   */
  function Add(d: Db, group: string, song: string): (Db, AddResult)
  {
    var (d1, artist) := WithArtist(d, group);
    if FindSong(d1.songs, song, Some(artist.id)).Some? then (d1, Conflict)
    else
      var s := SongDetail(d1.nextSongId, artist.id, group, song, ZeroTime, "");
      (d1.(songs := d1.songs + [s], nextSongId := d1.nextSongId + 1), Created(s))
  }

  /** The first step of AddSongHandler: the artist named `group`, created under the next key when missing. */
  function WithArtist(d: Db, group: string): (Db, Artist)
  {
    match FindArtist(d.artists, group)
    case Some(i) => (d, d.artists[i])
    case None =>
      var a := Artist(d.nextArtistId, group);
      (d.(artists := d.artists + [a], nextArtistId := d.nextArtistId + 1), a)
  }

  /** Adding keeps the keys ordered and fresh, the names unique and the references valid. */
  lemma AddValid(d: Db, group: string, song: string)
    requires ValidDb(d)
    ensures ValidDb(Add(d, group, song).0)
  {
    var d' := Add(d, group, song).0;
    match FindArtist(d.artists, group)
    case Some(i) =>
      assert d'.artists == d.artists && d'.nextArtistId == d.nextArtistId;
      if d'.songs != d.songs {
        SongKeysAppend(d.songs, d.nextSongId, d'.songs[|d.songs|]);
        assert d'.artists[i].id == d'.songs[|d.songs|].artistId;
        ArtistRefsAppendSong(d.songs, d'.artists, d'.songs[|d.songs|]);
      }
    case None =>
      ArtistKeysAppend(d.artists, d.nextArtistId, group);
      ArtistRefsAppendArtist(d.songs, d.artists, Artist(d.nextArtistId, group));
      if d'.songs != d.songs {
        SongKeysAppend(d.songs, d.nextSongId, d'.songs[|d.songs|]);
        assert d'.artists[|d.artists|].id == d'.songs[|d.songs|].artistId;
        ArtistRefsAppendSong(d.songs, d'.artists, d'.songs[|d.songs|]);
      }
  }

  /** A new artist row keeps every song's artist existing. */
  lemma ArtistRefsAppendArtist(songs: seq<SongDetail>, artists: seq<Artist>, a: Artist)
    requires ArtistRefs(songs, artists)
    ensures ArtistRefs(songs, artists + [a])
  {
    forall i | 0 <= i < |songs| ensures KnownArtist(artists + [a], songs[i].artistId) {
      var j :| 0 <= j < |artists| && artists[j].id == songs[i].artistId;
      assert (artists + [a])[j] == artists[j];
    }
  }

  /** A new song whose artist exists keeps every song's artist existing. */
  lemma ArtistRefsAppendSong(songs: seq<SongDetail>, artists: seq<Artist>, s: SongDetail)
    requires ArtistRefs(songs, artists) && KnownArtist(artists, s.artistId)
    ensures ArtistRefs(songs + [s], artists)
  {
    assert forall i :: 0 <= i < |songs| ==> (songs + [s])[i] == songs[i];
  }

  /** A new artist under the next key keeps the artist keys ordered and the names unique when the name is new. */
  lemma ArtistKeysAppend(artists: seq<Artist>, next: nat, name: string)
    requires ArtistKeys(artists, next) && UniqueNames(artists)
    requires forall j :: 0 <= j < |artists| ==> artists[j].name != name
    ensures ArtistKeys(artists + [Artist(next, name)], next + 1)
    ensures UniqueNames(artists + [Artist(next, name)])
  {
  }

  /** A new song under the next key keeps the song keys ordered. */
  lemma SongKeysAppend(songs: seq<SongDetail>, next: nat, s: SongDetail)
    requires SongKeys(songs, next) && s.id == next
    ensures SongKeys(songs + [s], next + 1)
  {
  }

  /** 409 exactly when an artist named `group` already has a song named `song`. */
  lemma AddConflictIff(d: Db, group: string, song: string)
    requires ValidDb(d)
    ensures Add(d, group, song).1.Conflict? <==>
      exists i, j :: 0 <= i < |d.artists| && 0 <= j < |d.songs| &&
        d.artists[i].name == group && d.songs[j].songName == song && d.songs[j].artistId == d.artists[i].id
  {
    match FindArtist(d.artists, group)
    case None =>
    case Some(i) =>
      var id := d.artists[i].id;
      if Add(d, group, song).1.Conflict? {
        var j := FindSong(d.songs, song, Some(id)).value;
        assert d.songs[j].songName == song && d.songs[j].artistId == d.artists[i].id;
      } else {
        forall i', j | 0 <= i' < |d.artists| && 0 <= j < |d.songs| && d.artists[i'].name == group && d.songs[j].songName == song
          ensures d.songs[j].artistId != d.artists[i'].id
        {
          assert i' == i;
          assert !SongMatches(d.songs[j], song, Some(id));
        }
      }
  }

  /**
   * A refused song leaves the tables as they were: a conflict needs an
   * existing song of the artist, so the artist was not created by this call.
   */
  lemma AddConflictUnchanged(d: Db, group: string, song: string)
    requires ValidDb(d)
    requires Add(d, group, song).1.Conflict?
    ensures Add(d, group, song).0 == d
  {
  }

  /**
   * A created song is one new row at the end of song_details, carrying the
   * next key, the key of the artist named `group`, the song name and `group`
   * as group name; the artist table gains one row exactly when no artist had
   * that name.
   */
  lemma AddCreated(d: Db, group: string, song: string)
    requires Add(d, group, song).1.Created?
    ensures var (d', r) := Add(d, group, song);
      && d'.songs == d.songs + [r.song]
      && r.song.id == d.nextSongId && r.song.songName == song && r.song.groupName == group
      && r.song.releaseDate == ZeroTime && r.song.text == ""
      && d'.nextSongId == d.nextSongId + 1
      && FindArtist(d'.artists, group).Some?
      && d'.artists[FindArtist(d'.artists, group).value].id == r.song.artistId
      && (FindArtist(d.artists, group).None? <==> d'.artists == d.artists + [Artist(d.nextArtistId, group)])
      && (FindArtist(d.artists, group).Some? <==> d'.artists == d.artists)
  {
    var d' := Add(d, group, song).0;
    if FindArtist(d.artists, group).None? {
      assert d'.artists[|d.artists|].name == group;
      assert d'.artists != d.artists;
    } else {
      assert d'.artists != d.artists + [Artist(d.nextArtistId, group)];
    }
  }

  // -------------------------------------------------------------- deleting

  /** DeleteSongHandler's outcomes: 404 when no song has the name, 204 after the row is removed. */
  datatype DeleteResult = NotFound | Deleted(song: SongDetail)

  /** DeleteSongHandler: the first song named `name` is removed; the artists stay. */
  function Delete(d: Db, name: string): (Db, DeleteResult)
  {
    match FindSong(d.songs, name, None)
    case None => (d, NotFound)
    case Some(i) => (d.(songs := d.songs[..i] + d.songs[i + 1..]), Deleted(d.songs[i]))
  }

  /** 404 exactly when no song has the name, and then nothing changes. */
  lemma DeleteNotFound(d: Db, name: string)
    ensures Delete(d, name).1.NotFound? <==> forall j :: 0 <= j < |d.songs| ==> d.songs[j].songName != name
    ensures Delete(d, name).1.NotFound? ==> Delete(d, name).0 == d
  {
    if Delete(d, name).1.NotFound? {
      forall j | 0 <= j < |d.songs| ensures d.songs[j].songName != name {
        assert !SongMatches(d.songs[j], name, None);
      }
    }
  }

  /**
   * A deletion removes exactly one row, one named `name` with the smallest
   * key among those so named, and keeps every other row in order, the
   * artists and the key counters.
   */
  lemma DeleteRemovesOne(d: Db, name: string)
    requires SongKeys(d.songs, d.nextSongId)
    requires Delete(d, name).1.Deleted?
    ensures var (d', r) := Delete(d, name);
      && r.song.songName == name
      && (forall j :: 0 <= j < |d.songs| && d.songs[j].songName == name ==> r.song.id <= d.songs[j].id)
      && |d'.songs| == |d.songs| - 1
      && multiset(d.songs) == multiset(d'.songs) + multiset{r.song}
      && r.song !in d'.songs
      && d'.artists == d.artists
      && d'.nextArtistId == d.nextArtistId && d'.nextSongId == d.nextSongId
  {
    var i := FindSong(d.songs, name, None).value;
    forall j | 0 <= j < |d.songs| && d.songs[j].songName == name ensures d.songs[i].id <= d.songs[j].id {
      assert SongMatches(d.songs[j], name, None);
    }
    RemoveAt(d.songs, d.nextSongId, i);
  }

  /** Removing the row at `i` leaves one row fewer, the same rows but that one, and none equal to it. */
  lemma RemoveAt(songs: seq<SongDetail>, next: nat, i: nat)
    requires i < |songs| && SongKeys(songs, next)
    ensures var rest := songs[..i] + songs[i + 1..];
      && |rest| == |songs| - 1
      && multiset(songs) == multiset(rest) + multiset{songs[i]}
      && songs[i] !in rest
  {
    var rest := songs[..i] + songs[i + 1..];
    assert songs == songs[..i] + [songs[i]] + songs[i + 1..];
    forall k | 0 <= k < |rest| ensures rest[k] != songs[i] {
      if k < i {
        assert rest[k] == songs[k];
      } else {
        assert rest[k] == songs[k + 1];
      }
    }
  }

  /** Deleting keeps the tables valid. */
  lemma DeleteValid(d: Db, name: string)
    requires ValidDb(d)
    ensures ValidDb(Delete(d, name).0)
  {
    match FindSong(d.songs, name, None)
    case None =>
    case Some(i) =>
      RemoveKeepsSongs(d.songs, d.nextSongId, d.artists, i);
  }

  /** Removing one row keeps the song keys ordered and the artist references valid. */
  lemma RemoveKeepsSongs(songs: seq<SongDetail>, next: nat, artists: seq<Artist>, i: nat)
    requires i < |songs| && SongKeys(songs, next) && ArtistRefs(songs, artists)
    ensures SongKeys(songs[..i] + songs[i + 1..], next) && ArtistRefs(songs[..i] + songs[i + 1..], artists)
  {
    var s := songs[..i] + songs[i + 1..];
    assert forall k :: 0 <= k < |s| ==> s[k] == songs[if k < i then k else k + 1];
  }

  /** Adding a song under a name no song had yet and deleting that name restores the song table. */
  lemma AddThenDelete(d: Db, group: string, song: string)
    requires forall j :: 0 <= j < |d.songs| ==> d.songs[j].songName != song
    ensures Add(d, group, song).1.Created?
    ensures var d' := Delete(Add(d, group, song).0, song).0;
      d'.songs == d.songs && d'.artists == Add(d, group, song).0.artists
  {
    var d1 := Add(d, group, song).0;
    assert FindSong(d1.songs, song, None) == Some(|d.songs|) by {
      assert d1.songs[|d.songs|].songName == song;
      assert forall j :: 0 <= j < |d.songs| ==> d1.songs[j] == d.songs[j];
    }
    assert d1.songs[..|d.songs|] == d.songs;
  }

  // -------------------------------------------------------------- updating

  /** UpdateSongHandler's outcomes: 404 song, 400 undecodable body, 400 nothing to update, 404 artist, 200. */
  datatype UpdateResult = SongNotFound | BadRequest | NoFields | ArtistNotFound | Updated(response: SongUpdate)

  /**
   * The body asks for nothing the handler accepts: no song name, no artist
   * name, no group link and no verses. The release date is not consulted.
   */
  predicate NothingToUpdate(u: SongUpdate)
  {
    u.songName == "" && u.artistName == "" && u.groupLink == "" && |u.text.verses| == 0
  }

  /**
   * The stored row after the body is applied: `artist` is the key of the
   * artist the body names, when it names one; every other field is replaced
   * only when the body's field is non-empty (non-zero for the date), the
   * verses through `encode`, which stands for json.Marshal of a SongText.
   */
  function Merged(s: SongDetail, artist: Option<nat>, u: SongUpdate, encode: SongText -> string): SongDetail
  {
    s.(artistId := if artist.Some? then artist.value else s.artistId,
       songName := if u.songName != "" then u.songName else s.songName,
       releaseDate := if !IsZero(u.releaseDate) then u.releaseDate else s.releaseDate,
       groupName := if u.groupLink != "" then u.groupLink else s.groupName,
       text := if |u.text.verses| > 0 then encode(u.text) else s.text)
  }

  /** Each field of the merge is the body's value when the body sets it and the old value when it does not; the key never changes. */
  lemma MergedTargets(s: SongDetail, artist: Option<nat>, u: SongUpdate, encode: SongText -> string)
    ensures var m := Merged(s, artist, u, encode);
      && m.id == s.id
      && (artist.None? ==> m.artistId == s.artistId) && (artist.Some? ==> m.artistId == artist.value)
      && (u.songName == "" ==> m.songName == s.songName) && (u.songName != "" ==> m.songName == u.songName)
      && (u.groupLink == "" ==> m.groupName == s.groupName) && (u.groupLink != "" ==> m.groupName == u.groupLink)
      && (IsZero(u.releaseDate) ==> m.releaseDate == s.releaseDate) && (!IsZero(u.releaseDate) ==> m.releaseDate == u.releaseDate)
      && (|u.text.verses| == 0 ==> m.text == s.text) && (|u.text.verses| > 0 ==> m.text == encode(u.text))
  {
  }

  /** Applying the same body twice stores the same row as applying it once. */
  lemma MergedIdempotent(s: SongDetail, artist: Option<nat>, u: SongUpdate, encode: SongText -> string)
    ensures Merged(Merged(s, artist, u, encode), artist, u, encode) == Merged(s, artist, u, encode)
  {
  }

  /** A body that sets nothing stores the row unchanged. */
  lemma MergedNothing(s: SongDetail, u: SongUpdate, encode: SongText -> string)
    requires NothingToUpdate(u) && IsZero(u.releaseDate)
    ensures Merged(s, None, u, encode) == s
  {
  }

  /**
   * UpdateSongHandler: the first song named `name` is looked up, the body
   * decoded (None stands for a decoding error), refused when it sets nothing,
   * the artist it names looked up, and the merged row saved in place. The
   * response echoes the body's artist name and verses and the saved row's
   * name, date and group name.
   */
  function Update(d: Db, name: string, body: Option<SongUpdate>, encode: SongText -> string): (Db, UpdateResult)
  {
    match FindSong(d.songs, name, None)
    case None => (d, SongNotFound)
    case Some(i) =>
      match body
      case None => (d, BadRequest)
      case Some(u) =>
        if NothingToUpdate(u) then (d, NoFields)
        else
          var found := if u.artistName != "" then FindArtist(d.artists, u.artistName) else None;
          if u.artistName != "" && found.None? then (d, ArtistNotFound)
          else
            var artist := if found.Some? then Some(d.artists[found.value].id) else None;
            var m := Merged(d.songs[i], artist, u, encode);
            (d.(songs := d.songs[i := m]),
             Updated(SongUpdate(u.artistName, m.songName, m.releaseDate, m.groupName, u.text)))
  }

  /** Every refused update leaves the tables as they were. */
  lemma UpdateRefusedUnchanged(d: Db, name: string, body: Option<SongUpdate>, encode: SongText -> string)
    requires !Update(d, name, body, encode).1.Updated?
    ensures Update(d, name, body, encode).0 == d
  {
  }

  /**
   * The refusals, in the handler's order: no song named `name`, then an
   * undecodable body, then a body that sets nothing, then an artist name no
   * artist has.
   */
  lemma UpdateRefusals(d: Db, name: string, body: Option<SongUpdate>, encode: SongText -> string)
    ensures var r := Update(d, name, body, encode).1;
      && (r.SongNotFound? <==> forall j :: 0 <= j < |d.songs| ==> d.songs[j].songName != name)
      && (r.BadRequest? <==> FindSong(d.songs, name, None).Some? && body.None?)
      && (r.NoFields? <==> FindSong(d.songs, name, None).Some? && body.Some? && NothingToUpdate(body.value))
      && (r.ArtistNotFound? <==>
            FindSong(d.songs, name, None).Some? && body.Some? && !NothingToUpdate(body.value) &&
            body.value.artistName != "" &&
            forall j :: 0 <= j < |d.artists| ==> d.artists[j].name != body.value.artistName)
  {
    if Update(d, name, body, encode).1.SongNotFound? {
      forall j | 0 <= j < |d.songs| ensures d.songs[j].songName != name {
        assert !SongMatches(d.songs[j], name, None);
      }
    }
  }

  /** A body that sets only a release date is refused with 400. */
  lemma UpdateDateAloneRefused(d: Db, name: string, date: Time, encode: SongText -> string)
    requires FindSong(d.songs, name, None).Some?
    ensures Update(d, name, Some(SongUpdate("", "", date, "", SongText([]))), encode).1 == NoFields
  {
  }

  /**
   * An accepted update rewrites exactly one row, the first one named `name`,
   * with the merge of the body; every other row, the artists and the key
   * counters stay; the response reports the saved row.
   */
  lemma UpdateRewritesOne(d: Db, name: string, body: Option<SongUpdate>, encode: SongText -> string)
    requires Update(d, name, body, encode).1.Updated?
    ensures var (d', r) := Update(d, name, body, encode);
      var i := FindSong(d.songs, name, None).value;
      && |d'.songs| == |d.songs|
      && d.songs[i].songName == name
      && (forall j :: 0 <= j < |d.songs| && j != i ==> d'.songs[j] == d.songs[j])
      && d'.songs[i].id == d.songs[i].id
      && d'.artists == d.artists && d'.nextArtistId == d.nextArtistId && d'.nextSongId == d.nextSongId
      && r.response.songName == d'.songs[i].songName
      && r.response.releaseDate == d'.songs[i].releaseDate
      && r.response.groupLink == d'.songs[i].groupName
      && r.response.artistName == body.value.artistName
      && r.response.text == body.value.text
      && (body.value.artistName != "" ==> d.artists[FindArtist(d.artists, body.value.artistName).value].id == d'.songs[i].artistId)
      && d'.songs[i] == Merged(d.songs[i],
           if body.value.artistName != "" then Some(d.artists[FindArtist(d.artists, body.value.artistName).value].id) else None,
           body.value, encode)
  {
  }

  /** Updating keeps the tables valid: keys do not move and a new artist key names an existing artist. */
  lemma UpdateValid(d: Db, name: string, body: Option<SongUpdate>, encode: SongText -> string)
    requires ValidDb(d)
    ensures ValidDb(Update(d, name, body, encode).0)
  {
    var (d', r) := Update(d, name, body, encode);
    if r.Updated? {
      var i := FindSong(d.songs, name, None).value;
      var u := body.value;
      if u.artistName != "" {
        assert d.artists[FindArtist(d.artists, u.artistName).value].id == d'.songs[i].artistId;
      }
      assert KnownArtist(d.artists, d'.songs[i].artistId);
      assert forall k :: 0 <= k < |d.songs| && k != i ==> d'.songs[k] == d.songs[k];
    }
  }

  // ----------------------------------------------------------- the examples

  /** The add test: a song for an unknown artist creates the artist and the song. */
  lemma AddExample()
    ensures Add(EmptyDb, "Test Artist", "Test Song") ==
      (Db([Artist(1, "Test Artist")], [SongDetail(1, 1, "Test Artist", "Test Song", ZeroTime, "")], 2, 2),
       Created(SongDetail(1, 1, "Test Artist", "Test Song", ZeroTime, "")))
  {
    assert FindArtist(EmptyDb.artists, "Test Artist") == None;
    var d1 := Db([Artist(1, "Test Artist")], [], 2, 1);
    assert FindSong(d1.songs, "Test Song", Some(1)) == None;
    assert Add(EmptyDb, "Test Artist", "Test Song").1.Created?;
    assert Add(EmptyDb, "Test Artist", "Test Song").0.artists == [Artist(1, "Test Artist")];
    assert Add(EmptyDb, "Test Artist", "Test Song").0.songs == [SongDetail(1, 1, "Test Artist", "Test Song", ZeroTime, "")];
  }

  /** The delete test: the song goes, its artist stays, and a second name is not found. */
  lemma DeleteExample(d: Db)
    requires d == Add(EmptyDb, "Test Artist", "Test Song").0
    ensures Delete(d, "Test Song") ==
      (Db([Artist(1, "Test Artist")], [], 2, 2), Deleted(SongDetail(1, 1, "Test Artist", "Test Song", ZeroTime, "")))
    ensures Delete(Delete(d, "Test Song").0, "NonExistentSong").1 == NotFound
  {
    AddExample();
    assert SongMatches(d.songs[0], "Test Song", None);
    assert FindSong(d.songs, "Test Song", None) == Some(0);
    assert d.songs[..0] + d.songs[1..] == [];
  }

  // ---------------------------------------------------------------- lyrics

  /** GetSongLyricsHandler's outcomes: 404 when no song has the name, else the page or its 400. */
  datatype LyricsFetch = NoSuchSong | Fetched(result: LyricsResult)

  // ------------------------------------------------------------ the store

  /** The database the handlers share, updated in place by each request. */
  class Store {
    var artists: seq<Artist>
    var songs: seq<SongDetail>
    var nextArtistId: nat
    var nextSongId: nat

    function State(): Db
      reads this
    {
      Db(artists, songs, nextArtistId, nextSongId)
    }

    predicate Valid()
      reads this
    {
      ValidDb(State())
    }

    constructor ()
      ensures Valid() && State() == EmptyDb
    {
      artists := [];
      songs := [];
      nextArtistId := 1;
      nextSongId := 1;
    }

    /** AddSongHandler. */
    method AddSong(group: string, song: string) returns (r: AddResult)
      requires Valid()
      modifies this
      ensures Valid()
      ensures (State(), r) == Add(old(State()), group, song)
    {
      ghost var d := State();
      var artist: Artist;
      var found := FindArtist(artists, group);
      if found.None? {
        artist := Artist(nextArtistId, group);
        artists := artists + [artist];
        nextArtistId := nextArtistId + 1;
      } else {
        artist := artists[found.value];
      }
      assert (State(), artist) == WithArtist(d, group);
      var existing := FindSong(songs, song, Some(artist.id));
      if existing.Some? {
        r := Conflict;
      } else {
        var newSong := SongDetail(nextSongId, artist.id, group, song, ZeroTime, "");
        songs := songs + [newSong];
        nextSongId := nextSongId + 1;
        r := Created(newSong);
      }
      assert (State(), r) == Add(d, group, song);
      AddValid(d, group, song);
    }

    /** DeleteSongHandler. */
    method DeleteSong(name: string) returns (r: DeleteResult)
      requires Valid()
      modifies this
      ensures Valid()
      ensures (State(), r) == Delete(old(State()), name)
    {
      DeleteValid(State(), name);
      var found := FindSong(songs, name, None);
      if found.None? {
        r := NotFound;
      } else {
        var song := songs[found.value];
        songs := songs[..found.value] + songs[found.value + 1..];
        r := Deleted(song);
      }
    }

    /** UpdateSongHandler; `body` is the decoded request body, None when decoding failed. */
    method UpdateSong(name: string, body: Option<SongUpdate>, encode: SongText -> string) returns (r: UpdateResult)
      requires Valid()
      modifies this
      ensures Valid()
      ensures (State(), r) == Update(old(State()), name, body, encode)
    {
      ghost var d := State();
      var found := FindSong(songs, name, None);
      if found.None? {
        return SongNotFound;
      }
      var i := found.value;
      var song := songs[i];
      if body.None? {
        return BadRequest;
      }
      var u := body.value;
      if u.songName == "" && u.artistName == "" && u.groupLink == "" && |u.text.verses| == 0 {
        return NoFields;
      }
      if u.artistName != "" {
        var a := FindArtist(artists, u.artistName);
        if a.None? {
          return ArtistNotFound;
        }
        song := song.(artistId := artists[a.value].id);
      }
      if u.songName != "" {
        song := song.(songName := u.songName);
      }
      if !IsZero(u.releaseDate) {
        song := song.(releaseDate := u.releaseDate);
      }
      if u.groupLink != "" {
        song := song.(groupName := u.groupLink);
      }
      if |u.text.verses| > 0 {
        song := song.(text := encode(u.text));
      }
      songs := songs[i := song];
      r := Updated(SongUpdate(u.artistName, song.songName, song.releaseDate, song.groupName, u.text));
      assert (State(), r) == Update(d, name, body, encode);
      UpdateValid(d, name, body, encode);
    }

    /**
     * GetSongLyricsHandler: the paging parameters are defaulted, the first
     * song named `name` is looked up, its text cut into verses and the
     * requested page of verses returned.
     */
    method GetSongLyrics(name: string, pageArg: Option<int>, limitArg: Option<int>) returns (r: LyricsFetch)
      ensures r.NoSuchSong? <==> forall j :: 0 <= j < |songs| ==> songs[j].songName != name
      ensures r.Fetched? ==>
        var i := FindSong(songs, name, None).value;
        var p := LyricsPaging(pageArg, limitArg);
        r.result == LyricsPage(songs[i].songName, Verses(songs[i].text), p.page, p.limit)
    {
      var p := LyricsPaging(pageArg, limitArg);
      var found := FindSong(songs, name, None);
      if found.None? {
        return NoSuchSong;
      }
      var song := songs[found.value];
      var verses := SegmentVerses(song.text);
      r := Fetched(LyricsPage(song.songName, verses, p.page, p.limit));
    }
  }
}
