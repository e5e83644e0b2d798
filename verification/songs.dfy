/**
 The catalog record shared by the library view and the host's store, and the
 query vocabulary the view is driven by.
 */
module Songs {
  import opened Seqs

  /** One catalog entry. `duration` is kept as the "m:ss" text it is entered as. */
  datatype Song = Song(
    id: string,
    title: string,
    artist: string,
    album: string,
    year: int,
    genre: string,
    duration: string)

  /** A song as the add form produces it, before an id is assigned. */
  datatype SongInput = SongInput(
    title: string,
    artist: string,
    album: string,
    year: int,
    genre: string,
    duration: string)

  /** The record `{...input, id}` built when a song is added. */
  function WithId(input: SongInput, id: string): (s: Song)
    ensures s.id == id && s.title == input.title && s.artist == input.artist
    ensures s.album == input.album && s.year == input.year
    ensures s.genre == input.genre && s.duration == input.duration
  {
    Song(id, input.title, input.artist, input.album, input.year, input.genre, input.duration)
  }

  datatype SortField = Title | Artist | Album | Year
  datatype SortOrder = Asc | Desc
  datatype GroupField = ByAlbum | ByArtist | ByGenre

  /** `song[field]` for a grouping field. */
  function FieldValue(s: Song, f: GroupField): string {
    match f
    case ByAlbum => s.album
    case ByArtist => s.artist
    case ByGenre => s.genre
  }

  /** The field's value for every song, in catalog order. */
  function FieldValues(songs: seq<Song>, f: GroupField): seq<string> {
    seq(|songs|, i requires 0 <= i < |songs| => FieldValue(songs[i], f))
  }

  function Ids(songs: seq<Song>): (ids: set<string>)
    ensures forall s :: s in songs ==> s.id in ids
    ensures forall id :: id in ids ==> exists s :: s in songs && s.id == id
  {
    set s | s in songs :: s.id
  }

  /** No two positions of the catalog share an id. */
  ghost predicate DistinctIds(songs: seq<Song>) {
    forall i, j :: 0 <= i < j < |songs| ==> songs[i].id != songs[j].id
  }

  /** `songs.filter(song => song.id !== id)`. */
  function WithoutId(songs: seq<Song>, id: string): (r: seq<Song>)
    ensures forall s :: s in r <==> s in songs && s.id != id
    ensures id !in Ids(r)
  {
    Filter((s: Song) => s.id != id, songs)
  }

  /** Removing an id that no song carries leaves the list as it was. */
  lemma WithoutAbsentId(songs: seq<Song>, id: string)
    requires id !in Ids(songs)
    ensures WithoutId(songs, id) == songs
  {
    FilterAll((s: Song) => s.id != id, songs);
  }

  /** Removing by id keeps the survivors in order: it distributes over concatenation. */
  lemma WithoutIdAppend(a: seq<Song>, b: seq<Song>, id: string)
    ensures WithoutId(a + b, id) == WithoutId(a, id) + WithoutId(b, id)
  {
    FilterAppend((s: Song) => s.id != id, a, b);
  }

  /** Removing the same id twice is removing it once. */
  lemma WithoutIdIdempotent(songs: seq<Song>, id: string)
    ensures WithoutId(WithoutId(songs, id), id) == WithoutId(songs, id)
  {
    FilterIdempotent((s: Song) => s.id != id, songs);
  }
}
