/** The gallery's models: locations, people, albums, photos and their
    thumbnails, the date line of an album, the cover photos, and the store
    that holds the tables, keeps their foreign keys and the one thumbnail
    per photo and size, and cascades deletes into the activity stream. */
module Gallery {
  import opened Wrappers
  import opened Text
  import opened Tables
  import opened Ordering
  import opened Stream
  import opened PhotoUtils

  datatype Location = Location(id: int, name: string)

  datatype Person = Person(id: int, name: string)

  /** month and year are nullable small integers; location is a nullable
      foreign key. */
  datatype Album = Album(id: int, name: string, month: Option<int>, year: Option<int>, location: Option<int>)

  /** name is nullable; file is the stored name of the image; album is a
      foreign key and people the ids of the many-to-many relation. */
  datatype Photo = Photo(id: int, name: Option<string>, file: string, album: int, people: set<int>)

  /** A stored smaller version of a photo; file is empty until generated. */
  datatype Thumbnail = Thumbnail(id: int, size: string, file: string, photo: int)

  // ---------------------------------------------------------------- choices

  const MonthNames: seq<string> := ["January", "February", "March", "April", "May", "June", "July",
                                    "August", "September", "October", "November", "December"]

  /** MONTH_CHOICES: the months 1 to 12, each with its English name. */
  function MonthChoices(): (r: seq<(int, string)>)
    ensures |r| == 12
    ensures forall k :: 0 <= k < 12 ==> r[k].0 == k + 1
  {
    seq(12, k requires 0 <= k < 12 => (k + 1, MonthNames[k]))
  }

  /** YEAR_CHOICES: every year from 1950 up to and including the current
      year. */
  function YearChoices(currentYear: int): seq<int>
  {
    if currentYear < 1950 then [] else YearChoices(currentYear - 1) + [currentYear]
  }

  /** A year is offered exactly when it lies between 1950 and the current
      year, and the years are offered in increasing order. */
  lemma {:induction false} YearChoicesRange(currentYear: int)
    ensures forall y :: y in YearChoices(currentYear) <==> 1950 <= y <= currentYear
    ensures |YearChoices(currentYear)| == if currentYear < 1950 then 0 else currentYear - 1949
    ensures forall i :: 0 <= i < |YearChoices(currentYear)| ==> YearChoices(currentYear)[i] == 1950 + i
    decreases currentYear - 1949
  {
    if currentYear >= 1950 {
      YearChoicesRange(currentYear - 1);
      var before := YearChoices(currentYear - 1);
      assert YearChoices(currentYear) == before + [currentYear];
      assert |before| == currentYear - 1950 by {
        if |before| > 0 {
          assert before[|before| - 1] in before;
        }
      }
    }
  }

  // ---------------------------------------------------------------- get_date_display

  /** get_month_display(): the name of a month in the choices, otherwise
      the number itself. */
  function MonthDisplay(m: int): (r: string)
    ensures r != []
  {
    if 1 <= m <= 12 then MonthNames[m - 1] else IntToString(m)
  }

  /** A nullable integer field that is set and not zero: what `if value:`
      lets through. */
  predicate Truthy(v: Option<int>)
  {
    v.Some? && v.value != 0
  }

  /** Album.get_date_display: the month and the year that are set, in that
      order, joined by a space. */
  function DateDisplay(month: Option<int>, year: Option<int>): string
  {
    var parts := (if Truthy(month) then [MonthDisplay(month.value)] else [])
      + (if Truthy(year) then [IntToString(year.value)] else []);
    Join(parts, " ")
  }

  /** The four formats: 'January 2014', 'January', '2014' and ''. */
  lemma DateDisplayFormats(month: Option<int>, year: Option<int>)
    ensures Truthy(month) && Truthy(year) ==>
      DateDisplay(month, year) == MonthDisplay(month.value) + " " + IntToString(year.value)
    ensures Truthy(month) && !Truthy(year) ==> DateDisplay(month, year) == MonthDisplay(month.value)
    ensures !Truthy(month) && Truthy(year) ==> DateDisplay(month, year) == IntToString(year.value)
    ensures DateDisplay(month, year) == [] <==> !Truthy(month) && !Truthy(year)
  {
    if Truthy(month) && Truthy(year) {
      var parts := [MonthDisplay(month.value)] + [IntToString(year.value)];
      assert parts[0] == MonthDisplay(month.value) && parts[1..] == [IntToString(year.value)];
      assert Join(parts[1..], " ") == IntToString(year.value);
      assert DateDisplay(month, year) == Join(parts, " ");
    }
    if Truthy(year) {
      assert |IntToString(year.value)| > 0;
    }
  }

  /** The month names hold no space. */
  lemma MonthNamesPlain()
    ensures forall k :: 0 <= k < 12 ==> ' ' !in MonthNames[k] && |MonthNames[k]| > 0
  {
  }

  /** An album's date line can be read back: split at the space, it gives
      the month's name and the digits of the year. */
  lemma DateDisplayRoundTrip(month: int, year: nat)
    requires 1 <= month <= 12 && year > 0
    ensures Split(DateDisplay(Some(month), Some(year)), ' ') == [MonthNames[month - 1], NatToString(year)]
    ensures ParseInt(Split(DateDisplay(Some(month), Some(year)), ' ')[1]) == Some(year)
  {
    DateDisplayFormats(Some(month), Some(year));
    MonthNamesPlain();
    var y := NatToString(year);
    assert ' ' !in y by {
      forall k | 0 <= k < |y|
        ensures y[k] != ' '
      {
        assert IsDigit(y[k]);
      }
    }
    SplitAround(MonthNames[month - 1], ' ', y);
    SplitNone(y, ' ');
    ParseIntOfNat(year);
  }

  /** The documented example. */
  lemma DateDisplayExample()
    ensures DateDisplay(Some(1), Some(2014)) == "January 2014"
  {
    DateDisplayFormats(Some(1), Some(2014));
    var y := NatToString(2014);
    assert y == "2014";
  }

  // ---------------------------------------------------------------- cover_photo

  /** queryset.filter(keep).first() over a table ordered by name: the first
      matching row by name, or None when no row matches. */
  function FirstWhere<T(!new)>(rows: seq<T>, keep: T -> bool, key: T -> Option<string>): (r: Option<T>)
    ensures r.None? <==> forall x :: x in rows ==> !keep(x)
    ensures r.Some? ==> r.value in rows && keep(r.value)
    ensures r.Some? ==> forall x :: x in rows && keep(x) ==> NameLe(key(r.value), key(x))
  {
    var matching := Filter(rows, keep);
    var first := FirstByName(matching, key);
    FirstWhereFacts(rows, keep, key, matching, first);
    first
  }

  lemma FirstWhereFacts<T>(rows: seq<T>, keep: T -> bool, key: T -> Option<string>, matching: seq<T>, first: Option<T>)
    requires matching == Filter(rows, keep)
    requires first.None? <==> |matching| == 0
    requires first.Some? ==> first.value in matching && forall x :: x in matching ==> NameLe(key(first.value), key(x))
    ensures first.None? <==> forall x :: x in rows ==> !keep(x)
    ensures first.Some? ==> first.value in rows && keep(first.value)
    ensures first.Some? ==> forall x :: x in rows && keep(x) ==> NameLe(key(first.value), key(x))
  {
    forall x | x in rows
      ensures x in matching <==> keep(x)
    {
      FilterMember(rows, keep, x);
    }
    if first.Some? {
      FilterMember(rows, keep, first.value);
    } else {
      assert forall x :: x in rows ==> !keep(x);
    }
    if |matching| > 0 {
      FilterMember(rows, keep, matching[0]);
    }
  }

  /** Album.cover_photo: the album's first photo by name, or None for an
      empty album. */
  function AlbumCover(photos: seq<Photo>, albumId: int): (r: Option<Photo>)
    ensures r.None? <==> forall p :: p in photos ==> p.album != albumId
    ensures r.Some? ==> r.value in photos && r.value.album == albumId
    ensures r.Some? ==> forall p :: p in photos && p.album == albumId ==> NameLe(r.value.name, p.name)
  {
    FirstWhere(photos, (p: Photo) => p.album == albumId, (p: Photo) => p.name)
  }

  /** Person.cover_photo: the first photo by name the person is tagged in,
      or None. */
  function PersonCover(photos: seq<Photo>, personId: int): (r: Option<Photo>)
    ensures r.None? <==> forall p :: p in photos ==> personId !in p.people
    ensures r.Some? ==> r.value in photos && personId in r.value.people
    ensures r.Some? ==> forall p :: p in photos && personId in p.people ==> NameLe(r.value.name, p.name)
  {
    FirstWhere(photos, (p: Photo) => personId in p.people, (p: Photo) => p.name)
  }

  /** The AttributeError Location.cover_photo raises by asking None for
      its photos. */
  datatype CoverError = NoAlbumAtLocation

  /** album_set.first(): the location's first album by name, or None. */
  function FirstAlbum(albums: seq<Album>, locationId: int): (r: Option<Album>)
    ensures r.None? <==> forall a :: a in albums ==> a.location != Some(locationId)
    ensures r.Some? ==> r.value in albums && FirstAlbumAt(albums, locationId, r.value)
  {
    FirstWhere(albums, (a: Album) => a.location == Some(locationId), (a: Album) => Some(a.name))
  }

  /** Location.cover_photo: the first photo of the location's first album
      by name. A location without albums fails; an empty first album gives
      None even when a later album has photos. */
  function LocationCover(albums: seq<Album>, photos: seq<Photo>, locationId: int): (r: Result<Option<Photo>, CoverError>)
    ensures r.Err? <==> forall a :: a in albums ==> a.location != Some(locationId)
    ensures r.Ok? ==> FirstAlbum(albums, locationId).Some?
    ensures r.Ok? ==> r.value == AlbumCover(photos, FirstAlbum(albums, locationId).value.id)
  {
    match FirstAlbum(albums, locationId)
    case None => Err(NoAlbumAtLocation)
    case Some(a) => Ok(AlbumCover(photos, a.id))
  }

  /** `a` is at the location and no album there comes before it by name. */
  predicate FirstAlbumAt(albums: seq<Album>, locationId: int, a: Album)
  {
    a.location == Some(locationId) && forall b :: b in albums && b.location == Some(locationId) ==> TextLe(a.name, b.name)
  }

  // ---------------------------------------------------------------- the thumbnail cache

  /** The attribute Photo.thumbnail caches a size under. */
  function CacheKey(size: string): string
  {
    "_thumbnail_" + ReplaceChar(size, '-', '_')
  }

  /** Two sizes differ at most where one has '-' and the other '_'. */
  predicate SameUpToDashes(a: string, b: string)
  {
    |a| == |b| && forall k :: 0 <= k < |a| ==> a[k] == b[k] || (a[k] in "-_" && b[k] in "-_")
  }

  /** Two sizes share a cache slot exactly when they differ at most in
      dashes and underscores: '200x200-fit' and '200x200_fit' do. */
  lemma CacheKeyShared(a: string, b: string)
    ensures CacheKey(a) == CacheKey(b) <==> SameUpToDashes(a, b)
  {
    var ra, rb := ReplaceChar(a, '-', '_'), ReplaceChar(b, '-', '_');
    var prefix := "_thumbnail_";
    if CacheKey(a) == CacheKey(b) {
      assert ra == CacheKey(a)[|prefix|..] && rb == CacheKey(b)[|prefix|..];
      forall k | 0 <= k < |a|
        ensures a[k] == b[k] || (a[k] in "-_" && b[k] in "-_")
      {
        assert ra[k] == rb[k];
      }
    }
    if SameUpToDashes(a, b) {
      assert ra == rb;
    }
  }

  // ---------------------------------------------------------------- thumbnail rows

  /** Thumbnail.save: with a size, generate() names the file after the
      photo's file and the size, failing as parse_size fails; without one
      the file stays empty. */
  function SavedFile(photoFile: string, size: string): (r: Result<string, SizeError>)
    ensures size == [] ==> r == Ok([])
    ensures size != [] ==> r == GenerateThumbnail(photoFile, size)
  {
    if size == [] then Ok([]) else GenerateThumbnail(photoFile, size)
  }

  /** The thumbnail row of a photo for a size, if there is one. */
  function ThumbnailFor(thumbnails: seq<Thumbnail>, photoId: int, size: string): (r: Option<Thumbnail>)
    ensures r.Some? ==> r.value in thumbnails && r.value.photo == photoId && r.value.size == size
    ensures r.None? ==> forall t :: t in thumbnails ==> t.photo != photoId || t.size != size
  {
    if |thumbnails| == 0 then None
    else if thumbnails[0].photo == photoId && thumbnails[0].size == size then Some(thumbnails[0])
    else ThumbnailFor(thumbnails[1..], photoId, size)
  }

  /** get_or_create(photo=..., size=...) on the thumbnail table: the row
      for the photo and size when there is one, and the table unchanged;
      otherwise a new row with the next id whose save generated its file,
      appended to the table; when generating fails, the error and the table
      unchanged. */
  function GetOrCreate(thumbnails: seq<Thumbnail>, photoFile: string, photoId: int, size: string, nextId: int)
    : (r: (Result<Thumbnail, SizeError>, seq<Thumbnail>))
    ensures r.0.Ok? ==> r.0.value in r.1 && r.0.value.photo == photoId && r.0.value.size == size
    ensures r.1 == thumbnails || (r.0.Ok? && r.0.value.id == nextId && r.1 == thumbnails + [r.0.value])
    ensures r.0.Err? ==> size != [] && ParseSize(size).Err? && r.0.error == ParseSize(size).error
    ensures r.0.Err? ==> ThumbnailFor(thumbnails, photoId, size).None?
    ensures r.1 != thumbnails ==> ThumbnailFor(thumbnails, photoId, size).None?
  {
    match ThumbnailFor(thumbnails, photoId, size)
    case Some(t) => (Ok(t), thumbnails)
    case None =>
      match SavedFile(photoFile, size)
      case Err(e) => (Err(e), thumbnails)
      case Ok(f) =>
        var t := Thumbnail(nextId, size, f, photoId);
        (Ok(t), thumbnails + [t])
  }

  /** A new row is found after the rows that did not match. */
  lemma {:induction false} ThumbnailForAppend(thumbnails: seq<Thumbnail>, t: Thumbnail)
    requires ThumbnailFor(thumbnails, t.photo, t.size).None?
    ensures ThumbnailFor(thumbnails + [t], t.photo, t.size) == Some(t)
    decreases |thumbnails|
  {
    if |thumbnails| > 0 {
      assert (thumbnails + [t])[1..] == thumbnails[1..] + [t];
      ThumbnailForAppend(thumbnails[1..], t);
    }
  }

  /** get_or_create is idempotent: asked again, it returns the row it
      returned before and creates nothing. */
  lemma GetOrCreateTwice(thumbnails: seq<Thumbnail>, photoFile: string, photoId: int, size: string, nextId: int, laterId: int)
    requires GetOrCreate(thumbnails, photoFile, photoId, size, nextId).0.Ok?
    ensures var (r, after) := GetOrCreate(thumbnails, photoFile, photoId, size, nextId);
      GetOrCreate(after, photoFile, photoId, size, laterId) == (r, after)
  {
    var (r, after) := GetOrCreate(thumbnails, photoFile, photoId, size, nextId);
    if after != thumbnails {
      ThumbnailForAppend(thumbnails, r.value);
    }
  }

  /** get_or_create keeps one thumbnail per photo and size, and a row it
      creates for a size that parses holds the thumbnail path of the photo's
      file. */
  lemma GetOrCreateKeepsOnePerSize(thumbnails: seq<Thumbnail>, photoFile: string, photoId: int, size: string, nextId: int)
    requires OnePerSize(thumbnails)
    ensures OnePerSize(GetOrCreate(thumbnails, photoFile, photoId, size, nextId).1)
    ensures var (r, after) := GetOrCreate(thumbnails, photoFile, photoId, size, nextId);
      after != thumbnails && size != [] ==> r.value.file == ThumbnailPath(photoFile, size)
  {
  }

  /** The photo row with an id, if there is one. */
  function PhotoById(photos: seq<Photo>, id: int): (r: Option<Photo>)
    ensures r.Some? ==> r.value in photos && r.value.id == id
    ensures r.None? <==> id !in PhotoIds(photos)
  {
    if |photos| == 0 then None
    else if photos[0].id == id then Some(photos[0])
    else
      assert photos == [photos[0]] + photos[1..];
      PhotoById(photos[1..], id)
  }

  // ---------------------------------------------------------------- keys and cascades

  function LocationIds(locations: seq<Location>): set<int>
  {
    set l | l in locations :: l.id
  }

  function PersonIds(people: seq<Person>): set<int>
  {
    set p | p in people :: p.id
  }

  function AlbumIds(albums: seq<Album>): set<int>
  {
    set a | a in albums :: a.id
  }

  function PhotoIds(photos: seq<Photo>): set<int>
  {
    set p | p in photos :: p.id
  }

  /** Every foreign key points at an existing row. */
  predicate Linked(locations: seq<Location>, people: seq<Person>, albums: seq<Album>, photos: seq<Photo>,
                   thumbnails: seq<Thumbnail>)
  {
    (forall a :: a in albums && a.location.Some? ==> a.location.value in LocationIds(locations))
    && (forall p :: p in photos ==> p.album in AlbumIds(albums) && p.people <= PersonIds(people))
    && (forall t :: t in thumbnails ==> t.photo in PhotoIds(photos))
  }

  /** unique_together = ('photo', 'size'): no two thumbnails share both. */
  predicate OnePerSize(thumbnails: seq<Thumbnail>)
  {
    forall t, u :: t in thumbnails && u in thumbnails && t.photo == u.photo && t.size == u.size ==> t == u
  }

  predicate IdsBelow<T(==)>(rows: seq<T>, id: T -> int, next: int)
  {
    forall x :: x in rows ==> id(x) < next
  }

  /** The tables are linked, thumbnails are one per photo and size, and
      each table's ids lie below its next id. */
  predicate TablesValid(locations: seq<Location>, people: seq<Person>, albums: seq<Album>, photos: seq<Photo>,
                      thumbnails: seq<Thumbnail>, nextLocationId: int, nextPersonId: int, nextAlbumId: int,
                      nextPhotoId: int, nextThumbnailId: int)
  {
    Linked(locations, people, albums, photos, thumbnails)
    && OnePerSize(thumbnails)
    && IdsBelow(locations, (l: Location) => l.id, nextLocationId)
    && IdsBelow(people, (p: Person) => p.id, nextPersonId)
    && IdsBelow(albums, (a: Album) => a.id, nextAlbumId)
    && IdsBelow(photos, (p: Photo) => p.id, nextPhotoId)
    && IdsBelow(thumbnails, (t: Thumbnail) => t.id, nextThumbnailId)
  }

  function OtherLocations(locations: seq<Location>, id: int): seq<Location>
  {
    Filter(locations, (l: Location) => l.id != id)
  }

  function OtherPeople(people: seq<Person>, id: int): seq<Person>
  {
    Filter(people, (p: Person) => p.id != id)
  }

  function OtherAlbums(albums: seq<Album>, id: int): seq<Album>
  {
    Filter(albums, (a: Album) => a.id != id)
  }

  /** The photos outside an album. */
  function PhotosOutside(photos: seq<Photo>, albumId: int): seq<Photo>
  {
    Filter(photos, (p: Photo) => p.album != albumId)
  }

  function OtherPhotos(photos: seq<Photo>, id: int): seq<Photo>
  {
    Filter(photos, (p: Photo) => p.id != id)
  }

  /** The thumbnails of photos other than `photoIds`. */
  function ThumbnailsOutside(thumbnails: seq<Thumbnail>, photoIds: set<int>): seq<Thumbnail>
  {
    Filter(thumbnails, (t: Thumbnail) => t.photo !in photoIds)
  }

  /** The ids of an album's photos. */
  function AlbumPhotoIds(photos: seq<Photo>, albumId: int): set<int>
  {
    set p | p in photos && p.album == albumId :: p.id
  }

  function PhotoRefs(ids: set<int>): set<ObjRef>
  {
    set id | id in ids :: ObjRef(PhotoKind, id)
  }

  /** The thumbnails of the photos `photoIds`, as objects the deletion
      collects. */
  function ThumbnailRefs(thumbnails: seq<Thumbnail>, photoIds: set<int>): set<ObjRef>
  {
    set t | t in thumbnails && t.photo in photoIds :: ObjRef(ThumbnailKind, t.id)
  }

  /** on_delete=SET_NULL: the albums at a deleted location lose their
      location; nothing else about any album changes. */
  function Unlocated(albums: seq<Album>, locationId: int): (r: seq<Album>)
    ensures |r| == |albums|
    ensures forall k :: 0 <= k < |r| ==> r[k].location != Some(locationId)
    ensures forall k :: 0 <= k < |r| ==>
      r[k] == albums[k] || (albums[k].location == Some(locationId) && r[k] == albums[k].(location := None))
  {
    seq(|albums|, k requires 0 <= k < |albums| =>
      if albums[k].location == Some(locationId) then albums[k].(location := None) else albums[k])
  }

  /** Deleting a person deletes the rows of the many-to-many table that
      tag them; the photos stay. */
  function Untagged(photos: seq<Photo>, personId: int): (r: seq<Photo>)
    ensures |r| == |photos|
    ensures forall k :: 0 <= k < |r| ==> r[k] == photos[k].(people := photos[k].people - {personId})
  {
    seq(|photos|, k requires 0 <= k < |photos| => photos[k].(people := photos[k].people - {personId}))
  }

  /** queryset.update(album=dest) over an album's photos. */
  function Moved(photos: seq<Photo>, source: int, dest: int): (r: seq<Photo>)
    ensures |r| == |photos|
    ensures forall k :: 0 <= k < |r| ==> r[k].album != source || source == dest
    ensures forall k :: 0 <= k < |r| ==>
      if photos[k].album == source then r[k] == photos[k].(album := dest) else r[k] == photos[k]
  {
    seq(|photos|, k requires 0 <= k < |photos| =>
      if photos[k].album == source then photos[k].(album := dest) else photos[k])
  }

  /** Clearing a location keeps every album id. */
  lemma UnlocatedIds(albums: seq<Album>, locationId: int)
    ensures AlbumIds(Unlocated(albums, locationId)) == AlbumIds(albums)
  {
    var r := Unlocated(albums, locationId);
    forall id | id in AlbumIds(albums)
      ensures id in AlbumIds(r)
    {
      var a :| a in albums && a.id == id;
      var k :| 0 <= k < |albums| && albums[k] == a;
      assert r[k].id == id;
    }
    forall id | id in AlbumIds(r)
      ensures id in AlbumIds(albums)
    {
      var a :| a in r && a.id == id;
      var k :| 0 <= k < |r| && r[k] == a;
      assert albums[k].id == id;
    }
  }

  /** Untagging keeps every photo id. */
  lemma UntaggedIds(photos: seq<Photo>, personId: int)
    ensures PhotoIds(Untagged(photos, personId)) == PhotoIds(photos)
  {
    var r := Untagged(photos, personId);
    forall id | id in PhotoIds(photos)
      ensures id in PhotoIds(r)
    {
      var p :| p in photos && p.id == id;
      var k :| 0 <= k < |photos| && photos[k] == p;
      assert r[k].id == id;
    }
    forall id | id in PhotoIds(r)
      ensures id in PhotoIds(photos)
    {
      var p :| p in r && p.id == id;
      var k :| 0 <= k < |r| && r[k] == p;
      assert photos[k].id == id;
    }
  }

  /** Moving photos between albums keeps every photo id. */
  lemma MovedIds(photos: seq<Photo>, source: int, dest: int)
    ensures PhotoIds(Moved(photos, source, dest)) == PhotoIds(photos)
  {
    var r := Moved(photos, source, dest);
    forall id | id in PhotoIds(photos)
      ensures id in PhotoIds(r)
    {
      var p :| p in photos && p.id == id;
      var k :| 0 <= k < |photos| && photos[k] == p;
      assert r[k].id == id;
    }
    forall id | id in PhotoIds(r)
      ensures id in PhotoIds(photos)
    {
      var p :| p in r && p.id == id;
      var k :| 0 <= k < |r| && r[k] == p;
      assert photos[k].id == id;
    }
  }

  /** The database: one sequence per table in table order, the next primary
      key of each, and the action table of the activity stream. */
  class Store {
    var locations: seq<Location>
    var people: seq<Person>
    var albums: seq<Album>
    var photos: seq<Photo>
    var thumbnails: seq<Thumbnail>
    var nextLocationId: int
    var nextPersonId: int
    var nextAlbumId: int
    var nextPhotoId: int
    var nextThumbnailId: int
    const log: ActionLog

    /** Foreign keys resolve, one thumbnail per photo and size, and every
        id is below the next one handed out. */
    predicate Valid()
      reads this, log
    {
      log.Valid() && TablesValid(locations, people, albums, photos, thumbnails, nextLocationId, nextPersonId, nextAlbumId, nextPhotoId, nextThumbnailId)
    }

    constructor ()
      ensures Valid() && fresh(log)
      ensures locations == [] && people == [] && albums == [] && photos == [] && thumbnails == []
      ensures log.actions == []
    {
      locations, people, albums, photos, thumbnails := [], [], [], [], [];
      nextLocationId, nextPersonId, nextAlbumId, nextPhotoId, nextThumbnailId := 1, 1, 1, 1, 1;
      log := new ActionLog();
    }

    /** Location.objects.create(name=...). */
    method AddLocation(name: string) returns (l: Location)
      requires Valid()
      modifies this
      ensures Valid()
      ensures l == Location(old(nextLocationId), name) && l.id !in LocationIds(old(locations))
      ensures locations == old(locations) + [l]
      ensures people == old(people) && albums == old(albums) && photos == old(photos) && thumbnails == old(thumbnails)
      ensures nextLocationId == old(nextLocationId) + 1 && nextPersonId == old(nextPersonId) && nextAlbumId == old(nextAlbumId) && nextPhotoId == old(nextPhotoId) && nextThumbnailId == old(nextThumbnailId)
      ensures log.actions == old(log.actions) && log.nextId == old(log.nextId)
    {
      l := Location(nextLocationId, name);
      assert l.id !in LocationIds(locations) by {
        forall q | q in locations
          ensures q.id != l.id
        {
          var k :| 0 <= k < |locations| && locations[k] == q;
        }
      }
      locations := locations + [l];
      nextLocationId := nextLocationId + 1;
      assert Linked(locations, people, albums, photos, thumbnails);
    }

    /** Person.objects.create(name=...). */
    method AddPerson(name: string) returns (p: Person)
      requires Valid()
      modifies this
      ensures Valid()
      ensures p == Person(old(nextPersonId), name)
      ensures people == old(people) + [p]
      ensures locations == old(locations) && albums == old(albums) && photos == old(photos) && thumbnails == old(thumbnails)
      ensures nextLocationId == old(nextLocationId) && nextPersonId == old(nextPersonId) + 1 && nextAlbumId == old(nextAlbumId) && nextPhotoId == old(nextPhotoId) && nextThumbnailId == old(nextThumbnailId)
      ensures log.actions == old(log.actions) && log.nextId == old(log.nextId)
    {
      p := Person(nextPersonId, name);
      people := people + [p];
      nextPersonId := nextPersonId + 1;
      assert Linked(locations, people, albums, photos, thumbnails);
    }

    /** Album.objects.create(...): the location, when given, must exist. */
    method AddAlbum(name: string, month: Option<int>, year: Option<int>, location: Option<int>) returns (a: Album)
      requires Valid()
      requires location.Some? ==> location.value in LocationIds(locations)
      modifies this
      ensures Valid()
      ensures a == Album(old(nextAlbumId), name, month, year, location)
      ensures albums == old(albums) + [a]
      ensures locations == old(locations) && people == old(people) && photos == old(photos) && thumbnails == old(thumbnails)
      ensures nextLocationId == old(nextLocationId) && nextPersonId == old(nextPersonId) && nextAlbumId == old(nextAlbumId) + 1 && nextPhotoId == old(nextPhotoId) && nextThumbnailId == old(nextThumbnailId)
      ensures log.actions == old(log.actions) && log.nextId == old(log.nextId)
    {
      a := Album(nextAlbumId, name, month, year, location);
      albums := albums + [a];
      nextAlbumId := nextAlbumId + 1;
      assert Linked(locations, people, albums, photos, thumbnails);
    }

    /** Photo.objects.create(...) in an existing album, with no people. */
    method AddPhoto(name: Option<string>, file: string, album: int) returns (p: Photo)
      requires Valid() && album in AlbumIds(albums)
      modifies this
      ensures Valid()
      ensures p == Photo(old(nextPhotoId), name, file, album, {}) && p.id !in PhotoIds(old(photos))
      ensures photos == old(photos) + [p]
      ensures locations == old(locations) && people == old(people) && albums == old(albums) && thumbnails == old(thumbnails)
      ensures nextLocationId == old(nextLocationId) && nextPersonId == old(nextPersonId) && nextAlbumId == old(nextAlbumId) && nextPhotoId == old(nextPhotoId) + 1 && nextThumbnailId == old(nextThumbnailId)
      ensures log.actions == old(log.actions) && log.nextId == old(log.nextId)
    {
      p := Photo(nextPhotoId, name, file, album, {});
      assert p.id !in PhotoIds(photos) by {
        forall q | q in photos
          ensures q.id != p.id
        {
          var k :| 0 <= k < |photos| && photos[k] == q;
        }
      }
      photos := photos + [p];
      nextPhotoId := nextPhotoId + 1;
      assert Linked(locations, people, albums, photos, thumbnails);
    }

    /** thumbnail_set.get_or_create(size=size) for an existing photo, on
        the tables. */
    method GetOrCreateThumbnail(photoId: int, size: string) returns (r: Result<Thumbnail, SizeError>)
      requires Valid() && photoId in PhotoIds(photos)
      modifies this
      ensures Valid()
      ensures locations == old(locations) && people == old(people) && albums == old(albums) && photos == old(photos)
      ensures nextLocationId == old(nextLocationId) && nextPersonId == old(nextPersonId) && nextAlbumId == old(nextAlbumId)
      ensures nextPhotoId == old(nextPhotoId)
      ensures log.actions == old(log.actions) && log.nextId == old(log.nextId)
      ensures (r, thumbnails) == GetOrCreate(old(thumbnails), PhotoById(photos, photoId).value.file, photoId, size,
                                             old(nextThumbnailId))
      ensures nextThumbnailId == old(nextThumbnailId) + |thumbnails| - |old(thumbnails)|
    {
      var photo := PhotoById(photos, photoId).value;
      var created := GetOrCreate(thumbnails, photo.file, photoId, size, nextThumbnailId);
      r := created.0;
      if |created.1| != |thumbnails| {
        AddThumbnailValid(locations, people, albums, photos, thumbnails, nextLocationId, nextPersonId, nextAlbumId,
                          nextPhotoId, nextThumbnailId, r.value);
        thumbnails := created.1;
        nextThumbnailId := nextThumbnailId + 1;
      }
    }

    /** Deleting a location: its albums stay with no location, and the
        actions that point at it go. */
    method DeleteLocation(id: int)
      requires Valid()
      modifies this, log
      ensures Valid()
      ensures locations == OtherLocations(old(locations), id)
      ensures albums == Unlocated(old(albums), id)
      ensures people == old(people) && photos == old(photos) && thumbnails == old(thumbnails)
      ensures log.actions == Unmentioning(old(log.actions), {ObjRef(LocationKind, id)})
      ensures nextLocationId == old(nextLocationId) && nextPersonId == old(nextPersonId) && nextAlbumId == old(nextAlbumId) && nextPhotoId == old(nextPhotoId) && nextThumbnailId == old(nextThumbnailId)
      ensures log.nextId == old(log.nextId)
    {
      DeleteLocationValid(locations, people, albums, photos, thumbnails, nextLocationId, nextPersonId, nextAlbumId, nextPhotoId, nextThumbnailId, id);
      locations := OtherLocations(locations, id);
      albums := Unlocated(albums, id);
      var objs := {ObjRef(LocationKind, id)};
      assert (set o | o in objs && Actionable(o.kind)) == objs;
      log.DeleteFor(objs);
    }

    /** Deleting a person: the photos stay but no longer tag them, and the
        actions that point at them go. */
    method DeletePerson(id: int)
      requires Valid()
      modifies this, log
      ensures Valid()
      ensures people == OtherPeople(old(people), id)
      ensures photos == Untagged(old(photos), id)
      ensures locations == old(locations) && albums == old(albums) && thumbnails == old(thumbnails)
      ensures log.actions == Unmentioning(old(log.actions), {ObjRef(PersonKind, id)})
      ensures nextLocationId == old(nextLocationId) && nextPersonId == old(nextPersonId) && nextAlbumId == old(nextAlbumId) && nextPhotoId == old(nextPhotoId) && nextThumbnailId == old(nextThumbnailId)
      ensures log.nextId == old(log.nextId)
    {
      DeletePersonValid(locations, people, albums, photos, thumbnails, nextLocationId, nextPersonId, nextAlbumId, nextPhotoId, nextThumbnailId, id);
      people := OtherPeople(people, id);
      photos := Untagged(photos, id);
      var objs := {ObjRef(PersonKind, id)};
      assert (set o | o in objs && Actionable(o.kind)) == objs;
      log.DeleteFor(objs);
    }

    /** Deleting a photo: its thumbnails go with it, and the actions that
        point at the photo go; thumbnails are not actionable and take no
        action along. */
    method DeletePhoto(id: int)
      requires Valid()
      modifies this, log
      ensures Valid()
      ensures photos == OtherPhotos(old(photos), id)
      ensures thumbnails == ThumbnailsOutside(old(thumbnails), {id})
      ensures locations == old(locations) && people == old(people) && albums == old(albums)
      ensures log.actions == Unmentioning(old(log.actions), {ObjRef(PhotoKind, id)})
      ensures nextLocationId == old(nextLocationId) && nextPersonId == old(nextPersonId) && nextAlbumId == old(nextAlbumId) && nextPhotoId == old(nextPhotoId) && nextThumbnailId == old(nextThumbnailId)
      ensures log.nextId == old(log.nextId)
    {
      var objs := {ObjRef(PhotoKind, id)};
      var thumbnailRefs := ThumbnailRefs(thumbnails, {id});
      CollectedActionable(objs, thumbnailRefs);
      DeletePhotoValid(locations, people, albums, photos, thumbnails, nextLocationId, nextPersonId, nextAlbumId, nextPhotoId, nextThumbnailId, id);
      photos := OtherPhotos(photos, id);
      thumbnails := ThumbnailsOutside(thumbnails, {id});
      log.DeleteFor(objs + thumbnailRefs);
    }

    /** Deleting an album: its photos and their thumbnails go with it, and
        the actions that point at the album or at any of its photos go. */
    method DeleteAlbum(id: int)
      requires Valid()
      modifies this, log
      ensures Valid()
      ensures albums == OtherAlbums(old(albums), id)
      ensures photos == PhotosOutside(old(photos), id)
      ensures thumbnails == ThumbnailsOutside(old(thumbnails), AlbumPhotoIds(old(photos), id))
      ensures locations == old(locations) && people == old(people)
      ensures log.actions == Unmentioning(old(log.actions), {ObjRef(AlbumKind, id)} + PhotoRefs(AlbumPhotoIds(old(photos), id)))
      ensures nextLocationId == old(nextLocationId) && nextPersonId == old(nextPersonId) && nextAlbumId == old(nextAlbumId) && nextPhotoId == old(nextPhotoId) && nextThumbnailId == old(nextThumbnailId)
      ensures log.nextId == old(log.nextId)
    {
      var doomed := AlbumPhotoIds(photos, id);
      var objs := {ObjRef(AlbumKind, id)} + PhotoRefs(doomed);
      var thumbnailRefs := ThumbnailRefs(thumbnails, doomed);
      CollectedActionable(objs, thumbnailRefs);
      log.DeleteFor(objs + thumbnailRefs);
      DeleteAlbumValid(locations, people, albums, photos, thumbnails, nextLocationId, nextPersonId, nextAlbumId, nextPhotoId, nextThumbnailId, id);
      albums, photos, thumbnails := OtherAlbums(albums, id), PhotosOutside(photos, id), ThumbnailsOutside(thumbnails, doomed);
    }

    /** album.photo_set.all().update(album=dest) for an existing album. */
    method MovePhotos(source: int, dest: int)
      requires Valid() && dest in AlbumIds(albums)
      modifies this
      ensures Valid()
      ensures photos == Moved(old(photos), source, dest)
      ensures locations == old(locations) && people == old(people) && albums == old(albums) && thumbnails == old(thumbnails)
      ensures nextLocationId == old(nextLocationId) && nextPersonId == old(nextPersonId) && nextAlbumId == old(nextAlbumId) && nextPhotoId == old(nextPhotoId) && nextThumbnailId == old(nextThumbnailId)
      ensures log.actions == old(log.actions) && log.nextId == old(log.nextId)
    {
      MovePhotosValid(locations, people, albums, photos, thumbnails, nextLocationId, nextPersonId, nextAlbumId, nextPhotoId, nextThumbnailId, source, dest);
      photos := Moved(photos, source, dest);
    }
  }

  // ---------------------------------------------------------------- what the cascades keep

  /** Dropping thumbnails keeps the rest unique and their ids fresh. */
  lemma ThumbnailsOutsideValid(thumbnails: seq<Thumbnail>, photoIds: set<int>, next: int)
    requires OnePerSize(thumbnails) && IdsBelow(thumbnails, (t: Thumbnail) => t.id, next)
    ensures OnePerSize(ThumbnailsOutside(thumbnails, photoIds))
    ensures IdsBelow(ThumbnailsOutside(thumbnails, photoIds), (t: Thumbnail) => t.id, next)
  {
  }

  /** Of the objects a deletion collects, the thumbnails are not actionable. */
  lemma CollectedActionable(objs: set<ObjRef>, thumbnails: set<ObjRef>)
    requires forall o :: o in objs ==> Actionable(o.kind)
    requires forall o :: o in thumbnails ==> o.kind == ThumbnailKind
    ensures (set o | o in objs + thumbnails && Actionable(o.kind)) == objs
  {
  }

  lemma UnlocatedIdsBelow(albums: seq<Album>, locationId: int, next: int)
    requires IdsBelow(albums, (a: Album) => a.id, next)
    ensures IdsBelow(Unlocated(albums, locationId), (a: Album) => a.id, next)
  {
    var r := Unlocated(albums, locationId);
    forall x | x in r
      ensures x.id < next
    {
      var k :| 0 <= k < |r| && r[k] == x;
      assert albums[k] in albums;
    }
  }

  lemma UntaggedIdsBelow(photos: seq<Photo>, personId: int, next: int)
    requires IdsBelow(photos, (p: Photo) => p.id, next)
    ensures IdsBelow(Untagged(photos, personId), (p: Photo) => p.id, next)
  {
    var r := Untagged(photos, personId);
    forall x | x in r
      ensures x.id < next
    {
      var k :| 0 <= k < |r| && r[k] == x;
      assert photos[k] in photos;
    }
  }

  lemma MovedIdsBelow(photos: seq<Photo>, source: int, dest: int, next: int)
    requires IdsBelow(photos, (p: Photo) => p.id, next)
    ensures IdsBelow(Moved(photos, source, dest), (p: Photo) => p.id, next)
  {
    var r := Moved(photos, source, dest);
    forall x | x in r
      ensures x.id < next
    {
      var k :| 0 <= k < |r| && r[k] == x;
      assert photos[k] in photos;
    }
  }

  /** A location survives the deletion of another. */
  lemma OtherLocationsMember(locations: seq<Location>, id: int, l: Location)
    ensures l in OtherLocations(locations, id) <==> l in locations && l.id != id
  {
    FilterMember(locations, (l: Location) => l.id != id, l);
  }

  lemma OtherPeopleMember(people: seq<Person>, id: int, p: Person)
    ensures p in OtherPeople(people, id) <==> p in people && p.id != id
  {
    FilterMember(people, (p: Person) => p.id != id, p);
  }

  lemma OtherAlbumsMember(albums: seq<Album>, id: int, a: Album)
    ensures a in OtherAlbums(albums, id) <==> a in albums && a.id != id
  {
    FilterMember(albums, (a: Album) => a.id != id, a);
  }

  /** A photo survives an album's deletion exactly when it is in another
      album. */
  lemma PhotosOutsideMember(photos: seq<Photo>, albumId: int, p: Photo)
    ensures p in PhotosOutside(photos, albumId) <==> p in photos && p.album != albumId
  {
    FilterMember(photos, (p: Photo) => p.album != albumId, p);
  }

  lemma OtherPhotosMember(photos: seq<Photo>, id: int, p: Photo)
    ensures p in OtherPhotos(photos, id) <==> p in photos && p.id != id
  {
    FilterMember(photos, (p: Photo) => p.id != id, p);
  }

  /** A thumbnail survives exactly when its photo does. */
  lemma ThumbnailsOutsideMember(thumbnails: seq<Thumbnail>, photoIds: set<int>, t: Thumbnail)
    ensures t in ThumbnailsOutside(thumbnails, photoIds) <==> t in thumbnails && t.photo !in photoIds
  {
    FilterMember(thumbnails, (t: Thumbnail) => t.photo !in photoIds, t);
  }

  /** SET_NULL leaves no album pointing at a deleted location. */
  lemma DeleteLocationKeepsLinks(locations: seq<Location>, people: seq<Person>, albums: seq<Album>,
                                 photos: seq<Photo>, thumbnails: seq<Thumbnail>, id: int)
    requires Linked(locations, people, albums, photos, thumbnails)
    ensures Linked(OtherLocations(locations, id), people, Unlocated(albums, id), photos, thumbnails)
  {
    var ls := OtherLocations(locations, id);
    var r := Unlocated(albums, id);
    UnlocatedIds(albums, id);
    forall a | a in r && a.location.Some?
      ensures a.location.value in LocationIds(ls)
    {
      var k :| 0 <= k < |r| && r[k] == a;
      assert albums[k].location == a.location;
      var l :| l in locations && l.id == a.location.value;
      OtherLocationsMember(locations, id, l);
    }
  }

  /** Removing a person from every photo leaves every tag pointing at a
      person who is still there. */
  lemma DeletePersonKeepsLinks(locations: seq<Location>, people: seq<Person>, albums: seq<Album>,
                               photos: seq<Photo>, thumbnails: seq<Thumbnail>, id: int)
    requires Linked(locations, people, albums, photos, thumbnails)
    ensures Linked(locations, OtherPeople(people, id), albums, Untagged(photos, id), thumbnails)
  {
    var ps := OtherPeople(people, id);
    var r := Untagged(photos, id);
    UntaggedIds(photos, id);
    forall p | p in r
      ensures p.album in AlbumIds(albums) && p.people <= PersonIds(ps)
    {
      var k :| 0 <= k < |r| && r[k] == p;
      assert photos[k] in photos;
      forall q | q in p.people
        ensures q in PersonIds(ps)
      {
        var who :| who in people && who.id == q;
        OtherPeopleMember(people, id, who);
      }
    }
  }

  /** A deleted photo leaves no thumbnail behind. */
  lemma DeletePhotoKeepsLinks(locations: seq<Location>, people: seq<Person>, albums: seq<Album>,
                              photos: seq<Photo>, thumbnails: seq<Thumbnail>, id: int)
    requires Linked(locations, people, albums, photos, thumbnails)
    ensures Linked(locations, people, albums, OtherPhotos(photos, id), ThumbnailsOutside(thumbnails, {id}))
  {
    var ps := OtherPhotos(photos, id);
    var ts := ThumbnailsOutside(thumbnails, {id});
    forall p | p in ps
      ensures p.album in AlbumIds(albums) && p.people <= PersonIds(people)
    {
      OtherPhotosMember(photos, id, p);
    }
    forall t | t in ts
      ensures t.photo in PhotoIds(ps)
    {
      ThumbnailsOutsideMember(thumbnails, {id}, t);
      var p :| p in photos && p.id == t.photo;
      OtherPhotosMember(photos, id, p);
    }
  }

  /** A deleted album leaves no photo and no thumbnail of its photos
      behind. */
  lemma DeleteAlbumKeepsLinks(locations: seq<Location>, people: seq<Person>, albums: seq<Album>,
                              photos: seq<Photo>, thumbnails: seq<Thumbnail>, id: int)
    requires Linked(locations, people, albums, photos, thumbnails)
    ensures Linked(locations, people, OtherAlbums(albums, id), PhotosOutside(photos, id),
                   ThumbnailsOutside(thumbnails, AlbumPhotoIds(photos, id)))
  {
    var as_ := OtherAlbums(albums, id);
    var ps := PhotosOutside(photos, id);
    var doomed := AlbumPhotoIds(photos, id);
    var ts := ThumbnailsOutside(thumbnails, doomed);
    forall a | a in as_ && a.location.Some?
      ensures a.location.value in LocationIds(locations)
    {
      OtherAlbumsMember(albums, id, a);
    }
    forall p | p in ps
      ensures p.album in AlbumIds(as_) && p.people <= PersonIds(people)
    {
      PhotosOutsideMember(photos, id, p);
      var a :| a in albums && a.id == p.album;
      OtherAlbumsMember(albums, id, a);
    }
    forall t | t in ts
      ensures t.photo in PhotoIds(ps)
    {
      ThumbnailsOutsideMember(thumbnails, doomed, t);
      var p :| p in photos && p.id == t.photo;
      PhotosOutsideMember(photos, id, p);
    }
  }

  /** Moving photos into an existing album keeps every photo in an album. */
  lemma MovedKeepsLinks(locations: seq<Location>, people: seq<Person>, albums: seq<Album>,
                        photos: seq<Photo>, thumbnails: seq<Thumbnail>, source: int, dest: int)
    requires Linked(locations, people, albums, photos, thumbnails) && dest in AlbumIds(albums)
    ensures Linked(locations, people, albums, Moved(photos, source, dest), thumbnails)
  {
    var r := Moved(photos, source, dest);
    MovedIds(photos, source, dest);
    forall p | p in r
      ensures p.album in AlbumIds(albums) && p.people <= PersonIds(people)
    {
      var k :| 0 <= k < |r| && r[k] == p;
      assert photos[k] in photos;
    }
  }

  // ---------------------------------------------------------------- each change keeps the tables valid

  lemma AddThumbnailValid(
      locations: seq<Location>, people: seq<Person>, albums: seq<Album>, photos: seq<Photo>,
      thumbnails: seq<Thumbnail>, nextLocationId: int, nextPersonId: int, nextAlbumId: int, nextPhotoId: int,
      nextThumbnailId: int, t: Thumbnail)
    requires TablesValid(locations, people, albums, photos, thumbnails, nextLocationId, nextPersonId, nextAlbumId, nextPhotoId, nextThumbnailId)
    requires t.id == nextThumbnailId && t.photo in PhotoIds(photos)
    requires ThumbnailFor(thumbnails, t.photo, t.size).None?
    ensures TablesValid(locations, people, albums, photos, thumbnails + [t], nextLocationId, nextPersonId,
                        nextAlbumId, nextPhotoId, nextThumbnailId + 1)
  {
    assert Linked(locations, people, albums, photos, thumbnails + [t]);
  }

  lemma DeleteLocationValid(
      locations: seq<Location>, people: seq<Person>, albums: seq<Album>, photos: seq<Photo>,
      thumbnails: seq<Thumbnail>, nextLocationId: int, nextPersonId: int, nextAlbumId: int, nextPhotoId: int,
      nextThumbnailId: int, id: int)
    requires TablesValid(locations, people, albums, photos, thumbnails, nextLocationId, nextPersonId, nextAlbumId, nextPhotoId, nextThumbnailId)
    ensures TablesValid(OtherLocations(locations, id), people, Unlocated(albums, id), photos, thumbnails, nextLocationId, nextPersonId, nextAlbumId, nextPhotoId, nextThumbnailId)
  {
    DeleteLocationKeepsLinks(locations, people, albums, photos, thumbnails, id);
    UnlocatedIdsBelow(albums, id, nextAlbumId);
  }

  lemma DeletePersonValid(
      locations: seq<Location>, people: seq<Person>, albums: seq<Album>, photos: seq<Photo>,
      thumbnails: seq<Thumbnail>, nextLocationId: int, nextPersonId: int, nextAlbumId: int, nextPhotoId: int,
      nextThumbnailId: int, id: int)
    requires TablesValid(locations, people, albums, photos, thumbnails, nextLocationId, nextPersonId, nextAlbumId, nextPhotoId, nextThumbnailId)
    ensures TablesValid(locations, OtherPeople(people, id), albums, Untagged(photos, id), thumbnails, nextLocationId, nextPersonId, nextAlbumId, nextPhotoId, nextThumbnailId)
  {
    DeletePersonKeepsLinks(locations, people, albums, photos, thumbnails, id);
    UntaggedIdsBelow(photos, id, nextPhotoId);
  }

  lemma DeletePhotoValid(
      locations: seq<Location>, people: seq<Person>, albums: seq<Album>, photos: seq<Photo>,
      thumbnails: seq<Thumbnail>, nextLocationId: int, nextPersonId: int, nextAlbumId: int, nextPhotoId: int,
      nextThumbnailId: int, id: int)
    requires TablesValid(locations, people, albums, photos, thumbnails, nextLocationId, nextPersonId, nextAlbumId, nextPhotoId, nextThumbnailId)
    ensures TablesValid(locations, people, albums, OtherPhotos(photos, id), ThumbnailsOutside(thumbnails, {id}), nextLocationId, nextPersonId, nextAlbumId, nextPhotoId, nextThumbnailId)
  {
    DeletePhotoKeepsLinks(locations, people, albums, photos, thumbnails, id);
    ThumbnailsOutsideValid(thumbnails, {id}, nextThumbnailId);
  }

  lemma DeleteAlbumValid(
      locations: seq<Location>, people: seq<Person>, albums: seq<Album>, photos: seq<Photo>,
      thumbnails: seq<Thumbnail>, nextLocationId: int, nextPersonId: int, nextAlbumId: int, nextPhotoId: int,
      nextThumbnailId: int, id: int)
    requires TablesValid(locations, people, albums, photos, thumbnails, nextLocationId, nextPersonId, nextAlbumId, nextPhotoId, nextThumbnailId)
    ensures TablesValid(locations, people, OtherAlbums(albums, id), PhotosOutside(photos, id),
                        ThumbnailsOutside(thumbnails, AlbumPhotoIds(photos, id)), nextLocationId, nextPersonId, nextAlbumId, nextPhotoId, nextThumbnailId)
  {
    DeleteAlbumKeepsLinks(locations, people, albums, photos, thumbnails, id);
    ThumbnailsOutsideValid(thumbnails, AlbumPhotoIds(photos, id), nextThumbnailId);
  }

  lemma MovePhotosValid(
      locations: seq<Location>, people: seq<Person>, albums: seq<Album>, photos: seq<Photo>,
      thumbnails: seq<Thumbnail>, nextLocationId: int, nextPersonId: int, nextAlbumId: int, nextPhotoId: int,
      nextThumbnailId: int, source: int, dest: int)
    requires TablesValid(locations, people, albums, photos, thumbnails, nextLocationId, nextPersonId, nextAlbumId, nextPhotoId, nextThumbnailId) && dest in AlbumIds(albums)
    ensures TablesValid(locations, people, albums, Moved(photos, source, dest), thumbnails, nextLocationId, nextPersonId, nextAlbumId, nextPhotoId, nextThumbnailId)
  {
    MovedIds(photos, source, dest);
    MovedKeepsLinks(locations, people, albums, photos, thumbnails, source, dest);
    MovedIdsBelow(photos, source, dest, nextPhotoId);
  }

  // ---------------------------------------------------------------- Photo.thumbnail

  /** A photo as one Python object holds it: the row's id and the
      thumbnail files cached on the instance, by cache key. */
  class PhotoInstance {
    const id: int
    var cache: map<string, string>

    constructor (id: int)
      ensures this.id == id && cache == map[]
    {
      this.id := id;
      cache := map[];
    }

    /** Photo.thumbnail(size): the cached file when the key is set, with
        the tables untouched; otherwise what get_or_create gives for the
        size, whose file is then cached. A failure caches nothing. */
    method ThumbnailFile(store: Store, size: string) returns (r: Result<string, SizeError>)
      requires store.Valid() && id in PhotoIds(store.photos)
      modifies this, store
      ensures store.Valid()
      ensures store.locations == old(store.locations) && store.people == old(store.people)
      ensures store.albums == old(store.albums) && store.photos == old(store.photos)
      ensures store.nextPhotoId == old(store.nextPhotoId)
      ensures store.nextThumbnailId == old(store.nextThumbnailId) + |store.thumbnails| - |old(store.thumbnails)|
      ensures store.nextLocationId == old(store.nextLocationId) && store.nextPersonId == old(store.nextPersonId)
      && store.nextAlbumId == old(store.nextAlbumId)
      ensures CacheKey(size) in old(cache) ==>
        r == Ok(old(cache)[CacheKey(size)]) && cache == old(cache) && store.thumbnails == old(store.thumbnails)
      ensures CacheKey(size) !in old(cache) ==>
        var (row, after) := GetOrCreate(old(store.thumbnails), PhotoById(store.photos, id).value.file, id, size,
                                        old(store.nextThumbnailId));
        store.thumbnails == after
        && (row.Ok? ==> r == Ok(row.value.file) && cache == old(cache)[CacheKey(size) := row.value.file])
        && (row.Err? ==> r == Err(row.error) && cache == old(cache))
    {
      var key := CacheKey(size);
      if key in cache {
        return Ok(cache[key]);
      }
      var t := store.GetOrCreateThumbnail(id, size);
      if t.Err? {
        return Err(t.error);
      }
      r := Ok(t.value.file);
      cache := cache[key := r.value];
    }
  }
}
