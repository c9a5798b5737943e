/** photos/views/__init__.py: the photo listing behind albums, people and
    search results; the upload view and the action it records; and the
    search view, which turns the posted form into the query of a results
    link. */
module Views {
  import opened Wrappers
  import opened Text
  import opened Tables
  import opened Ordering
  import opened QueryDicts
  import opened Stream
  import opened Gallery
  import opened PhotoUtils
  import opened Uploads
  import opened Forms
  import opened Pagination

  /** PHOTOS_PER_PAGE in the settings. */
  const PhotosPerPage := 50

  /** The form field the CSRF middleware adds to every posted form. */
  const CsrfField := "csrfmiddlewaretoken"

  /** The ValueError the id filters raise for a value int() refuses. */
  datatype QueryError = InvalidId(value: string)

  // ---------------------------------------------------------------- filters

  /** `q in s`, ignoring ASCII case: icontains. */
  predicate IContains(s: string, q: string)
  {
    Contains(Lower(s), Lower(q))
  }

  /** Some album satisfies `keep`. */
  predicate AnyAlbum(albums: seq<Album>, keep: Album -> bool)
    ensures AnyAlbum(albums, keep) <==> exists a :: a in albums && keep(a)
  {
    if |albums| == 0 then false
    else
      assert forall a :: a in albums <==> a == albums[0] || a in albums[1..];
      keep(albums[0]) || AnyAlbum(albums[1..], keep)
  }

  /** album__name__icontains=q: the photo's album has a name containing q. */
  predicate AlbumNameContains(albums: seq<Album>, albumId: int, q: string)
  {
    AnyAlbum(albums, (a: Album) => a.id == albumId && IContains(a.name, q))
  }

  /** album__location__in=ids: the photo's album lies at one of the
      locations. */
  predicate AlbumLocatedIn(albums: seq<Album>, albumId: int, ids: set<int>)
  {
    AnyAlbum(albums, (a: Album) => a.id == albumId && a.location.Some? && a.location.value in ids)
  }

  /** The ids `read` makes of a list of values, or the error for the first
      value it refuses. */
  function ReadIds(values: seq<string>, read: string -> Option<int>): (r: Result<set<int>, QueryError>)
  {
    if |values| == 0 then Ok({})
    else
      match read(values[0])
      case None => Err(InvalidId(values[0]))
      case Some(id) =>
        match ReadIds(values[1..], read)
        case Err(e) => Err(e)
        case Ok(ids) => Ok({id} + ids)
  }

  /** The ids int() makes of a list of values, or the ValueError for the
      first value it refuses. */
  function ParseIds(values: seq<string>): (r: Result<set<int>, QueryError>)
  {
    ReadIds(values, ParseInt)
  }

  /** The filters a search query asks for: the text of a non-empty q, and
      the ids of a, p and l when they are given. */
  datatype Criteria = Criteria(text: Option<string>, albumIds: Option<set<int>>, personIds: Option<set<int>>,
                               locationIds: Option<set<int>>)

  /** query_dict.get('q') when it is not empty. */
  function TextFilter(d: MultiValueDict): (r: Option<string>)
    ensures r.Some? <==> Get(d, "q").Some? && Get(d, "q").value != ""
    ensures r.Some? ==> r == Get(d, "q")
  {
    match Get(d, "q")
    case None => None
    case Some(q) => if q == "" then None else Some(q)
  }

  /** query_dict.getlist(key) as ids, when the list is not empty. */
  function IdFilter(d: MultiValueDict, key: string): (r: Result<Option<set<int>>, QueryError>)
  {
    var values := GetList(d, key);
    if values == [] then Ok(None)
    else
      match ParseIds(values)
      case Err(e) => Err(e)
      case Ok(ids) => Ok(Some(ids))
  }

  /** The filters of a query, read in the order the view applies them: q,
      then a, p and l, the first id int() refuses raising. */
  function QueryCriteria(d: MultiValueDict): (r: Result<Criteria, QueryError>)
    ensures r.Ok? <==> IdFilter(d, "a").Ok? && IdFilter(d, "p").Ok? && IdFilter(d, "l").Ok?
    ensures r.Ok? ==> r.value == Criteria(TextFilter(d), IdFilter(d, "a").value, IdFilter(d, "p").value,
                                          IdFilter(d, "l").value)
  {
    match IdFilter(d, "a")
    case Err(e) => Err(e)
    case Ok(a) =>
      match IdFilter(d, "p")
      case Err(e) => Err(e)
      case Ok(p) =>
        match IdFilter(d, "l")
        case Err(e) => Err(e)
        case Ok(l) => Ok(Criteria(TextFilter(d), a, p, l))
  }

  /** Q(name__icontains=q) | Q(album__name__icontains=q); a photo without a
      name matches only through its album. */
  predicate MatchesText(albums: seq<Album>, x: Photo, q: string)
  {
    (x.name.Some? && IContains(x.name.value, q)) || AlbumNameContains(albums, x.album, q)
  }

  /** A photo passes every filter the query asks for. */
  predicate Matches(c: Criteria, albums: seq<Album>, x: Photo)
  {
    (c.text.None? || MatchesText(albums, x, c.text.value))
    && (c.albumIds.None? || x.album in c.albumIds.value)
    && (c.personIds.None? || x.people * c.personIds.value != {})
    && (c.locationIds.None? || AlbumLocatedIn(albums, x.album, c.locationIds.value))
  }

  /** Photos listed in the default order, by name. */
  function ByNameOrder(photos: seq<Photo>): (r: seq<Photo>)
    ensures multiset(r) == multiset(photos)
    ensures forall i, j :: 0 <= i < j < |r| ==> NameLe(r[i].name, r[j].name)
  {
    SortByName(photos, (x: Photo) => x.name)
  }

  /** The photos a search query finds, by name, or the ValueError. */
  function QueryPhotos(photos: seq<Photo>, albums: seq<Album>, query: string): (r: Result<seq<Photo>, QueryError>)
    ensures r.Ok? <==> QueryCriteria(Parse(query)).Ok?
    ensures r.Err? ==> r.error == QueryCriteria(Parse(query)).error
  {
    match QueryCriteria(Parse(query))
    case Err(e) => Err(e)
    case Ok(c) => Ok(ByNameOrder(Filter(photos, (x: Photo) => Matches(c, albums, x))))
  }

  /** album.photo_set.all() */
  function AlbumPhotos(photos: seq<Photo>, albumId: int): (r: seq<Photo>)
  {
    ByNameOrder(Filter(photos, (x: Photo) => x.album == albumId))
  }

  /** person.photo_set.all() */
  function PersonPhotos(photos: seq<Photo>, personId: int): (r: seq<Photo>)
  {
    ByNameOrder(Filter(photos, (x: Photo) => personId in x.people))
  }

  /** get_photo_queryset(album, query, person): the album's photos when an
      album is given, else the person's photos when a person is given, else
      the photos a non-empty query finds; None when there is nothing to list
      (the function falls off its end). */
  function PhotoQueryset(photos: seq<Photo>, albums: seq<Album>, album: Option<int>, query: Option<string>,
                         person: Option<int>): (r: Option<Result<seq<Photo>, QueryError>>)
    ensures album.Some? ==> r == Some(Ok(AlbumPhotos(photos, album.value)))
    ensures album.None? && person.Some? ==> r == Some(Ok(PersonPhotos(photos, person.value)))
    ensures album.None? && person.None? && query.Some? && query.value != "" ==>
      r == Some(QueryPhotos(photos, albums, query.value))
    ensures r.None? <==> album.None? && person.None? && (query.None? || query.value == "")
  {
    if album.Some? then Some(Ok(AlbumPhotos(photos, album.value)))
    else if person.Some? then Some(Ok(PersonPhotos(photos, person.value)))
    else if query.Some? && query.value != "" then Some(QueryPhotos(photos, albums, query.value))
    else None
  }

  // ---------------------------------------------------------------- filter lemmas

  /** A list is refused exactly when one of its values is, and then for
      the first such value. */
  lemma {:induction false} ReadIdsRefused(values: seq<string>, read: string -> Option<int>)
    ensures ReadIds(values, read).Err? <==> exists k :: 0 <= k < |values| && read(values[k]).None?
    ensures ReadIds(values, read).Err? ==>
      exists k :: 0 <= k < |values| && read(values[k]).None? && ReadIds(values, read).error == InvalidId(values[k])
                  && forall j :: 0 <= j < k ==> read(values[j]).Some?
    decreases |values|
  {
    if |values| > 0 {
      var rest := values[1..];
      ReadIdsRefused(rest, read);
      if read(values[0]).Some? && ReadIds(rest, read).Err? {
        var k :| 0 <= k < |rest| && read(rest[k]).None? && ReadIds(rest, read).error == InvalidId(rest[k])
          && forall j :: 0 <= j < k ==> read(rest[j]).Some?;
        assert values[k + 1] == rest[k];
        assert forall j :: 1 <= j < k + 1 ==> values[j] == rest[j - 1];
      }
      if read(values[0]).Some? && exists k :: 0 <= k < |values| && read(values[k]).None? {
        var k :| 0 <= k < |values| && read(values[k]).None?;
        assert rest[k - 1] == values[k];
      }
    }
  }

  /** The ids of an accepted list are the values `read` makes of its
      members. */
  lemma {:induction false} ReadIdsMember(values: seq<string>, read: string -> Option<int>, id: int)
    requires ReadIds(values, read).Ok?
    ensures id in ReadIds(values, read).value <==> exists k :: 0 <= k < |values| && read(values[k]) == Some(id)
    decreases |values|
  {
    if |values| > 0 {
      var rest := values[1..];
      ReadIdsMember(rest, read, id);
      if id in ReadIds(values, read).value && id != read(values[0]).value {
        var k :| 0 <= k < |rest| && read(rest[k]) == Some(id);
        assert values[k + 1] == rest[k];
      }
      if exists k :: 0 <= k < |values| && read(values[k]) == Some(id) {
        var k :| 0 <= k < |values| && read(values[k]) == Some(id);
        if k > 0 {
          assert rest[k - 1] == values[k];
        }
      }
    }
  }

  /** The ids a/p/l name are the values int() reads in them; a list is
      refused exactly when int() refuses one of its values. */
  lemma ParseIdsSpec(values: seq<string>, id: int)
    ensures ParseIds(values).Err? <==> exists k :: 0 <= k < |values| && ParseInt(values[k]).None?
    ensures ParseIds(values).Ok? ==>
      (id in ParseIds(values).value <==> exists k :: 0 <= k < |values| && ParseInt(values[k]) == Some(id))
  {
    ReadIdsRefused(values, ParseInt);
    if ParseIds(values).Ok? {
      ReadIdsMember(values, ParseInt, id);
    }
  }

  /** A photo is among those a query finds exactly when it is a photo and
      passes every filter the query asks for. */
  lemma QueryMember(photos: seq<Photo>, albums: seq<Album>, query: string, x: Photo)
    requires QueryCriteria(Parse(query)).Ok?
    ensures var c := QueryCriteria(Parse(query)).value;
      x in QueryPhotos(photos, albums, query).value <==> x in photos && Matches(c, albums, x)
  {
    var c := QueryCriteria(Parse(query)).value;
    var kept := Filter(photos, (x: Photo) => Matches(c, albums, x));
    FilterMember(photos, (x: Photo) => Matches(c, albums, x), x);
    var r := ByNameOrder(kept);
    assert x in r <==> x in multiset(r);
    assert x in kept <==> x in multiset(kept);
  }

  /** A query that names none of q, a, p and l lists every photo, by name:
      the filters only ever narrow the listing. */
  lemma QueryWithoutFilters(photos: seq<Photo>, albums: seq<Album>, query: string)
    requires var d := Parse(query);
      TextFilter(d).None? && GetList(d, "a") == [] && GetList(d, "p") == [] && GetList(d, "l") == []
    ensures QueryPhotos(photos, albums, query) == Ok(ByNameOrder(photos))
  {
    var c := QueryCriteria(Parse(query)).value;
    FilterAll(photos, (x: Photo) => Matches(c, albums, x));
  }

  /** The text filter keeps a photo whose name contains q in any case, and
      one whose album's name does, and no other. */
  lemma TextMatch(albums: seq<Album>, x: Photo, q: string)
    ensures MatchesText(albums, x, q) <==>
      (x.name.Some? && Contains(Lower(x.name.value), Lower(q)))
      || exists a :: a in albums && a.id == x.album && Contains(Lower(a.name), Lower(q))
  {
  }

  /** The location filter keeps a photo exactly when its album has one of
      the locations; an album without a location never passes. */
  lemma LocationMatch(albums: seq<Album>, x: Photo, ids: set<int>)
    ensures AlbumLocatedIn(albums, x.album, ids) <==>
      exists a :: a in albums && a.id == x.album && a.location.Some? && a.location.value in ids
  {
  }

  /** The album's and the person's listings hold exactly their photos. */
  lemma ListingMember(photos: seq<Photo>, albumId: int, personId: int, x: Photo)
    ensures x in AlbumPhotos(photos, albumId) <==> x in photos && x.album == albumId
    ensures x in PersonPhotos(photos, personId) <==> x in photos && personId in x.people
  {
    FilterMember(photos, (x: Photo) => x.album == albumId, x);
    FilterMember(photos, (x: Photo) => personId in x.people, x);
    var a := Filter(photos, (x: Photo) => x.album == albumId);
    var p := Filter(photos, (x: Photo) => personId in x.people);
    assert x in ByNameOrder(a) <==> x in multiset(ByNameOrder(a));
    assert x in ByNameOrder(p) <==> x in multiset(ByNameOrder(p));
  }

  // ---------------------------------------------------------------- upload

  /** The verb of the action the upload view records. */
  function AddedVerb(photoCount: nat): string
  {
    "added " + NatToString(photoCount) + " photos to the album"
  }

  /** The errors UploadForm.is_valid() finds, field by field: the album is
      required and must be an album; the photos are required, and then
      clean_photos must pass. */
  function UploadErrors(albums: seq<Album>, album: Option<int>, names: seq<string>): (r: seq<FormError>)
    ensures r == [] <==> album.Some? && album.value in AlbumIds(albums) && |names| > 0
                         && forall k :: 0 <= k < |names| ==> FileAllowed(names[k])
  {
    RefusedEmpty(names, FileAllowed);
    (if album.None? then [Required] else if album.value !in AlbumIds(albums) then [InvalidChoice] else [])
    + (if |names| == 0 then [Required]
       else if Disallowed(names) != [] then [NotAllowed(NotAllowedMessage(Disallowed(names)))]
       else [])
  }

  /** The upload view for a form naming `album` and the files `names` (with
      the UUID each upload draws): an invalid form changes nothing and
      yields its errors; a valid one saves the photos and thumbnails, records
      that the user added that many photos to the album, and redirects to
      the album. */
  method Upload(store: Store, userId: int, now: int, album: Option<int>, names: seq<string>, tokens: seq<Uuid>)
    returns (r: Result<int, seq<FormError>>)
    requires store.Valid() && |tokens| == |names|
    modifies store, store.log
    ensures store.Valid()
    ensures UploadErrors(old(store.albums), album, names) != [] ==>
      r == Err(UploadErrors(old(store.albums), album, names))
      && store.photos == old(store.photos) && store.thumbnails == old(store.thumbnails)
      && store.log.actions == old(store.log.actions)
    ensures UploadErrors(old(store.albums), album, names) == [] ==>
      r == Ok(album.value)
      && store.photos == old(store.photos) + UploadedPhotos(old(store.nextPhotoId), album.value, names, tokens)
      && store.thumbnails == old(store.thumbnails)
           + UploadedThumbnails(old(store.nextThumbnailId),
                                UploadedPhotos(old(store.nextPhotoId), album.value, names, tokens))
      && store.log.actions == old(store.log.actions)
           + [Action(old(store.log.nextId), now, userId, AddedVerb(|names|), None, None, Some(ObjRef(AlbumKind, album.value)))]
    ensures store.albums == old(store.albums)
    ensures store.locations == old(store.locations) && store.people == old(store.people)
    ensures UploadErrors(old(store.albums), album, names) != [] ==>
      store.nextPhotoId == old(store.nextPhotoId) && store.nextThumbnailId == old(store.nextThumbnailId)
      && store.log.nextId == old(store.log.nextId)
    ensures UploadErrors(old(store.albums), album, names) == [] ==>
      store.nextPhotoId == old(store.nextPhotoId) + |names| && store.nextThumbnailId == old(store.nextThumbnailId) + |names|
      && store.log.nextId == old(store.log.nextId) + 1
    ensures store.nextLocationId == old(store.nextLocationId) && store.nextPersonId == old(store.nextPersonId)
    ensures store.nextAlbumId == old(store.nextAlbumId)
  {
    var errors := UploadErrors(store.albums, album, names);
    if errors != [] {
      return Err(errors);
    }
    var photosError := CleanPhotos(names);
    assert photosError.None?;
    var saved, photoCount := UploadSave(store, album.value, names, tokens);
    var action := store.log.Send(now, userId, AddedVerb(photoCount), None, None, Some(ObjRef(AlbumKind, saved)));
    r := Ok(saved);
  }

  /** The recorded action reads "<actor> added N photos to the album
      <album>". */
  lemma UploadActionText(actor: string, photoCount: nat, albumName: string)
    ensures Describe(actor, AddedVerb(photoCount), None, None, Some(albumName))
      == actor + " added " + NatToString(photoCount) + " photos to the album " + albumName
  {
  }

  // ---------------------------------------------------------------- search

  /** The search view on a posted form: an empty post shows the form
      again (None); otherwise the post without its CSRF token, urlencoded,
      is the query of the results link. */
  function SearchQuery(post: MultiValueDict): (r: Option<string>)
    ensures r.None? <==> post == []
  {
    if post == [] then None else Some(Encode(Remove(post, CsrfField)))
  }

  /** The results link carries every posted field but the CSRF token, with
      its values, and nothing else. */
  lemma SearchDropsToken(post: MultiValueDict, other: string)
    requires Encodable(post) && post != []
    ensures Parse(SearchQuery(post).value) == Remove(post, CsrfField)
    ensures !HasKey(Parse(SearchQuery(post).value), CsrfField)
    ensures other != CsrfField ==> GetList(Parse(SearchQuery(post).value), other) == GetList(post, other)
  {
    RemoveEncodable(post, CsrfField);
    ParseEncode(Remove(post, CsrfField));
    RemoveKey(post, CsrfField, other);
  }

  // ---------------------------------------------------------------- results

  /** The results view: the photos the query finds, a page of them at a
      time. A query with an id int() refuses raises the ValueError. */
  method Results(photos: seq<Photo>, albums: seq<Album>, path: string, get: MultiValueDict, query: string)
    returns (r: Result<Result<(Paginator<Photo>, seq<Photo>), NotFound>, QueryError>)
    requires query != ""
    ensures r.Err? <==> QueryPhotos(photos, albums, query).Err?
    ensures r.Err? ==> r.error == QueryPhotos(photos, albums, query).error
    ensures r.Ok? ==>
      var found := QueryPhotos(photos, albums, query).value;
      (r.value.Err? <==> ChoosePage(get, DefaultPageArg, |found|, PhotosPerPage).Err?)
      && (r.value.Ok? ==> r.value.value.1 == PageItems(found, PhotosPerPage, PageNumber(get, DefaultPageArg)))
  {
    var queryset := PhotoQueryset(photos, albums, None, Some(query), None);
    if queryset.value.Err? {
      return Err(queryset.value.error);
    }
    var page := Paginate(path, get, queryset.value.value, PhotosPerPage, DefaultPageArg);
    r := Ok(page);
  }
}
