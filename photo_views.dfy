/** photos/views/photo.py: the navigation shown beside one photo. The back
    link leads to the page the visitor came from, and the photo paginator
    places the photo in that page's listing and links its neighbours.
    Reversed URLs are kept as a route name with its keyword arguments. */
module PhotoViews {
  import opened Wrappers
  import opened Text
  import opened Tables
  import opened Gallery
  import opened Views

  /** reverse(route, kwargs=...): the route and the arguments it is given,
      each as str() makes it. */
  datatype Link = Link(route: string, kwargs: map<string, string>)

  /** The back link dict: where it leads and what it says. */
  datatype BackLink = BackLink(url: Link, title: string)

  /** The dict get_paginator returns; index is 1-based. */
  datatype PhotoPaginator = PhotoPaginator(hasNext: bool, nextUrl: Option<Link>, hasPrevious: bool,
                                           previousUrl: Option<Link>, index: int, count: int)

  /** Why a photo page cannot be built: a 404 for a missing person,
      album or location, the ValueError of a query's ids, the AttributeError when
      get_photo_queryset has nothing to list, and the ValueError of
      list.index when the photo is not in its listing. */
  datatype DetailError = PersonNotFound | AlbumNotFound | LocationNotFound | InvalidQuery(error: QueryError) | NothingListed
                       | PhotoNotListed

  /** One (id, name) row of values_list('id', 'name'). */
  type Row = (int, Option<string>)

  // ---------------------------------------------------------------- lookups

  /** The first row whose id is `id`. */
  function RowById<T(!new)>(rows: seq<T>, idOf: T -> int, id: int): (r: Option<T>)
    ensures r.Some? ==> r.value in rows && idOf(r.value) == id
    ensures r.None? <==> forall x :: x in rows ==> idOf(x) != id
  {
    if |rows| == 0 then None
    else if idOf(rows[0]) == id then Some(rows[0])
    else
      assert forall x :: x in rows <==> x == rows[0] || x in rows[1..];
      RowById(rows[1..], idOf, id)
  }

  /** get_object_or_404(Person, pk=pk): pk is the digits the route
      captured. */
  function PersonWithPk(people: seq<Person>, pk: string): (r: Option<Person>)
    ensures r.Some? <==> ParseInt(pk).Some? && ParseInt(pk).value in PersonIds(people)
    ensures r.Some? ==> r.value in people && Some(r.value.id) == ParseInt(pk)
  {
    match ParseInt(pk)
    case None => None
    case Some(id) => RowById(people, (p: Person) => p.id, id)
  }

  /** get_object_or_404(Album, pk=pk). */
  function AlbumWithPk(albums: seq<Album>, pk: string): (r: Option<Album>)
    ensures r.Some? <==> ParseInt(pk).Some? && ParseInt(pk).value in AlbumIds(albums)
    ensures r.Some? ==> r.value in albums && Some(r.value.id) == ParseInt(pk)
  {
    match ParseInt(pk)
    case None => None
    case Some(id) => RowById(albums, (a: Album) => a.id, id)
  }

  /** get_object_or_404(Location, pk=pk). */
  function LocationWithPk(locations: seq<Location>, pk: string): (r: Option<Location>)
    ensures r.Some? <==> ParseInt(pk).Some? && ParseInt(pk).value in LocationIds(locations)
    ensures r.Some? ==> r.value in locations && Some(r.value.id) == ParseInt(pk)
  {
    match ParseInt(pk)
    case None => None
    case Some(id) => RowById(locations, (l: Location) => l.id, id)
  }

  // ---------------------------------------------------------------- back link

  /** get_back_link(request, photo, **kwargs), where `album` is
      photo.album: the person the visitor came from, else the album within
      the location, else the search results, else the photo's album. */
  function GetBackLink(people: seq<Person>, album: Album, kwargs: map<string, string>): (r: Result<BackLink, DetailError>)
    ensures "person_pk" in kwargs ==>
      (r.Ok? <==> exists p :: p in people && ParseInt(kwargs["person_pk"]) == Some(p.id))
    ensures "person_pk" in kwargs && r.Ok? ==>
      exists p :: p in people && ParseInt(kwargs["person_pk"]) == Some(p.id)
                  && r.value == BackLink(Link("person", map["pk" := IntToString(p.id)]), p.name)
    ensures "person_pk" !in kwargs && "location_pk" in kwargs ==>
      r == Ok(BackLink(Link("album", map["pk" := IntToString(album.id), "location_pk" := kwargs["location_pk"]]),
                       album.name))
    ensures "person_pk" !in kwargs && "location_pk" !in kwargs && "query" in kwargs ==>
      r == Ok(BackLink(Link("results", map["query" := kwargs["query"]]), "Results"))
    ensures "person_pk" !in kwargs && "location_pk" !in kwargs && "query" !in kwargs ==>
      r == Ok(BackLink(Link("album", map["pk" := IntToString(album.id)]), album.name))
  {
    if "person_pk" in kwargs then
      match PersonWithPk(people, kwargs["person_pk"])
      case None => Err(PersonNotFound)
      case Some(person) => Ok(BackLink(Link("person", map["pk" := IntToString(person.id)]), person.name))
    else if "location_pk" in kwargs then
      Ok(BackLink(Link("album", map["pk" := IntToString(album.id), "location_pk" := kwargs["location_pk"]]),
                  album.name))
    else if "query" in kwargs then
      Ok(BackLink(Link("results", map["query" := kwargs["query"]]), "Results"))
    else
      Ok(BackLink(Link("album", map["pk" := IntToString(album.id)]), album.name))
  }

  // ---------------------------------------------------------------- listings

  /** What comes of evaluating a queryset: None when get_photo_queryset
      fell off its end. */
  function Listed(q: Option<Result<seq<Photo>, QueryError>>): (r: Result<seq<Photo>, DetailError>)
    ensures r.Ok? <==> q.Some? && q.value.Ok?
    ensures r.Ok? ==> r.value == q.value.value
  {
    match q
    case None => Err(NothingListed)
    case Some(Err(e)) => Err(InvalidQuery(e))
    case Some(Ok(s)) => Ok(s)
  }

  /** The queryset get_paginator walks: the person's photos, else the
      search results, else the photo's album. */
  function Listing(photos: seq<Photo>, albums: seq<Album>, people: seq<Person>, photo: Photo,
                   kwargs: map<string, string>): (r: Result<seq<Photo>, DetailError>)
    ensures "person_pk" in kwargs ==> (r == Err(PersonNotFound) <==> PersonWithPk(people, kwargs["person_pk"]).None?)
    ensures "person_pk" in kwargs && ParseInt(kwargs["person_pk"]).Some?
            && ParseInt(kwargs["person_pk"]).value in PersonIds(people) ==>
      r == Ok(PersonPhotos(photos, ParseInt(kwargs["person_pk"]).value))
    ensures "person_pk" !in kwargs && "query" in kwargs && kwargs["query"] != "" ==>
      (r.Ok? <==> QueryPhotos(photos, albums, kwargs["query"]).Ok?)
      && (r.Ok? ==> r.value == QueryPhotos(photos, albums, kwargs["query"]).value)
    ensures "person_pk" !in kwargs && "query" in kwargs && kwargs["query"] == "" ==> r == Err(NothingListed)
    ensures "person_pk" !in kwargs && "query" !in kwargs ==> r == Ok(AlbumPhotos(photos, photo.album))
  {
    if "person_pk" in kwargs then
      match PersonWithPk(people, kwargs["person_pk"])
      case None => Err(PersonNotFound)
      case Some(person) => Listed(PhotoQueryset(photos, albums, None, None, Some(person.id)))
    else if "query" in kwargs then
      Listed(PhotoQueryset(photos, albums, None, Some(kwargs["query"]), None))
    else
      Listed(PhotoQueryset(photos, albums, Some(photo.album), None, None))
  }

  /** The photos a page lists: a person's page, an album's page (with or
      without its location) and the search results; None for a route that
      lists no photos. The album page looks up the album first and then,
      for its own back link, the location its URL names. */
  function PageListing(photos: seq<Photo>, albums: seq<Album>, people: seq<Person>, locations: seq<Location>,
                       link: Link)
    : (r: Option<Result<seq<Photo>, DetailError>>)
    ensures r.Some? <==> (link.route == "person" && "pk" in link.kwargs) || (link.route == "album" && "pk" in link.kwargs)
                         || (link.route == "results" && "query" in link.kwargs)
    ensures link.route == "person" && "pk" in link.kwargs ==>
      (r == Some(Err(PersonNotFound)) <==> PersonWithPk(people, link.kwargs["pk"]).None?)
      && (ParseInt(link.kwargs["pk"]).Some? && ParseInt(link.kwargs["pk"]).value in PersonIds(people) ==>
          r == Some(Ok(PersonPhotos(photos, ParseInt(link.kwargs["pk"]).value))))
    ensures link.route == "album" && "pk" in link.kwargs ==>
      (r == Some(Err(AlbumNotFound)) <==> AlbumWithPk(albums, link.kwargs["pk"]).None?)
      && (r == Some(Err(LocationNotFound)) <==>
          AlbumWithPk(albums, link.kwargs["pk"]).Some? && "location_pk" in link.kwargs
          && LocationWithPk(locations, link.kwargs["location_pk"]).None?)
      && (ParseInt(link.kwargs["pk"]).Some? && ParseInt(link.kwargs["pk"]).value in AlbumIds(albums)
          && ("location_pk" in link.kwargs ==> LocationWithPk(locations, link.kwargs["location_pk"]).Some?) ==>
          r == Some(Ok(AlbumPhotos(photos, ParseInt(link.kwargs["pk"]).value))))
    ensures link.route == "results" && "query" in link.kwargs ==>
      (r.value.Ok? <==> QueryPhotos(photos, albums, link.kwargs["query"]).Ok? && link.kwargs["query"] != "")
      && (r.value.Ok? ==> r.value.value == QueryPhotos(photos, albums, link.kwargs["query"]).value)
  {
    if link.route == "person" && "pk" in link.kwargs then
      match PersonWithPk(people, link.kwargs["pk"])
      case None => Some(Err(PersonNotFound))
      case Some(person) => Some(Listed(PhotoQueryset(photos, albums, None, None, Some(person.id))))
    else if link.route == "album" && "pk" in link.kwargs then
      match AlbumWithPk(albums, link.kwargs["pk"])
      case None => Some(Err(AlbumNotFound))
      case Some(album) =>
        if "location_pk" in link.kwargs && LocationWithPk(locations, link.kwargs["location_pk"]).None? then
          Some(Err(LocationNotFound))
        else Some(Listed(PhotoQueryset(photos, albums, Some(album.id), None, None)))
    else if link.route == "results" && "query" in link.kwargs then
      Some(Listed(PhotoQueryset(photos, albums, None, Some(link.kwargs["query"]), None)))
    else None
  }

  // ---------------------------------------------------------------- paginator

  /** values_list('id', 'name') of a listing already ordered by name. */
  function ValuesList(listing: seq<Photo>): (r: seq<Row>)
    ensures |r| == |listing|
    ensures forall i :: 0 <= i < |r| ==> r[i] == (listing[i].id, listing[i].name)
  {
    seq(|listing|, i requires 0 <= i < |listing| => (listing[i].id, listing[i].name))
  }

  /** list.index: the first position of x, or None for the ValueError. */
  function IndexOf<T(==)>(s: seq<T>, x: T): (r: Option<nat>)
    ensures r.None? <==> x !in s
    ensures r.Some? ==> r.value < |s| && s[r.value] == x && forall j :: 0 <= j < r.value ==> s[j] != x
  {
    if |s| == 0 then None
    else if s[0] == x then Some(0)
    else
      assert forall j :: 1 <= j < |s| ==> s[j] == s[1..][j - 1];
      assert x in s <==> x in s[1..];
      match IndexOf(s[1..], x)
      case None => None
      case Some(i) => Some(i + 1)
  }

  /** build_url(pk): the photo route with the incoming arguments, pk
      replaced. */
  function BuildUrl(kwargs: map<string, string>, pk: int): (r: Link)
    ensures r.route == "photo" && r.kwargs.Keys == kwargs.Keys + {"pk"}
    ensures forall k :: k in kwargs && k != "pk" ==> r.kwargs[k] == kwargs[k]
    ensures ParseInt(r.kwargs["pk"]) == Some(pk)
  {
    ParseIntOfInt(pk);
    Link("photo", kwargs["pk" := IntToString(pk)])
  }

  /** build_url overrides only pk: building from a URL it built gives what
      building from the original gives, and the URL that already names pk
      is built again unchanged. */
  lemma BuildUrlOverridesPk(kwargs: map<string, string>, pk: int, pk': int)
    ensures BuildUrl(BuildUrl(kwargs, pk').kwargs, pk) == BuildUrl(kwargs, pk)
    ensures "pk" in kwargs && kwargs["pk"] == IntToString(pk) ==> BuildUrl(kwargs, pk) == Link("photo", kwargs)
  {
    assert kwargs["pk" := IntToString(pk')]["pk" := IntToString(pk)] == kwargs["pk" := IntToString(pk)];
    if "pk" in kwargs && kwargs["pk"] == IntToString(pk) {
      assert kwargs["pk" := IntToString(pk)] == kwargs;
    }
  }

  /** build_url as a function of the pk. */
  function Urls(kwargs: map<string, string>): int -> Link
  {
    pk => BuildUrl(kwargs, pk)
  }

  /** The paginator for the row `key` in a name-ordered list of rows,
      linking each neighbour by `url` of its id. */
  function Navigate(values: seq<Row>, key: Row, url: int -> Link): (r: Result<PhotoPaginator, DetailError>)
    ensures r.Err? <==> key !in values
    ensures r.Err? ==> r.error == PhotoNotListed
    ensures r.Ok? ==> r.value.count == |values| && 1 <= r.value.index <= |values| && values[r.value.index - 1] == key
                      && forall j :: 0 <= j < r.value.index - 1 ==> values[j] != key
    ensures r.Ok? ==> (r.value.hasNext <==> r.value.index < r.value.count)
                      && (r.value.hasNext <==> r.value.nextUrl.Some?)
                      && (r.value.hasNext ==> r.value.nextUrl == Some(url(values[r.value.index].0)))
    ensures r.Ok? ==> (r.value.hasPrevious <==> r.value.index > 1)
                      && (r.value.hasPrevious <==> r.value.previousUrl.Some?)
                      && (r.value.hasPrevious ==> r.value.previousUrl == Some(url(values[r.value.index - 2].0)))
  {
    match IndexOf(values, key)
    case None => Err(PhotoNotListed)
    case Some(index) =>
      var count := |values|;
      var nextUrl := if count > 1 && index != count - 1 then Some(url(values[index + 1].0)) else None;
      var previousUrl := if count > 1 && index != 0 then Some(url(values[index - 1].0)) else None;
      Ok(PhotoPaginator(nextUrl.Some?, nextUrl, previousUrl.Some?, previousUrl, index + 1, count))
  }

  /** The paginator of a photo in a listing, or why there is none: the
      listing's own error passes through, and a photo the listing lacks is
      the ValueError of list.index. */
  function PaginatorIn(listing: Result<seq<Photo>, DetailError>, photo: Photo, kwargs: map<string, string>)
    : (r: Result<PhotoPaginator, DetailError>)
    ensures listing.Err? ==> r == Err(listing.error)
    ensures listing.Ok? ==> (r.Ok? <==> exists x :: x in listing.value && x.id == photo.id && x.name == photo.name)
    ensures r.Ok? ==> listing.Ok? && 1 <= r.value.index <= r.value.count == |listing.value|
                      && listing.value[r.value.index - 1].id == photo.id
                      && listing.value[r.value.index - 1].name == photo.name
  {
    match listing
    case Err(e) => Err(e)
    case Ok(l) =>
      var values := ValuesList(l);
      assert forall x :: x in l && x.id == photo.id && x.name == photo.name ==> (photo.id, photo.name) in values by {
        forall x | x in l && x.id == photo.id && x.name == photo.name
          ensures (photo.id, photo.name) in values
        {
          var i :| 0 <= i < |l| && l[i] == x;
          assert values[i] == (photo.id, photo.name);
        }
      }
      Navigate(values, (photo.id, photo.name), Urls(kwargs))
  }

  /** get_paginator(request, photo, **kwargs). */
  function GetPaginator(photos: seq<Photo>, albums: seq<Album>, people: seq<Person>, photo: Photo,
                        kwargs: map<string, string>): (r: Result<PhotoPaginator, DetailError>)
  {
    PaginatorIn(Listing(photos, albums, people, photo, kwargs), photo, kwargs)
  }

  // ---------------------------------------------------------------- properties

  /** No two rows of the table share a primary key. */
  predicate PrimaryKeys(photos: seq<Photo>)
  {
    forall x, y :: x in photos && y in photos && x.id == y.id ==> x == y
  }

  /** No two rows of a values list share an id. */
  predicate DistinctIds(values: seq<Row>)
  {
    forall i, j :: 0 <= i < j < |values| ==> values[i].0 != values[j].0
  }

  /** In a listing of rows of the table, the paginator finds a photo
      exactly when the listing holds it, and places it at index. */
  lemma PaginatorInFinds(photos: seq<Photo>, listing: seq<Photo>, photo: Photo, kwargs: map<string, string>)
    requires PrimaryKeys(photos) && photo in photos
    requires forall x :: x in listing ==> x in photos
    ensures var r := PaginatorIn(Ok(listing), photo, kwargs);
            (r.Ok? <==> photo in listing)
            && (r.Ok? ==> r.value.count == |listing| && listing[r.value.index - 1] == photo)
  {
    var r := PaginatorIn(Ok(listing), photo, kwargs);
    if r.Ok? {
      var x := listing[r.value.index - 1];
      assert x in photos && x.id == photo.id;
    }
  }

  /** The paginator finds a photo of the table exactly when its listing
      holds it, and then places it at index, counting the whole listing. */
  lemma PaginatorFindsListed(photos: seq<Photo>, albums: seq<Album>, people: seq<Person>, photo: Photo,
                             kwargs: map<string, string>)
    requires PrimaryKeys(photos) && photo in photos
    requires Listing(photos, albums, people, photo, kwargs).Ok?
    requires forall x :: x in Listing(photos, albums, people, photo, kwargs).value ==> x in photos
    ensures var listing := Listing(photos, albums, people, photo, kwargs).value;
            var r := GetPaginator(photos, albums, people, photo, kwargs);
            (r.Ok? <==> photo in listing)
            && (r.Ok? ==> r.value.count == |listing| && listing[r.value.index - 1] == photo)
  {
    var listed := Listing(photos, albums, people, photo, kwargs);
    PaginatorInFinds(photos, listed.value, photo, kwargs);
    assert listed == Ok(listed.value);
  }

  /** Reached from its own album, a photo of the table is always found:
      its album's listing holds it. */
  lemma AlbumPaginatorFinds(photos: seq<Photo>, albums: seq<Album>, people: seq<Person>, photo: Photo,
                            kwargs: map<string, string>)
    requires PrimaryKeys(photos) && photo in photos
    requires "person_pk" !in kwargs && "query" !in kwargs
    ensures GetPaginator(photos, albums, people, photo, kwargs).Ok?
    ensures GetPaginator(photos, albums, people, photo, kwargs).value.count == |AlbumPhotos(photos, photo.album)|
  {
    var listing := AlbumPhotos(photos, photo.album);
    forall x | x in listing
      ensures x in photos
    {
      ListingMember(photos, photo.album, 0, x);
    }
    ListingMember(photos, photo.album, 0, photo);
    PaginatorFindsListed(photos, albums, people, photo, kwargs);
  }

  /** Reached from a person the photo does not show, the paginator fails
      with the ValueError of list.index. */
  lemma UntaggedPersonNotListed(photos: seq<Photo>, albums: seq<Album>, people: seq<Person>, photo: Photo,
                                kwargs: map<string, string>, personId: int)
    requires PrimaryKeys(photos) && photo in photos
    requires "person_pk" in kwargs && ParseInt(kwargs["person_pk"]) == Some(personId)
    requires personId in PersonIds(people) && personId !in photo.people
    ensures GetPaginator(photos, albums, people, photo, kwargs) == Err(PhotoNotListed)
  {
    var listing := PersonPhotos(photos, personId);
    forall x | x in listing
      ensures x in photos
    {
      ListingMember(photos, 0, personId, x);
    }
    ListingMember(photos, 0, personId, photo);
    PaginatorFindsListed(photos, albums, people, photo, kwargs);
  }

  /** In a list of distinct ids, the row after `key` is found one place
      further on, and its previous link is `url'` of key's id. */
  lemma NavigateNext(values: seq<Row>, key: Row, url: int -> Link, url': int -> Link)
    requires DistinctIds(values)
    requires Navigate(values, key, url).Ok? && Navigate(values, key, url).value.hasNext
    ensures var p := Navigate(values, key, url).value;
            var q := Navigate(values, values[p.index], url');
            q.Ok? && q.value.index == p.index + 1 && q.value.count == p.count && q.value.previousUrl == Some(url'(key.0))
  {
    var p := Navigate(values, key, url).value;
    var next := values[p.index];
    assert forall j :: 0 <= j < p.index ==> values[j] != next;
  }

  /** In a list of distinct ids, the row before `key` is found one place
      back, and its next link is `url'` of key's id. */
  lemma NavigatePrevious(values: seq<Row>, key: Row, url: int -> Link, url': int -> Link)
    requires DistinctIds(values)
    requires Navigate(values, key, url).Ok? && Navigate(values, key, url).value.hasPrevious
    ensures var p := Navigate(values, key, url).value;
            var q := Navigate(values, values[p.index - 2], url');
            q.Ok? && q.value.index == p.index - 1 && q.value.count == p.count && q.value.nextUrl == Some(url'(key.0))
  {
    var p := Navigate(values, key, url).value;
    var previous := values[p.index - 2];
    assert forall j :: 0 <= j < p.index - 2 ==> values[j] != previous;
  }

  /** Following the next link and then that photo's previous link leads
      back: the next photo sits one place further on, and its previous
      link is the photo's own URL under the same route. */
  lemma NextThenPrevious(values: seq<Row>, key: Row, kwargs: map<string, string>)
    requires DistinctIds(values)
    requires Navigate(values, key, Urls(kwargs)).Ok? && Navigate(values, key, Urls(kwargs)).value.hasNext
    ensures var p := Navigate(values, key, Urls(kwargs)).value;
            var q := Navigate(values, values[p.index], Urls(p.nextUrl.value.kwargs));
            q.Ok? && q.value.index == p.index + 1 && q.value.count == p.count
            && q.value.previousUrl == Some(BuildUrl(kwargs, key.0))
  {
    var p := Navigate(values, key, Urls(kwargs)).value;
    var nextKwargs := p.nextUrl.value.kwargs;
    NavigateNext(values, key, Urls(kwargs), Urls(nextKwargs));
    var q := Navigate(values, values[p.index], Urls(nextKwargs));
    assert q.value.previousUrl == Some(BuildUrl(nextKwargs, key.0));
    BuildUrlOverridesPk(kwargs, key.0, values[p.index].0);
  }

  /** Following the previous link and then that photo's next link leads
      back to the photo's own URL under the same route. */
  lemma PreviousThenNext(values: seq<Row>, key: Row, kwargs: map<string, string>)
    requires DistinctIds(values)
    requires Navigate(values, key, Urls(kwargs)).Ok? && Navigate(values, key, Urls(kwargs)).value.hasPrevious
    ensures var p := Navigate(values, key, Urls(kwargs)).value;
            var q := Navigate(values, values[p.index - 2], Urls(p.previousUrl.value.kwargs));
            q.Ok? && q.value.index == p.index - 1 && q.value.count == p.count
            && q.value.nextUrl == Some(BuildUrl(kwargs, key.0))
  {
    var p := Navigate(values, key, Urls(kwargs)).value;
    var previousKwargs := p.previousUrl.value.kwargs;
    NavigatePrevious(values, key, Urls(kwargs), Urls(previousKwargs));
    var q := Navigate(values, values[p.index - 2], Urls(previousKwargs));
    assert q.value.nextUrl == Some(BuildUrl(previousKwargs, key.0));
    BuildUrlOverridesPk(kwargs, key.0, values[p.index - 2].0);
  }

  /** The keyword arguments detail passes on once it has taken `pk` for
      itself, on each photo route: none for /photos/<pk>/, location_pk and
      album_pk for /locations/<location_pk>/albums/<album_pk>/photos/<pk>/,
      person_pk for /people/<person_pk>/photos/<pk>/ and query for
      /search/<query>/photos/<pk>/, where a query is never empty. */
  predicate Routed(kwargs: map<string, string>)
  {
    kwargs.Keys == {} || kwargs.Keys == {"location_pk", "album_pk"} || kwargs.Keys == {"person_pk"}
    || (kwargs.Keys == {"query"} && kwargs["query"] != "")
  }

  /** On every photo route the back link leads to the page whose listing
      the paginator walks, so next and previous stay in the listing the
      visitor came from. On the location route this holds only when the
      location exists: the photo page never looks it up, but the album page
      does (see BackLinkMissingLocation). */
  lemma BackLinkListsPaginated(photos: seq<Photo>, albums: seq<Album>, people: seq<Person>, locations: seq<Location>,
                               photo: Photo, album: Album, kwargs: map<string, string>)
    requires Routed(kwargs)
    requires album in albums && album.id == photo.album
    requires GetBackLink(people, album, kwargs).Ok?
    requires "location_pk" in kwargs ==> LocationWithPk(locations, kwargs["location_pk"]).Some?
    ensures PageListing(photos, albums, people, locations, GetBackLink(people, album, kwargs).value.url)
            == Some(Listing(photos, albums, people, photo, kwargs))
  {
    var link := GetBackLink(people, album, kwargs).value.url;
    if "person_pk" in kwargs {
      var p :| p in people && ParseInt(kwargs["person_pk"]) == Some(p.id)
               && link == Link("person", map["pk" := IntToString(p.id)]);
      ParseIntOfInt(p.id);
      assert PersonWithPk(people, link.kwargs["pk"]).Some?;
    } else {
      ParseIntOfInt(album.id);
      if "location_pk" in kwargs || "query" !in kwargs {
        assert link.route == "album" && link.kwargs["pk"] == IntToString(album.id);
        assert AlbumWithPk(albums, link.kwargs["pk"]).Some?;
      }
    }
  }

  /** On the location route with a location that does not exist, the photo
      page is shown but its back link leads to the album page's 404. */
  lemma BackLinkMissingLocation(photos: seq<Photo>, albums: seq<Album>, people: seq<Person>, locations: seq<Location>,
                                album: Album, kwargs: map<string, string>)
    requires album in albums
    requires "person_pk" !in kwargs && "location_pk" in kwargs
    requires LocationWithPk(locations, kwargs["location_pk"]).None?
    ensures GetBackLink(people, album, kwargs).Ok?
    ensures PageListing(photos, albums, people, locations, GetBackLink(people, album, kwargs).value.url)
            == Some(Err(LocationNotFound))
  {
    var link := GetBackLink(people, album, kwargs).value.url;
    ParseIntOfInt(album.id);
    assert link.kwargs["pk"] == IntToString(album.id) && link.kwargs["location_pk"] == kwargs["location_pk"];
    assert AlbumWithPk(albums, link.kwargs["pk"]).Some?;
  }
}
