/** The photo forms: merging one album into another, checking the names of
    uploaded files, and saving an upload as photos of an album, each with
    its 200x200-fit thumbnail. */
module Forms {
  import opened Wrappers
  import opened Text
  import opened Tables
  import opened Stream
  import opened PhotoUtils
  import opened Uploads
  import opened Gallery

  /** The validation errors of the forms: a required field left empty, a
      choice outside the field's queryset, and the message clean_photos
      raises. */
  datatype FormError = Required | InvalidChoice | NotAllowed(message: string)

  /** The application label of Photo, which names the upload folder. */
  const PhotosApp := "photos"

  /** The size every uploaded photo is thumbnailed at. */
  const UploadSize := "200x200-fit"

  // ---------------------------------------------------------------- AlbumMergeForm

  /** The queryset of new_album: every album except the one being merged. */
  function MergeChoices(albums: seq<Album>, instanceId: int): (r: seq<Album>)
    ensures |r| <= |albums|
  {
    OtherAlbums(albums, instanceId)
  }

  /** An album is offered exactly when it exists and is not the album being
      merged; so an album is never offered as its own destination. */
  lemma MergeChoicesOffer(albums: seq<Album>, instanceId: int, a: Album)
    ensures a in MergeChoices(albums, instanceId) <==> a in albums && a.id != instanceId
  {
    FilterMember(albums, (b: Album) => b.id != instanceId, a);
  }

  /** Cleaning new_album: no choice is the required error, and a choice
      that is not offered is refused. */
  function MergeClean(albums: seq<Album>, instanceId: int, choice: Option<int>): (r: Result<int, FormError>)
    ensures r.Ok? <==> choice.Some? && choice.value != instanceId && choice.value in AlbumIds(albums)
    ensures r.Ok? ==> r.value == choice.value
    ensures choice.None? ==> r == Err(Required)
  {
    if choice.None? then Err(Required)
    else if choice.value in AlbumIds(MergeChoices(albums, instanceId)) then Ok(choice.value)
    else
      assert choice.value == instanceId || choice.value !in AlbumIds(albums) by {
        if choice.value != instanceId && choice.value in AlbumIds(albums) {
          var a :| a in albums && a.id == choice.value;
          MergeChoicesOffer(albums, instanceId, a);
        }
      }
      Err(InvalidChoice)
  }

  /** After a merge the destination holds its own photos and every photo of
      the source, the source holds none, and the set of photos is the same. */
  lemma MergedPhotos(photos: seq<Photo>, source: int, dest: int)
    requires source != dest
    ensures AlbumPhotoIds(Moved(photos, source, dest), dest) == AlbumPhotoIds(photos, source) + AlbumPhotoIds(photos, dest)
    ensures AlbumPhotoIds(Moved(photos, source, dest), source) == {}
    ensures PhotoIds(Moved(photos, source, dest)) == PhotoIds(photos)
  {
    var r := Moved(photos, source, dest);
    MovedIds(photos, source, dest);
    forall id | id in AlbumPhotoIds(photos, source) + AlbumPhotoIds(photos, dest)
      ensures id in AlbumPhotoIds(r, dest)
    {
      var p :| p in photos && p.id == id && (p.album == source || p.album == dest);
      var k :| 0 <= k < |photos| && photos[k] == p;
      assert r[k].id == id && r[k].album == dest;
    }
    forall id | id in AlbumPhotoIds(r, dest)
      ensures id in AlbumPhotoIds(photos, source) + AlbumPhotoIds(photos, dest)
    {
      var p :| p in r && p.id == id && p.album == dest;
      var k :| 0 <= k < |r| && r[k] == p;
      assert photos[k].id == id && (photos[k].album == source || photos[k].album == dest);
    }
    forall p | p in r
      ensures p.album != source
    {
      var k :| 0 <= k < |r| && r[k] == p;
    }
  }

  /** What deleting the emptied source album leaves: no photo, thumbnail
      or photo action goes with it. */
  lemma EmptiedAlbumDelete(photos: seq<Photo>, thumbnails: seq<Thumbnail>, source: int)
    requires AlbumPhotoIds(photos, source) == {}
    ensures PhotosOutside(photos, source) == photos
    ensures ThumbnailsOutside(thumbnails, AlbumPhotoIds(photos, source)) == thumbnails
    ensures PhotoRefs(AlbumPhotoIds(photos, source)) == {}
  {
    forall k | 0 <= k < |photos|
      ensures photos[k].album != source
    {
      assert photos[k].id !in AlbumPhotoIds(photos, source);
    }
    FilterAll(photos, (p: Photo) => p.album != source);
    var none := AlbumPhotoIds(photos, source);
    FilterAll(thumbnails, (t: Thumbnail) => t.photo !in none);
  }

  /** AlbumMergeForm.save(): the photos of the album being merged move to
      the chosen album, the merged album is deleted (taking the actions
      that point at it), and the chosen album is returned. Photos of other
      albums and all thumbnails stay as they were. */
  method MergeSave(store: Store, instanceId: int, newAlbum: int) returns (r: int)
    requires store.Valid()
    requires MergeClean(store.albums, instanceId, Some(newAlbum)).Ok?
    modifies store, store.log
    ensures store.Valid()
    ensures r == newAlbum
    ensures store.photos == Moved(old(store.photos), instanceId, newAlbum)
    ensures store.albums == OtherAlbums(old(store.albums), instanceId)
    ensures store.thumbnails == old(store.thumbnails)
    ensures store.locations == old(store.locations) && store.people == old(store.people)
    ensures store.log.actions == Unmentioning(old(store.log.actions), {ObjRef(AlbumKind, instanceId)})
    ensures store.nextLocationId == old(store.nextLocationId) && store.nextPersonId == old(store.nextPersonId)
    ensures store.nextAlbumId == old(store.nextAlbumId) && store.nextPhotoId == old(store.nextPhotoId)
    ensures store.nextThumbnailId == old(store.nextThumbnailId) && store.log.nextId == old(store.log.nextId)
  {
    store.MovePhotos(instanceId, newAlbum);
    ghost var moved := store.photos;
    MergedPhotos(old(store.photos), instanceId, newAlbum);
    EmptiedAlbumDelete(moved, store.thumbnails, instanceId);
    assert {ObjRef(AlbumKind, instanceId)} + PhotoRefs(AlbumPhotoIds(moved, instanceId)) == {ObjRef(AlbumKind, instanceId)};
    store.DeleteAlbum(instanceId);
    r := newAlbum;
  }

  // ---------------------------------------------------------------- UploadForm.clean_photos

  /** The names among `names` that `allowed` refuses, in order. */
  function Refused(names: seq<string>, allowed: string -> bool): (r: seq<string>)
  {
    if |names| == 0 then []
    else
      var last := names[|names| - 1];
      Refused(names[..|names| - 1], allowed) + (if allowed(last) then [] else [last])
  }

  /** A name is refused exactly when it is one of the names and is not
      allowed. */
  lemma {:induction false} RefusedMember(names: seq<string>, allowed: string -> bool, x: string)
    ensures x in Refused(names, allowed) <==> x in names && !allowed(x)
    decreases |names|
  {
    if |names| > 0 {
      var front, last := names[..|names| - 1], names[|names| - 1];
      RefusedMember(front, allowed, x);
      assert names == front + [last];
    }
  }

  /** Nothing is refused exactly when every name is allowed. */
  lemma RefusedEmpty(names: seq<string>, allowed: string -> bool)
    ensures Refused(names, allowed) == [] <==> forall k :: 0 <= k < |names| ==> allowed(names[k])
  {
    if Refused(names, allowed) == [] {
      forall k | 0 <= k < |names|
        ensures allowed(names[k])
      {
        RefusedMember(names, allowed, names[k]);
      }
    } else {
      var x := Refused(names, allowed)[0];
      RefusedMember(names, allowed, x);
    }
  }

  /** The uploaded names file_allowed refuses, in upload order. */
  function Disallowed(names: seq<string>): seq<string>
  {
    Refused(names, FileAllowed)
  }

  /** A name is listed exactly when it was uploaded and file_allowed
      refuses it. */
  lemma DisallowedMember(names: seq<string>, x: string)
    ensures x in Disallowed(names) <==> x in names && !FileAllowed(x)
  {
    RefusedMember(names, FileAllowed, x);
  }

  /** The message of the error clean_photos raises. */
  function NotAllowedMessage(notAllowed: seq<string>): string
  {
    "The following files are not allowed: " + Join(notAllowed, ", ")
  }

  /** UploadForm.clean_photos over the names of the uploaded files: the
      names are checked one by one, and if any is not allowed one error
      lists them all, in upload order. */
  method CleanPhotos(names: seq<string>) returns (error: Option<FormError>)
    ensures error.None? <==> forall k :: 0 <= k < |names| ==> FileAllowed(names[k])
    ensures error.Some? ==> error.value == NotAllowed(NotAllowedMessage(Disallowed(names)))
  {
    var notAllowed: seq<string> := [];
    for i := 0 to |names|
      invariant notAllowed == Refused(names[..i], FileAllowed)
    {
      assert names[..i + 1][..i] == names[..i];
      if !FileAllowed(names[i]) {
        notAllowed := notAllowed + [names[i]];
      }
    }
    assert names[..|names|] == names;
    RefusedEmpty(names, FileAllowed);
    if notAllowed != [] {
      return Some(NotAllowed(NotAllowedMessage(notAllowed)));
    }
    return None;
  }

  // ---------------------------------------------------------------- UploadForm.save

  /** The stored name of an uploaded file: upload_to under the photos
      folder. */
  function StoredName(name: string, token: Uuid): string
  {
    UploadPath(PhotosApp, name, token)
  }

  /** The file of a photo's thumbnail at the upload size. */
  function UploadThumbnailFile(file: string): string
  {
    ThumbnailPath(file, UploadSize)
  }

  /** Photos numbered from `nextId` for the files `names`, titled by `title`
      and stored under `stored`, in the album. */
  function NewPhotos(nextId: int, album: int, names: seq<string>, tokens: seq<Uuid>,
                     title: string -> string, stored: (string, Uuid) -> string): (r: seq<Photo>)
    requires |tokens| == |names|
    ensures |r| == |names|
  {
    if |names| == 0 then []
    else
      var n := |names| - 1;
      NewPhotos(nextId, album, names[..n], tokens[..n], title, stored)
      + [Photo(nextId + n, Some(title(names[n])), stored(names[n], tokens[n]), album, {})]
  }

  /** Thumbnails numbered from `nextId`, one at the upload size for each
      photo, with files named by `fileOf`. */
  function NewThumbnails(nextId: int, photos: seq<Photo>, fileOf: string -> string): (r: seq<Thumbnail>)
    ensures |r| == |photos|
  {
    if |photos| == 0 then []
    else
      var n := |photos| - 1;
      NewThumbnails(nextId, photos[..n], fileOf)
      + [Thumbnail(nextId + n, UploadSize, fileOf(photos[n].file), photos[n].id)]
  }

  /** The photos an upload creates, in upload order: consecutive ids from
      `nextId`, the friendly name of each file, its stored name under the
      photos folder, and the album. */
  function UploadedPhotos(nextId: int, album: int, names: seq<string>, tokens: seq<Uuid>): (r: seq<Photo>)
    requires |tokens| == |names|
    ensures |r| == |names|
  {
    NewPhotos(nextId, album, names, tokens, FriendlyFilename, StoredName)
  }

  /** The thumbnails an upload creates: one at the upload size for each new
      photo, named after the photo's stored file. */
  function UploadedThumbnails(nextId: int, photos: seq<Photo>): (r: seq<Thumbnail>)
    ensures |r| == |photos|
  {
    NewThumbnails(nextId, photos, UploadThumbnailFile)
  }

  /** The k-th new photo has id nextId + k, the k-th file's title and
      stored name, the album and nobody tagged. */
  lemma {:induction false} NewPhotoAt(nextId: int, album: int, names: seq<string>, tokens: seq<Uuid>,
                                      title: string -> string, stored: (string, Uuid) -> string, k: nat)
    requires |tokens| == |names| && k < |names|
    ensures NewPhotos(nextId, album, names, tokens, title, stored)[k]
      == Photo(nextId + k, Some(title(names[k])), stored(names[k], tokens[k]), album, {})
    decreases |names|
  {
    var n := |names| - 1;
    if k < n {
      NewPhotoAt(nextId, album, names[..n], tokens[..n], title, stored, k);
    }
  }

  /** Each uploaded file becomes the photo with the next id, its friendly
      name, its stored name and the album. */
  lemma UploadedPhotoAt(nextId: int, album: int, names: seq<string>, tokens: seq<Uuid>, k: nat)
    requires |tokens| == |names| && k < |names|
    ensures UploadedPhotos(nextId, album, names, tokens)[k]
      == Photo(nextId + k, Some(FriendlyFilename(names[k])), UploadPath(PhotosApp, names[k], tokens[k]), album, {})
  {
    NewPhotoAt(nextId, album, names, tokens, FriendlyFilename, StoredName, k);
  }

  /** Saves one uploaded file, titled `title` and stored as `file`, as a
      photo of the album and asks for its 200x200-fit thumbnail, which the
      new photo does not have yet, so it is created. */
  method SaveOne(store: Store, album: int, title: string, file: string, ghost fileOf: string -> string)
    returns (photo: Photo)
    requires store.Valid() && album in AlbumIds(store.albums)
    requires ThumbnailFiles(fileOf)
    modifies store
    ensures store.Valid()
    ensures photo == Photo(old(store.nextPhotoId), Some(title), file, album, {})
    ensures store.photos == old(store.photos) + [photo]
    ensures store.thumbnails == old(store.thumbnails)
      + [Thumbnail(old(store.nextThumbnailId), UploadSize, fileOf(file), photo.id)]
    ensures store.nextPhotoId == old(store.nextPhotoId) + 1 && store.nextThumbnailId == old(store.nextThumbnailId) + 1
    ensures store.nextLocationId == old(store.nextLocationId) && store.nextPersonId == old(store.nextPersonId)
    && store.nextAlbumId == old(store.nextAlbumId)
    ensures store.locations == old(store.locations) && store.people == old(store.people)
    ensures store.albums == old(store.albums)
  {
    UploadSizeParses();
    ghost var photosBefore := store.photos;
    ghost var thumbnailsBefore := store.thumbnails;
    photo := store.AddPhoto(Some(title), file, album);
    NewPhotoHasNoThumbnail(photosBefore, thumbnailsBefore, photo, store.nextThumbnailId);
    var instance := new PhotoInstance(photo.id);
    var thumbnail := instance.ThumbnailFile(store, UploadSize);
    assert fileOf(file) == UploadThumbnailFile(file);
  }

  /** `fileOf` names thumbnails at the upload size. */
  ghost predicate ThumbnailFiles(fileOf: string -> string)
  {
    forall f {:trigger UploadThumbnailFile(f)} :: fileOf(f) == UploadThumbnailFile(f)
  }

  /** UploadForm.save() for the files `names` (with the UUID each upload
      draws, in order): photo_count counts the files, and each file becomes
      a photo of the album, named by friendly_filename and stored under a
      unique path, whose 200x200-fit thumbnail is then asked for, which
      creates it. Returns the album. */
  method UploadSave(store: Store, album: int, names: seq<string>, tokens: seq<Uuid>)
    returns (r: int, photoCount: nat)
    requires store.Valid() && album in AlbumIds(store.albums)
    requires |tokens| == |names|
    modifies store
    ensures store.Valid()
    ensures r == album && photoCount == |names|
    ensures store.photos == old(store.photos) + UploadedPhotos(old(store.nextPhotoId), album, names, tokens)
    ensures store.thumbnails
      == old(store.thumbnails) + UploadedThumbnails(old(store.nextThumbnailId),
                                                     UploadedPhotos(old(store.nextPhotoId), album, names, tokens))
    ensures store.locations == old(store.locations) && store.people == old(store.people)
    ensures store.albums == old(store.albums)
    ensures store.nextPhotoId == old(store.nextPhotoId) + |names| && store.nextThumbnailId == old(store.nextThumbnailId) + |names|
    ensures store.nextLocationId == old(store.nextLocationId) && store.nextPersonId == old(store.nextPersonId)
    && store.nextAlbumId == old(store.nextAlbumId)
  {
    r := album;
    photoCount := 0;
    ghost var photos0, thumbnails0 := store.photos, store.thumbnails;
    ghost var photoId0, thumbnailId0 := store.nextPhotoId, store.nextThumbnailId;
    var i := 0;
    while i < |names|
      invariant 0 <= i <= |names| && photoCount == i
      invariant store.Valid() && album in AlbumIds(store.albums)
      invariant store.locations == old(store.locations) && store.people == old(store.people)
      invariant store.albums == old(store.albums)
      invariant store.nextLocationId == old(store.nextLocationId) && store.nextPersonId == old(store.nextPersonId)
        && store.nextAlbumId == old(store.nextAlbumId)
      invariant Uploading(store, album, names, tokens, FriendlyFilename, StoredName, UploadThumbnailFile, i,
                          photos0, thumbnails0, photoId0, thumbnailId0)
    {
      photoCount := photoCount + 1;
      SaveNext(store, album, names, tokens, FriendlyFilename, StoredName, UploadThumbnailFile, i,
               photos0, thumbnails0, photoId0, thumbnailId0);
      i := i + 1;
    }
    assert names[..i] == names && tokens[..i] == tokens;
  }

  /** The tables and next ids after the first i files of an upload are
      saved, titled by `title`, stored under `stored`, with thumbnails
      named by `fileOf`, onto tables `photos0` and `thumbnails0` whose next
      ids were `photoId0` and `thumbnailId0`. */
  ghost predicate SavedSoFar(photos: seq<Photo>, thumbnails: seq<Thumbnail>, nextPhotoId: int, nextThumbnailId: int,
                             album: int, names: seq<string>, tokens: seq<Uuid>,
                             title: string -> string, stored: (string, Uuid) -> string, fileOf: string -> string,
                             i: nat, photos0: seq<Photo>, thumbnails0: seq<Thumbnail>, photoId0: int, thumbnailId0: int)
  {
    |tokens| == |names| && i <= |names|
    && nextPhotoId == photoId0 + i
    && nextThumbnailId == thumbnailId0 + i
    && photos == photos0 + NewPhotos(photoId0, album, names[..i], tokens[..i], title, stored)
    && thumbnails == thumbnails0
      + NewThumbnails(thumbnailId0, NewPhotos(photoId0, album, names[..i], tokens[..i], title, stored), fileOf)
  }

  /** Saving the next file's photo and thumbnail carries an upload one file
      further. */
  lemma SavedNext(photos: seq<Photo>, thumbnails: seq<Thumbnail>, nextPhotoId: int, nextThumbnailId: int,
                  album: int, names: seq<string>, tokens: seq<Uuid>,
                  title: string -> string, stored: (string, Uuid) -> string, fileOf: string -> string,
                  i: nat, photos0: seq<Photo>, thumbnails0: seq<Thumbnail>, photoId0: int, thumbnailId0: int, photo: Photo)
    requires SavedSoFar(photos, thumbnails, nextPhotoId, nextThumbnailId, album, names, tokens, title, stored, fileOf,
                        i, photos0, thumbnails0, photoId0, thumbnailId0)
    requires i < |names|
    requires photo == Photo(nextPhotoId, Some(title(names[i])), stored(names[i], tokens[i]), album, {})
    ensures SavedSoFar(photos + [photo], thumbnails + [Thumbnail(nextThumbnailId, UploadSize, fileOf(photo.file), photo.id)],
                       nextPhotoId + 1, nextThumbnailId + 1, album, names, tokens, title, stored, fileOf,
                       i + 1, photos0, thumbnails0, photoId0, thumbnailId0)
  {
    NewStep(photoId0, thumbnailId0, album, names, tokens, title, stored, fileOf, i);
    var before := NewPhotos(photoId0, album, names[..i], tokens[..i], title, stored);
    AppendOne(photos0, before, photo);
    AppendOne(thumbnails0, NewThumbnails(thumbnailId0, before, fileOf),
              Thumbnail(thumbnailId0 + i, UploadSize, fileOf(photo.file), photo.id));
  }

  /** The store after the first i files of an upload are saved. */
  ghost predicate Uploading(store: Store, album: int, names: seq<string>, tokens: seq<Uuid>,
                            title: string -> string, stored: (string, Uuid) -> string, fileOf: string -> string,
                            i: nat, photos0: seq<Photo>, thumbnails0: seq<Thumbnail>, photoId0: int, thumbnailId0: int)
    reads store
  {
    SavedSoFar(store.photos, store.thumbnails, store.nextPhotoId, store.nextThumbnailId, album, names, tokens,
               title, stored, fileOf, i, photos0, thumbnails0, photoId0, thumbnailId0)
  }

  /** Saves the (i+1)-th file of an upload. */
  method SaveNext(store: Store, album: int, names: seq<string>, tokens: seq<Uuid>,
                  title: string -> string, stored: (string, Uuid) -> string, ghost fileOf: string -> string, i: nat,
                  ghost photos0: seq<Photo>, ghost thumbnails0: seq<Thumbnail>, ghost photoId0: int, ghost thumbnailId0: int)
    requires store.Valid() && album in AlbumIds(store.albums)
    requires ThumbnailFiles(fileOf)
    requires i < |names|
    requires Uploading(store, album, names, tokens, title, stored, fileOf, i, photos0, thumbnails0, photoId0, thumbnailId0)
    modifies store
    ensures store.Valid() && album in AlbumIds(store.albums)
    ensures store.locations == old(store.locations) && store.people == old(store.people)
    ensures store.albums == old(store.albums)
    ensures store.nextLocationId == old(store.nextLocationId) && store.nextPersonId == old(store.nextPersonId)
    && store.nextAlbumId == old(store.nextAlbumId)
    ensures Uploading(store, album, names, tokens, title, stored, fileOf, i + 1, photos0, thumbnails0, photoId0, thumbnailId0)
  {
    ghost var photos, thumbnails := store.photos, store.thumbnails;
    ghost var nextPhotoId, nextThumbnailId := store.nextPhotoId, store.nextThumbnailId;
    var photo := SaveOne(store, album, title(names[i]), stored(names[i], tokens[i]), fileOf);
    SavedNext(photos, thumbnails, nextPhotoId, nextThumbnailId, album, names, tokens, title, stored, fileOf,
              i, photos0, thumbnails0, photoId0, thumbnailId0, photo);
  }

  /** Appending to a table that extends `base` by `rows`. */
  lemma AppendOne<T>(base: seq<T>, rows: seq<T>, x: T)
    ensures base + rows + [x] == base + (rows + [x])
  {
  }

  /** A photo just added finds itself alone under its id, and has no
      thumbnail yet. */
  lemma NewPhotoHasNoThumbnail(photos: seq<Photo>, thumbnails: seq<Thumbnail>, p: Photo, nextThumbnailId: int)
    requires p.id !in PhotoIds(photos)
    requires forall t :: t in thumbnails ==> t.photo in PhotoIds(photos)
    ensures PhotoById(photos + [p], p.id) == Some(p)
    ensures ThumbnailFor(thumbnails, p.id, UploadSize).None?
    ensures ParseSize(UploadSize).Ok? ==>
      GetOrCreate(thumbnails, p.file, p.id, UploadSize, nextThumbnailId)
        == (Ok(Thumbnail(nextThumbnailId, UploadSize, ThumbnailPath(p.file, UploadSize), p.id)),
            thumbnails + [Thumbnail(nextThumbnailId, UploadSize, ThumbnailPath(p.file, UploadSize), p.id)])
  {
  }

  /** One more file extends the new photos and their thumbnails by one
      each. */
  lemma NewStep(nextPhotoId: int, nextThumbnailId: int, album: int, names: seq<string>, tokens: seq<Uuid>,
                title: string -> string, stored: (string, Uuid) -> string, fileOf: string -> string, i: nat)
    requires |tokens| == |names| && i < |names|
    ensures var before := NewPhotos(nextPhotoId, album, names[..i], tokens[..i], title, stored);
      var after := NewPhotos(nextPhotoId, album, names[..i + 1], tokens[..i + 1], title, stored);
      var p := Photo(nextPhotoId + i, Some(title(names[i])), stored(names[i], tokens[i]), album, {});
      after == before + [p]
      && NewThumbnails(nextThumbnailId, after, fileOf)
        == NewThumbnails(nextThumbnailId, before, fileOf) + [Thumbnail(nextThumbnailId + i, UploadSize, fileOf(p.file), p.id)]
  {
    assert names[..i + 1][..i] == names[..i] && tokens[..i + 1][..i] == tokens[..i];
    var before := NewPhotos(nextPhotoId, album, names[..i], tokens[..i], title, stored);
    var after := NewPhotos(nextPhotoId, album, names[..i + 1], tokens[..i + 1], title, stored);
    assert after[..i] == before;
  }

  /** The k-th thumbnail belongs to the k-th photo, has id nextId + k and
      the upload size, and is named by `fileOf` after the photo's file. */
  lemma {:induction false} NewThumbnailAt(nextId: int, photos: seq<Photo>, fileOf: string -> string, k: nat)
    requires k < |photos|
    ensures NewThumbnails(nextId, photos, fileOf)[k]
      == Thumbnail(nextId + k, UploadSize, fileOf(photos[k].file), photos[k].id)
    decreases |photos|
  {
    var n := |photos| - 1;
    if k < n {
      NewThumbnailAt(nextId, photos[..n], fileOf, k);
    }
  }

  /** Each uploaded photo gets the thumbnail with the next thumbnail id, at
      200x200-fit, stored beside the photo's file under thumbnails/. */
  lemma UploadedThumbnailAt(nextId: int, photos: seq<Photo>, k: nat)
    requires k < |photos|
    ensures UploadedThumbnails(nextId, photos)[k]
      == Thumbnail(nextId + k, UploadSize, ThumbnailPath(photos[k].file, UploadSize), photos[k].id)
  {
    NewThumbnailAt(nextId, photos, UploadThumbnailFile, k);
  }
}
