# A verified model of the gallery's core

This project models, in Dafny, the logic underneath a small Django photo
gallery: the file-name and size-specification utilities, the upload path of
stored files, the file lifecycle hooks, the gallery's tables with their
cascades and thumbnail cache, the activity stream, the photo listings with
their search filters, back links, photo paginator and page selection, and
the account validators. Each source file has a module of its own:

| module | file | models |
|---|---|---|
| `Wrappers` | wrappers.dfy | `Option` and `Result`, in place of `None` and raised exceptions |
| `Text` | text.dfy | the `str` operations the code uses: `isspace`, ASCII `lower`, `split`, `join`, `strip`, slicing, `replace`, `int()` and `str()` of integers |
| `Paths` | paths.dfy | POSIX `os.path.splitext`, `split` and `join` |
| `Tables` | tables.dfy | `queryset.filter` over a table kept as a sequence of rows |
| `Ordering` | ordering.dfy | `Meta.ordering = ['name']` (SQLite text order, NULL first) and `first()` |
| `QueryDicts` | querydict.dfy | Django's `QueryDict`: parsing a query string, `get`, `getlist`, `d[key] = v`, `del d[key]`, `urlencode` |
| `PhotoUtils` | photo_utils.dfy | photos/utils.py |
| `Uploads` | uploads.dfy | utils/filestorage/uploads.py |
| `Signals` | signals.dfy | utils/filestorage/signals.py, with the storage as a class |
| `Stream` | stream.dfy | stream/models.py and stream/utils.py, with the action table as a class |
| `Gallery` | gallery.dfy | photos/models.py: the tables as a `Store` class, the cascades, the thumbnail get-or-create and the per-instance thumbnail cache |
| `Forms` | forms.dfy | photos/forms.py: album merge, `clean_photos`, the upload `save` loop |
| `Pagination` | paginate.dfy | utils/paginate.py, with the paginator as a class |
| `Views` | views.dfy | photos/views/__init__.py: `get_photo_queryset`, the upload, search and results views |
| `PhotoViews` | photo_views.dfy | photos/views/photo.py: `get_back_link` and `get_paginator` |
| `Accounts` | accounts.dfy | accounts/forms.py and accounts/utils.py |

Where the code works by changing state (the storage in the signal handlers,
the tables, the action log, the thumbnail cache, the registration form's
`is_admin_user`, the attributes `paginate` attaches) the model is a class
whose methods say the whole new state through `ensures`, including the
next primary key of every table: the one a method hands out advances by one
per row created, and the others stay as they were. The rest is
functions over values with lemmas about them.

Two details of the code that are easy to misread:

- `YEAR_CHOICES` is `range(1950, now.year + 1)`: the years 1950 through
  the current year (photos/models.py:15-16).
- In the four-part action sentence, the join and the target are separated
  by a space plus the twenty spaces that indent the continuation line of
  the format string (stream/models.py:62-63), although the docstring's
  example (stream/models.py:15-19) shows a single space. The model follows
  the code. A missing join prints as `None`.

## Model

| member | source | states |
|---|---|---|
| PhotoUtils.SplitExtension | photos/utils.py:10-21 | the name is a prefix of the file name; with an extension, the cut is at a dot and the extension is the rest lower-cased; the extension holds no dot and no slash |
| PhotoUtils.SplitExtensionOf | photos/utils.py:10-21 | for `dir + stem + "." + ext` the directory stays in the name and the extension is `ext` lower-cased |
| PhotoUtils.SplitExtensionExample1 | photos/utils.py:15 | `'awesome_filename.jpg'` gives `('awesome_filename', 'jpg')` |
| PhotoUtils.SplitExtensionExample2 | photos/utils.py:16 | `'path/awesome_filename.jpg'` gives `('path/awesome_filename', 'jpg')` |
| PhotoUtils.BaseName | photos/utils.py:39 | the last component after both separators holds no slash and no backslash |
| PhotoUtils.BlankOut | photos/utils.py:43 | the length is kept; no `/ _ [ ] #` is left, each leaving a space where it stood, and every other character keeps its place (the pattern is not a raw string, so `\_` is just `_` and a backslash is kept) |
| PhotoUtils.CollapseSpacesNoDouble | photos/utils.py:45 | after collapsing, no two neighbouring characters are whitespace |
| PhotoUtils.CollapseSpacesFront | photos/utils.py:45 | collapsing never lengthens, keeps text empty or non-empty, and keeps whether it starts with whitespace |
| PhotoUtils.CollapseSpacesChars | photos/utils.py:45 | collapsing adds no character other than a space |
| PhotoUtils.Tidy | photos/utils.py:43-46 | the tidied stem is at most 200 characters, has no separator or blanked character, does not start with whitespace and has no double whitespace |
| PhotoUtils.TidyNoop | photos/utils.py:43-46 | a stem that is already tidy is returned unchanged |
| PhotoUtils.FriendlyFilename | photos/utils.py:24-46 | the result is at most 200 characters, holds no slash, backslash, `_`, `[`, `]` or `#`, does not start with whitespace and has no run of two whitespace characters |
| PhotoUtils.FriendlyFilenameDropsDirectory | photos/utils.py:39 | whatever precedes the last slash or backslash does not change the result |
| PhotoUtils.FriendlyFilenameOfBareName | photos/utils.py:39-46 | for a bare `stem.ext` the result is the tidied stem, whatever the extension |
| PhotoUtils.FriendlyFilenameExample1 | photos/utils.py:33 | `'awesome_filename.jpg'` gives `'awesome filename'` |
| PhotoUtils.FriendlyFilenameExample2 | photos/utils.py:34 | `'path/here/awesome_filename.jpg'` gives `'awesome filename'` |
| PhotoUtils.FriendlyFilenameExample3 | photos/utils.py:35 | `'my photo #  03.jpg'` gives `'my photo 03'` |
| PhotoUtils.FriendlyFilenameExample4 | photos/utils.py:36 | `'messy__photo name  [3] 04.jpg'` gives `'messy photo name 3 04'` |
| PhotoUtils.FileAllowedIgnoresCase | photos/utils.py:49-55 | lower-casing the name never changes whether it is allowed |
| PhotoUtils.FileAllowedOf | photos/utils.py:49-55 | `stem.ext` is allowed exactly when `ext`, lower-cased, is in `ALLOWED_EXTENSIONS` |
| PhotoUtils.FileWithoutExtensionRefused | photos/utils.py:49-55 | a name without a dot is refused |
| PhotoUtils.FileAllowedExample1 | photos/utils.py:49-55 | `IMG_0001.JPG` is allowed |
| PhotoUtils.FileAllowedExample2 | photos/utils.py:49-55 | `notes.txt` is refused |
| PhotoUtils.FileAllowedExample3 | photos/utils.py:49-55 | a name that is only `jpg` has no extension and is refused |
| PhotoUtils.MethodOf | photos/utils.py:69-71 | a method is known exactly when it is `fit` or `thumb`, and it prints back as that name |
| PhotoUtils.ParseInts | photos/utils.py:73-76 | the list comprehension succeeds exactly when `int()` accepts every piece, giving their values in order |
| PhotoUtils.ParseSize | photos/utils.py:58-83 | an accepted size has both dimensions positive; an unknown method is reported by a name that is neither `fit` nor `thumb` |
| PhotoUtils.ParseDimensions | photos/utils.py:72-83 | with the method known, the result keeps it and has positive dimensions, or is the malformed or non-positive error |
| PhotoUtils.ParseFormatSize | photos/utils.py:58-83 | round trip: for W, H > 0 and either method, `"WxH-method"` parses to that size |
| PhotoUtils.ParseSizeMethod | photos/utils.py:64-83 | an accepted size text is the size part, one `-` and the method's name, and the size part's two pieces around `x` read back as the width and the height |
| PhotoUtils.ParseSizeWithoutDash | photos/utils.py:64-67 | no `-`: the malformed error |
| PhotoUtils.ParseSizeTwoDashes | photos/utils.py:64-67 | two `-`: the malformed error |
| PhotoUtils.ParseSizeUnknownMethod | photos/utils.py:69-71 | a method other than fit or thumb: the error naming that method |
| PhotoUtils.ParseSizeNotNumber | photos/utils.py:72-76 | a size piece `int()` refuses: the malformed error |
| PhotoUtils.ParseSizeThreeNumbers | photos/utils.py:77-79 | three numbers: the malformed error |
| PhotoUtils.ParseSizeZero | photos/utils.py:80-82 | a zero width or height: the non-positive error |
| PhotoUtils.NonPositiveMeansZero | photos/utils.py:80-82 | the non-positive error can only come from a zero, since the size part holds no `-` |
| PhotoUtils.ParseSizeOfDimensions | photos/utils.py:68-83 | with a known method, the size part alone decides the outcome |
| PhotoUtils.ParseSizeErrorExamples | photos/utils.py:64-71 | `800x600` and `800-600-fit` are malformed; `800x600-crop` names the unknown method `crop` |
| PhotoUtils.ThumbnailPathOf | photos/utils.py:86-100 | `dir/name.ext` with key k goes to `dir/thumbnails/name-k.ext` |
| PhotoUtils.ThumbnailPathInjective | photos/utils.py:94-100 | different keys give one file different thumbnail paths |
| PhotoUtils.ThumbnailPathExample | photos/utils.py:89-91 | `photos/<name>.jpg` with `800x600-thumb` goes to `photos/thumbnails/<name>-800x600-thumb.jpg` |
| PhotoUtils.GenerateThumbnail | photos/utils.py:103-121 | a thumbnail path is produced exactly when `parse_size` accepts the size, and otherwise its error is raised |
| PhotoUtils.GenerateThumbnailInjective | photos/utils.py:110-121 | different sizes of one image never share a thumbnail file |
| PhotoUtils.UploadSizeParses | photos/models.py:172 | `200x200-fit` parses to a 200 by 200 fit size |
| Uploads.TokenDigits | utils/filestorage/uploads.py:14 | the token is the 32 hexadecimal digits of the UUID, in order |
| Uploads.TokenInjective | utils/filestorage/uploads.py:14 | different UUIDs give different tokens |
| Uploads.UploadPathShape | utils/filestorage/uploads.py:12-15 | the path is the lower-cased app label, a slash, the token and the lower-cased extension |
| Uploads.UploadPathSplit | utils/filestorage/uploads.py:15 | the directory of the path is the lower-cased app label |
| Uploads.UploadPathIgnoresStem | utils/filestorage/uploads.py:12-14 | two names with the same extension get the same path for the same UUID, whatever their directories and stems |
| Uploads.UploadPathOfExtension | utils/filestorage/uploads.py:12-14 | only the `splitext` extension of the uploaded name reaches the path |
| Uploads.UploadPathUnique | utils/filestorage/uploads.py:12-15 | different UUIDs never share a path |
| Uploads.UploadPathNoExtension | utils/filestorage/uploads.py:12-14 | a name without an extension gives the bare token |
| Uploads.UploadPathExample | utils/filestorage/uploads.py:9-10 | `Holiday.JPG` under `photos` goes to `photos/<token>.jpg` |
| Signals.FileStorage.Delete | utils/filestorage/signals.py:19 | the file is gone afterwards and the deletion is logged |
| Signals.DeleteFilesOnDelete | utils/filestorage/signals.py:4-19 | the storage deletes the paths of the file fields in field order up to the first file field without a file, and the handler returns False exactly then |
| Signals.DeleteFilesOnChange | utils/filestorage/signals.py:22-45 | no pk or a missing row deletes nothing; otherwise the changed old files are deleted in field order up to the first file field without an old file |
| Signals.OnDeleteAppend | utils/filestorage/signals.py:9-19 | the delete loop over `a + b` is the loop over `a` then over `b` when nothing in `a` stops it |
| Signals.OnChangeAppend | utils/filestorage/signals.py:34-45 | the same for the change loop |
| Signals.OnDeleteStopsAt | utils/filestorage/signals.py:14-18 | a file field without a file ends the delete loop: no later field is deleted |
| Signals.OnChangeStopsAt | utils/filestorage/signals.py:39-43 | a file field without an old file ends the change loop |
| Signals.OnDeleteAll | utils/filestorage/signals.py:9-19 | when no file field lacks its file, every file field's path is deleted |
| Signals.FileFields | utils/filestorage/signals.py:10-11 | a field is kept exactly when it is one of the model's fields and a file field |
| Signals.OnDeleteOnlyFiles | utils/filestorage/signals.py:10-11 | non-file fields play no part in what is deleted |
| Signals.OnChangeUnchanged | utils/filestorage/signals.py:44-45 | fields whose stored names did not change keep their files |
| Signals.OnChangeDeletesOldOnly | utils/filestorage/signals.py:37-45 | every path deleted on change is the old file of a file field whose name changed, never a new file |
| Gallery.MonthChoices | photos/models.py:12-13 | twelve choices numbered 1 to 12 |
| Gallery.YearChoicesRange | photos/models.py:15-16 | a year is offered exactly when it lies from 1950 through the current year, in order |
| Gallery.MonthDisplay | photos/models.py:117 | a month always displays as some text |
| Gallery.DateDisplayFormats | photos/models.py:108-120 | `'Month Year'`, `'Month'`, `'Year'` or `''` as month and year are set |
| Gallery.DateDisplayRoundTrip | photos/models.py:108-120 | the date line splits at its space into the month's name and the year, which `int()` reads back |
| Gallery.DateDisplayExample | photos/models.py:111 | January 2014 displays as `January 2014` |
| Gallery.AlbumCover | photos/models.py:100-106 | None exactly when the album has no photo; otherwise a photo of the album no other photo of it precedes by name |
| Gallery.PersonCover | photos/models.py:63-69 | the same over the photos the person is tagged in |
| Gallery.FirstAlbum | photos/models.py:43 | the location's first album by name, None exactly when it has none |
| Gallery.LocationCover | photos/models.py:36-43 | the AttributeError exactly when the location has no album; otherwise the cover of its first album |
| Gallery.CacheKeyShared | photos/models.py:159 | two sizes share a cache slot exactly when they differ at most in `-` against `_` |
| Gallery.SavedFile | photos/models.py:201-219 | with a size, saving names the file after `generate_thumbnail`; without one the file stays empty |
| Gallery.ThumbnailFor | photos/models.py:164 | the row found has the photo and the size; None when no row has both |
| Gallery.GetOrCreate | photos/models.py:164 | the table is unchanged or grows by exactly the new row, only when no row matched; a failure is the size's parse error |
| Gallery.GetOrCreateTwice | photos/models.py:164 | asked again, get-or-create returns the same row and changes nothing |
| Gallery.GetOrCreateKeepsOnePerSize | photos/models.py:194 | get-or-create keeps at most one thumbnail per photo and size |
| Gallery.Unlocated | photos/models.py:84-86 | SET_NULL: no album keeps the deleted location, and everything else about each album is kept |
| Gallery.Untagged | photos/models.py:132-133 | every photo loses the deleted person's tag and nothing else |
| Gallery.Moved | photos/forms.py:38 | no photo stays in the source album; photos of other albums are untouched |
| Gallery.UnlocatedIds | photos/models.py:84-86 | clearing a location keeps every album |
| Gallery.UntaggedIds | photos/models.py:132-133 | untagging keeps every photo |
| Gallery.MovedIds | photos/forms.py:38 | moving keeps every photo |
| Gallery.Store.AddLocation | photos/models.py:19-22 | a location with a fresh id is appended, only the location counter advances, and the tables stay valid |
| Gallery.Store.AddPerson | photos/models.py:46-49 | a person with a fresh id is appended; only the person counter advances |
| Gallery.Store.AddAlbum | photos/models.py:72-86 | an album with a fresh id and an existing location (or none) is appended; only the album counter advances |
| Gallery.Store.AddPhoto | photos/models.py:123-133 | a photo with a fresh id in an existing album is appended; only the photo counter advances |
| Gallery.Store.GetOrCreateThumbnail | photos/models.py:164 | the thumbnail table changes as `GetOrCreate` says, and nothing else |
| Gallery.Store.DeleteLocation | photos/models.py:84-86 | the location goes, its albums stay without it, the actions about it go |
| Gallery.Store.DeletePerson | photos/models.py:132-133 | the person goes, photos lose the tag, the actions about it go |
| Gallery.Store.DeletePhoto | photos/models.py:190 | the photo and its thumbnails go, and the actions about the photo |
| Gallery.Store.DeleteAlbum | photos/models.py:131 | the album, its photos and their thumbnails go, and the actions about the album and its photos |
| Gallery.Store.MovePhotos | photos/forms.py:38 | the album's photos move to the destination and nothing else changes, counters included |
| Gallery.ThumbnailsOutsideValid | photos/models.py:194 | dropping thumbnails keeps the rest unique per photo and size |
| Gallery.CollectedActionable | photos/models.py:182 | thumbnails are not actionable, so they never take actions with them |
| Gallery.OtherLocationsMember | photos/models.py:19 | a location survives exactly when it is not the deleted one |
| Gallery.OtherPeopleMember | photos/models.py:46 | a person survives exactly when it is not the deleted one |
| Gallery.OtherAlbumsMember | photos/models.py:72 | an album survives exactly when it is not the deleted one |
| Gallery.PhotosOutsideMember | photos/models.py:131 | a photo survives an album's deletion exactly when it is in another album |
| Gallery.OtherPhotosMember | photos/models.py:123 | a photo survives exactly when it is not the deleted one |
| Gallery.ThumbnailsOutsideMember | photos/models.py:190 | a thumbnail survives exactly when its photo does |
| Gallery.DeleteLocationKeepsLinks | photos/models.py:84-86 | after SET_NULL every foreign key still resolves |
| Gallery.DeletePersonKeepsLinks | photos/models.py:132-133 | after untagging every tag points at an existing person |
| Gallery.DeletePhotoKeepsLinks | photos/models.py:190 | no thumbnail is left without its photo |
| Gallery.DeleteAlbumKeepsLinks | photos/models.py:131 | no photo or thumbnail of the album is left behind |
| Gallery.MovedKeepsLinks | photos/forms.py:38 | moving into an existing album keeps every photo in an album |
| Gallery.AddThumbnailValid | photos/models.py:194 | adding a row no row matched keeps the tables valid |
| Gallery.DeleteLocationValid | photos/models.py:84-86 | deleting a location keeps the tables valid |
| Gallery.DeletePersonValid | photos/models.py:132-133 | deleting a person keeps the tables valid |
| Gallery.DeletePhotoValid | photos/models.py:190 | deleting a photo keeps the tables valid |
| Gallery.DeleteAlbumValid | photos/models.py:131 | deleting an album keeps the tables valid |
| Gallery.MovePhotosValid | photos/forms.py:38 | moving photos keeps the tables valid |
| Gallery.PhotoInstance.ThumbnailFile | photos/models.py:154-165 | a cached key returns the cached file and touches nothing; otherwise get-or-create runs once and its file is cached under the key |
| Stream.DescribeOpens | stream/models.py:52-67 | every sentence opens with the actor and the verb |
| Stream.DescribeCloses | stream/models.py:60-64 | with a target the sentence ends in the target, after the join and the wide gap when there is an action object and after one space when there is not |
| Stream.DescribeWithoutTarget | stream/models.py:65-67 | without a target the join plays no part; with nothing else it is `'actor verb'` |
| Stream.DescribeMissingJoin | stream/models.py:55-63 | in the four-part sentence a missing join prints as `None` |
| Stream.DescribeExample | stream/models.py:23 | `tim added 5 photos to the album Album Name` |
| Stream.NewerFirstOrder | stream/models.py:50 | newest-first is a total preorder |
| Stream.Timeline | stream/models.py:50 | the listing holds every action once, newest first |
| Stream.UnmentioningKeeps | stream/models.py:70-86 | an action survives a deletion exactly when it points at none of the deleted objects |
| Stream.ActionLog.Send | stream/utils.py:4-13 | exactly one action, carrying the arguments unchanged and a fresh id, is appended; the others are kept and the id counter advances by one |
| Stream.ActionLog.DeleteFor | stream/models.py:70-86 | the actions that point at a deleted actionable object go; the others stay in order |
| Accounts.ActorName | stream/models.py:54 | the name is empty only when the username is |
| Accounts.ActorNameWithoutNames | stream/models.py:54 | without first and last name the username is shown |
| Accounts.ActorNameWithFirstName | stream/models.py:54 | with a first name the full name is shown |
| Accounts.WithEmailFound | accounts/forms.py:72 | the filter finds a user exactly when one has the address |
| Accounts.WithEmailUnique | accounts/forms.py:135 | with unique addresses the filter finds at most one user |
| Accounts.WithoutThenWith | accounts/forms.py:37-38 | excluding one address and filtering for another is filtering when they differ, and empty when equal |
| Accounts.RegisterCleanEmailAccepts | accounts/forms.py:66-74 | the address is accepted exactly when no user has it; otherwise the duplicate error |
| Accounts.ProfileCleanEmailAccepts | accounts/forms.py:30-40 | one's own address is accepted; another is refused exactly when a user has it |
| Accounts.PasswordResetCleanEmailAccepts | accounts/forms.py:128-138 | with unique addresses, accepted exactly when a user has the address; otherwise the invalid-email error |
| Accounts.FindGroup | accounts/utils.py:11-12 | the index found has the name; None when no group has it |
| Accounts.AuthStore.GetAdminGroup | accounts/utils.py:6-18 | returns the group with the admin name; an existing one unchanged, otherwise one new group with exactly the photos permissions |
| Accounts.AuthStore.SaveProfile | accounts/forms.py:26-28 | only first name, last name and e-mail change; the username and both id counters stay |
| Accounts.RegisterForm.CleanAuthCode | accounts/forms.py:88-103 | admin code: accepted, admin; user code: accepted, not admin; else the invalid-code error |
| Accounts.RegisterForm.Save | accounts/forms.py:105-115 | one user is appended with the next user id, and the user counter advances by one; it joins the admin group exactly when the code was the admin code; the groups stay as they were, except that a missing admin group is appended with the next group id and the photos permissions, and the user's only group is that group; the group counter advances only then |
| Forms.MergeChoicesOffer | photos/forms.py:27-29 | an album is offered exactly when it exists and is not the one being merged |
| Forms.MergeClean | photos/forms.py:27-29 | a choice is accepted exactly when it is an offered album; no choice is the required error |
| Forms.MergedPhotos | photos/forms.py:37-38 | the destination holds its own photos and those of the source, the source none, and no photo is lost |
| Forms.EmptiedAlbumDelete | photos/forms.py:40 | deleting the emptied source takes no photo, thumbnail or photo action with it |
| Forms.MergeSave | photos/forms.py:31-42 | photos move, the source album and its actions go, the destination is returned |
| Forms.RefusedMember | photos/forms.py:83-86 | a name is listed exactly when it was uploaded and is refused |
| Forms.RefusedEmpty | photos/forms.py:87 | nothing is listed exactly when every name is allowed |
| Forms.DisallowedMember | photos/forms.py:83-86 | the same with `file_allowed` |
| Forms.CleanPhotos | photos/forms.py:78-91 | no error exactly when every file is allowed; otherwise one error listing the refused names in order joined by `', '` |
| Forms.NewPhotoAt | photos/forms.py:100-104 | the k-th new photo has the k-th id, title and stored file |
| Forms.UploadedPhotoAt | photos/forms.py:100-104 | each uploaded file becomes the photo with the next id, its friendly name and its upload path, in the album |
| Forms.NewThumbnailAt | photos/forms.py:105 | the k-th thumbnail belongs to the k-th photo |
| Forms.UploadedThumbnailAt | photos/forms.py:105 | each new photo gets a `200x200-fit` thumbnail with the next id |
| Forms.NewPhotoHasNoThumbnail | photos/forms.py:103-105 | a photo just created is found under its id and has no thumbnail yet, so get-or-create creates one |
| Forms.SaveOne | photos/forms.py:101-105 | one photo and its thumbnail are appended |
| Forms.UploadSave | photos/forms.py:93-106 | `photo_count` is the number of files; the photos and thumbnails appended are the uploaded ones, in order; the photo and thumbnail counters advance by that number and the others stay |
| Views.AnyAlbum | photos/views/__init__.py:25 | some album satisfies the condition exactly when one in the table does |
| Views.TextFilter | photos/views/__init__.py:22-23 | the text filter applies exactly when `q` is present and not empty, and is its last value |
| Views.QueryCriteria | photos/views/__init__.py:20-34 | the filters are read unless one of `a`, `p`, `l` holds a value `int()` refuses |
| Views.ReadIdsRefused | photos/views/__init__.py:26-34 | a list is refused exactly when one value is, and the error names the first refused value |
| Views.ReadIdsMember | photos/views/__init__.py:26-34 | the ids of an accepted list are exactly the values read from it |
| Views.ParseIdsSpec | photos/views/__init__.py:26-34 | the same for `int()` |
| Views.ByNameOrder | photos/models.py:142-143 | the photos, every one once, by name |
| Views.QueryPhotos | photos/views/__init__.py:19-35 | the query fails exactly when its criteria do, with their error |
| Views.PhotoQueryset | photos/views/__init__.py:14-35 | album wins, then person, then a non-empty query; nothing given falls through to None |
| Views.QueryMember | photos/views/__init__.py:20-35 | a photo is found exactly when it passes every filter the query asks for |
| Views.QueryWithoutFilters | photos/views/__init__.py:20-35 | a query with none of `q`, `a`, `p`, `l` lists every photo by name |
| Views.TextMatch | photos/views/__init__.py:24-25 | the text filter keeps a photo whose name, or whose album's name, contains `q` in any case |
| Views.LocationMatch | photos/views/__init__.py:33-34 | the location filter keeps a photo whose album lies at one of the locations |
| Views.ListingMember | photos/views/__init__.py:15-18 | an album's and a person's listings hold exactly their photos |
| Views.UploadErrors | photos/forms.py:67-68 | the form is valid exactly when an existing album is chosen and at least one file is given |
| Views.Upload | photos/views/__init__.py:39-49 | an invalid form changes nothing; a valid one saves the upload and records one action with the album as target; albums, locations and people never change; the photo and thumbnail counters advance by the number of files and the action counter by one exactly when the form is valid |
| Views.UploadActionText | photos/views/__init__.py:43-46 | the action reads `<actor> added N photos to the album <album>` |
| Views.SearchQuery | photos/views/__init__.py:66-73 | an empty post shows the form; otherwise the results link |
| Views.SearchDropsToken | photos/views/__init__.py:69-73 | the results query reads back as the post without the CSRF token, every other field intact |
| Views.Results | photos/views/__init__.py:53-62 | the query's error, or the page of found photos `paginate` picks, or its 404 |
| PhotoViews.RowById | photos/views/photo.py:25 | the row found has the id; None when no row has it |
| PhotoViews.PersonWithPk | photos/views/photo.py:25 | a person is found exactly when the pk reads as the id of one |
| PhotoViews.AlbumWithPk | photos/views/album.py:46 | an album is found exactly when the pk reads as the id of one |
| PhotoViews.LocationWithPk | photos/views/album.py:25 | a location is found exactly when the pk reads as the id of one |
| PhotoViews.GetBackLink | photos/views/photo.py:15-45 | person page (or its 404), else the album within the location, else the results, else the photo's album |
| PhotoViews.Listed | photos/views/photo.py:60-66 | a listing is available exactly when the queryset exists and its ids parsed |
| PhotoViews.Listing | photos/views/photo.py:60-66 | the person's photos (or its 404), else the query's photos, else the album's photos |
| PhotoViews.PageListing | photos/views/album.py:24-56 | person, album and results links list photos and no other link does: a person link the person's photos or the 404; an album link the album's 404, else the 404 of a location its URL names that does not exist, else the album's photos; a results link the query's photos or its error |
| PhotoViews.ValuesList | photos/views/photo.py:69 | the (id, name) rows of the listing, in order |
| PhotoViews.IndexOf | photos/views/photo.py:70 | the first position of the row, or the ValueError exactly when it is absent |
| PhotoViews.BuildUrl | photos/views/photo.py:72-75 | the photo route with every incoming argument and a `pk` that reads back as the id |
| PhotoViews.BuildUrlOverridesPk | photos/views/photo.py:72-75 | only `pk` is overridden: rebuilding from a built URL is building, and the current pk gives the incoming URL |
| PhotoViews.Navigate | photos/views/photo.py:77-91 | index is the 1-based first position and count the length; next exactly when not last, previous exactly when not first, linking the neighbours' ids |
| PhotoViews.PaginatorIn | photos/views/photo.py:68-91 | the listing's error passes through; a paginator exactly when the listing holds the photo's id and name |
| PhotoViews.PaginatorInFinds | photos/views/photo.py:69-70 | in a listing of table rows the photo is placed exactly when the listing holds it, at its 1-based index |
| PhotoViews.PaginatorFindsListed | photos/views/photo.py:60-70 | a photo of the table is placed exactly when its listing holds it, at its index |
| PhotoViews.AlbumPaginatorFinds | photos/views/photo.py:65-70 | reached from its album, a photo is always found among the album's photos |
| PhotoViews.UntaggedPersonNotListed | photos/views/photo.py:60-70 | reached from a person it does not show, the ValueError of `list.index` |
| PhotoViews.NavigateNext | photos/views/photo.py:78-80 | the next row is one place on, and its previous link leads back to this id |
| PhotoViews.NavigatePrevious | photos/views/photo.py:81-82 | the previous row is one place back, and its next link leads to this id |
| PhotoViews.NextThenPrevious | photos/views/photo.py:72-82 | following next and then previous comes back to the photo's own URL under the same route |
| PhotoViews.PreviousThenNext | photos/views/photo.py:72-82 | following previous and then next comes back to the photo's own URL under the same route |
| PhotoViews.BackLinkListsPaginated | photos/views/photo.py:24-45 | on every photo route (the keyword arguments `detail` passes on after taking `pk`) whose location, if it names one, exists, the back link leads to the page listing what the paginator walks |
| PhotoViews.BackLinkMissingLocation | photos/views/photo.py:30-36 | on the location route with a location that does not exist, the photo page still has its back link, and that link leads to the album page's location 404 |
| Pagination.NumPages | utils/paginate.py:12-13 | at least one page; the pages hold every item, and the last is not empty unless the listing is |
| Pagination.PageNumber | utils/paginate.py:14-19 | 1 when the parameter is missing or `int()` refuses it |
| Pagination.ChoosePage | utils/paginate.py:14-27 | the page is shown exactly when it is the first or items remain for it (its number times the page size, less one page, is below the count); otherwise the 404 naming it |
| Pagination.ValidPageHoldsItems | utils/paginate.py:21-27 | a page number lies between 1 and the page count exactly when it is the first page or items remain for it |
| Pagination.Paginator.constructor | utils/paginate.py:12-13 | a paginator over the listing with no links yet |
| Pagination.Paginate | utils/paginate.py:5-49 | the 404 exactly when the page is invalid; otherwise the page's items with the page, page argument and links recorded |
| Pagination.NeighbourLinks | utils/paginate.py:36-47 | a previous link exactly when there is a previous page, to page−1; a next link exactly when there is a next page, to page+1 |
| Pagination.PageNumberMissing | utils/paginate.py:14 | no page parameter is page 1 |
| Pagination.PageNumberNotInteger | utils/paginate.py:16-19 | `p=abc` is page 1 |
| Pagination.PageNumberLast | utils/paginate.py:14-17 | the last value of the parameter counts, spaces around it allowed |
| Pagination.PastLastPage | utils/paginate.py:21-27 | page 999 of two is the 404 |
| Pagination.PageZero | utils/paginate.py:21-27 | page 0 is the 404 |
| Pagination.EmptyListing | utils/paginate.py:12-13 | an empty listing shows its one empty page |
| Pagination.NeighboursValid | utils/paginate.py:41-47 | the linked neighbours are valid pages |
| Pagination.PageSizes | utils/paginate.py:21 | every page but the last is full, none is empty unless the listing is |
| Pagination.PagesCoverListing | utils/paginate.py:21 | the pages read in order are the whole listing |
| Pagination.PageUrlQuery | utils/paginate.py:36-38 | the page link sets the page argument to the number, keeps every other parameter, and reads back as that page |
| Pagination.PageUrlRoundTrip | utils/paginate.py:36-39 | the link's query string parses back to its parameters |
| QueryDicts.FindKey | utils/paginate.py:37-38 | the first position of the key, None exactly when absent |
| QueryDicts.Get | utils/paginate.py:14 | `get` is the last value of the key, None when it has none |
| QueryDicts.ParseEncode | photos/views/__init__.py:20 | parsing what `urlencode` wrote gives the dictionary back |
| QueryDicts.RemoveKey | photos/views/__init__.py:70-71 | after `del` the key is gone and every other key keeps its values |
| QueryDicts.RemoveEncodable | photos/views/__init__.py:70-73 | `del` keeps a dictionary encodable |
| QueryDicts.SetItemValues | utils/paginate.py:37-38 | after `d[key] = v` the key has exactly `[v]` and other keys keep their values |
| QueryDicts.SetItemEncodable | utils/paginate.py:37-39 | setting a plain key to a plain value keeps the dictionary encodable |
| Ordering.SortByName | photos/models.py:142-143 | the rows, each once, in name order with NULL first |
| Ordering.FirstByName | photos/models.py:106 | `first()` is None exactly for an empty table; otherwise a row no row precedes by name |
| Ordering.ByNameOrder | photos/models.py:143 | ordering by name is a total preorder |
| Ordering.SortSorted | photos/models.py:143 | insertion sort orders its result |
| Tables.FilterMember | photos/views/__init__.py:24-34 | a row is kept exactly when it is in the table and passes the filter |
| Tables.FilterAll | photos/views/__init__.py:21 | a filter every row passes keeps the table |
| Text.ParseIntOfInt | photos/views/photo.py:74 | `int(str(n)) == n`, so a pk written into a URL reads back |
| Text.SplitJoin | photos/utils.py:64 | joining a split with its separator gives the text back |
| Paths.SplitExtOf | utils/filestorage/uploads.py:12 | `splitext` cuts `stem.ext` before the last dot |
| Paths.PathSplitOf | photos/utils.py:95 | `split` cuts off the last component |

## Left out

- PIL image work: resizing in `generate_thumbnail` and `rotate_image`. `generate_thumbnail` is modelled as `parse_size` plus the thumbnail path, with the image content abstract. The `os.makedirs` in `get_thumbnail_path` is also left out.
- Django internals: the ORM, SQL, signal registration, content types and generic foreign keys. Tables are sequences of rows. The paginator's page rule (pages 1 through the larger of 1 and ⌈n/size⌉) is taken as Django's behaviour.
- Primary keys: one counter per table, starting at 1, that only grows, so a deleted row's id is never handed out again (Django declares SQLite primary keys `AUTOINCREMENT`). New ids are guaranteed fresh and consecutive; nothing else about the database's id allocation is modelled.
- `int()`: modelled as optional surrounding whitespace, an optional sign and ASCII digits. Underscores between digits and non-ASCII digits are not modelled. `lower()` is ASCII only.
- `people__in`: modelled as a set-style filter. The SQL join can list a photo twice when it tags two of the persons; the model lists it once.
- UUIDs: the UUID of an upload is a parameter. Drawing it at random is not modelled.
- `reverse()`: modelled as the `Link(route, kwargs)` it is given, not as URL text. Percent-encoding in `urlencode` is not modelled either. The search route accepts only `[\w=&]+`, so the queries that reach the views need none.
- Rendering, templates, URL routing, JSON helpers, the admin and the middleware are left out. So are the detail views of albums, people and locations, apart from the listing a back link leads to (`PhotoViews.PageListing`).
- The move, rename, tag, rotate, delete and download views of photos, and zip downloads, are file I/O and form glue. Their effect on the tables is covered by the `Store` methods.
- Login, sessions, password hashing, reset tokens and e-mail sending are left out.
- `Signals.PathOf`: `storage.path` is the storage folder, `/` and the stored name. Django's `FileSystemStorage.path` also normalises the joined path, so two different names such as `a/../b` and `b` can reach one file; the model takes stored names to be normalised already, as `upload_to` makes them, and `Signals.OnChangeDeletesOldOnly` rests on that.
- `Signals.DeleteFilesOnDelete`: when a file field has no file the handler returns at once, as the code does. The later fields keep their files.
- `Stream.ActionLog.DeleteFor`: only actionable kinds take their actions with them. Thumbnails do not subclass `ActionableModel`.
- `Views.UploadErrors`: the form's errors are a list of field errors. Their messages are not modelled.
- `Views.SearchQuery`: the redirect to the results route is the urlencoded query itself. Route matching against `[\w=&]+` is not checked.
- `Ordering.SortByName`: rows with equal names come out in one fixed order, the one insertion sort gives them; SQLite leaves that order unspecified, and the model proves no stability property about it.
- `PhotoViews.NextThenPrevious`: requires the listed ids to be distinct as a precondition. It is not derived from the primary keys of the table.
- `PhotoViews.PreviousThenNext`: the same precondition.
- `PhotoViews.PersonWithPk`: a pk that is not digits cannot reach the view, because the routes capture `\d+`. The model reads it with `int()` like any other text.
- `Accounts.PasswordResetCleanEmailAccepts`: states acceptance only for tables with unique addresses. With two users sharing an address the code raises `MultipleObjectsReturned`, which `PasswordResetCleanEmail` models but the lemma does not describe.
- `Accounts.AuthStore.GetAdminGroup`: the group's permissions are a set of ids, assigned once on creation. The separate `save()` is not modelled.
