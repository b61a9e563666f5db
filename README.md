# Trip-course recommender: a verified model of its core

The application takes a travel plan or a chat log as an uploaded file. It has a
language model turn the text into search keywords, looks up one place per
keyword with a local-search service, and shows the places as a numbered list
and as markers on a map. A user can edit the analysed courses and personas and
ask for a new recommendation.

This project models the logic of that application in Dafny and proves what it
promises. The modelled parts are:

- **Backend.**
  - The file routes: upload with UTF-8 decoding or a fallback text, the owner's paged listing, and delete guarded by 404 then 403 (`FilesApi`).
  - The record operations: create and update a user, look one up by e-mail, authenticate, create a file record (`Crud`).
  - The in-memory tables they work on (`Db`).
  - The recommendation route: guard order 404, 403, 400, one search per keyword, places concatenated in keyword order (`RecommendationsApi`).
  - The local-search client: credential guard, early returns, and per-item normalisation with tag stripping and field defaults (`NaverClient`).
  - The object-storage upload: guards, object key and public URL (`Storage`).
  - A strict UTF-8 decoder and its encoder, after RFC 3629, standing for Python's `bytes.decode("utf-8")` (`Utf8`).
- **Frontend.**
  - The session store (`AnalysisStore`). Courses and personas are heap objects, so the screens' shallow array copies share them with the store.
  - The edit screen. Its handlers mutate those shared objects by index (`EditScreen`).
  - The upload screen: extension check, submit guard, store clearing and loading label (`RecommendationsScreen`).
  - The dashboard: type badge, preview truncation, grid and dialog (`Dashboard`).
  - The result screen: view selection, and the map drawing of `initMap` against a recording map library (`ResultScreen`).
- **Built-ins.** The JavaScript and Python string built-ins these rely on, with their own semantics (`Text`):
  - `trim`, `toLowerCase`, `split(sep).pop()` and `endsWith`;
  - `str.replace` and `str.rstrip`.

Everything outside the program is a parameter of the model:

- hashing and verification of passwords;
- the keyword generator;
- the HTTP exchange with the search service, whose response is indexed by the number of the call as well as the request, because the service sorts at random and may answer the same request differently;
- the outcome of `put_object`;
- the clock and the UUID generator;
- whether the map library is loaded.

## Model

| member | source | states |
|---|---|---|
| Text.TrimStartSpec | frontend/src/routes/_layout/edit.tsx:93 | leading trim leaves a suffix of the input that does not start with ECMAScript white space, and everything dropped is white space |
| Text.TrimEndSpec | frontend/src/routes/_layout/edit.tsx:93 | trailing trim leaves a prefix that does not end with white space, and everything dropped is white space |
| Text.TrimSpec | frontend/src/routes/_layout/edit.tsx:93-94 | `trim()` is a slice with only white space on either side and no white space at its ends; it is empty exactly when the input is all white space, which is when the add handler gives up |
| Text.TrimBounds | frontend/src/routes/_layout/edit.tsx:93-94 | `trim()` is the slice between two bounds with only white space outside them, and it neither starts nor ends with white space |
| Text.TrimIdempotent | frontend/src/routes/_layout/edit.tsx:93 | trimming a trimmed text changes nothing |
| Text.LowerIdempotent | frontend/src/routes/_layout/index.tsx:38 | lower-casing twice is lower-casing once, and the result has no upper-case ASCII letter |
| Text.LastSegment | frontend/src/routes/_layout/recommendations.tsx:82 | `split(sep).pop()` is a suffix without the separator, preceded by the separator whenever it is not the whole text |
| Text.LastSegmentWhole | frontend/src/routes/_layout/recommendations.tsx:82 | the last segment is the whole text exactly when the separator does not occur |
| Text.LastSegmentAt | frontend/src/routes/_layout/recommendations.tsx:82 | the last segment is the text after the last occurrence of the separator |
| Text.LastSegmentLower | frontend/src/routes/_layout/index.tsx:38 | taking the last segment and lower-casing commute for a separator that is not a letter |
| Text.RemoveAllUnchangedIff | backend/app/core/naver_client.py:38 | `replace(pat, "")` never lengthens the text, and leaves it unchanged exactly when `pat` does not occur |
| Text.RStrip | backend/app/core/storage.py:52 | `rstrip("/")` is the longest prefix that does not end with `/`; only slashes are dropped |
| Utf8.DecodeFirst | backend/app/api/routes/files.py:25 | one decoding step consumes between one byte and what is left |
| Utf8.DecodeFirstEncodeChar | backend/app/api/routes/files.py:25 | the decoder reads back exactly the character and the byte count the encoder writes, whatever follows |
| Utf8.DecodeFirstCanonical | backend/app/api/routes/files.py:25 | the decoder accepts only shortest forms: the bytes it reads are the encoding of the character it returns |
| Utf8.DecodeEncode | backend/app/api/routes/files.py:25 | decoding the encoding of any text gives that text back |
| Utf8.EncodeDecode | backend/app/api/routes/files.py:25 | re-encoding a successful decoding gives the original bytes |
| Utf8.DecodeSplit | backend/app/api/routes/files.py:25 | a successful decoding re-encodes to the bytes of its first character followed by the re-encoding of the rest |
| Utf8.DecodeIffEncode | backend/app/api/routes/files.py:25-27 | bytes decode to a text exactly when they are its encoding |
| FilesApi.ExtractText | backend/app/api/routes/files.py:23-27 | the stored text is the decoding of valid UTF-8, and the fixed fallback otherwise |
| FilesApi.ExtractTextOfEncoded | backend/app/api/routes/files.py:24-25 | an upload of UTF-8-encoded text stores exactly that text |
| FilesApi.FallbackExactlyForInvalid | backend/app/api/routes/files.py:24-27 | the fallback is stored exactly when the content is the encoding of no text |
| FilesApi.CreateFile | backend/app/api/routes/files.py:16-36 | one record is appended, with the uploaded name, no URL, the extracted text and the caller as owner; the users table is unchanged |
| FilesApi.OwnedBy | backend/app/api/routes/files.py:48-49 | the owner filter keeps exactly the caller's records |
| FilesApi.ReadFiles | backend/app/api/routes/files.py:41-54 | `data` holds only the caller's files, the window of the owned files from `skip`, at most `limit` of them; `count` is the number owned, whatever `skip` and `limit` are |
| FilesApi.PagesConcatenate | backend/app/api/routes/files.py:49 | the page at 0 of size a followed by the page at a of size b is the page at 0 of size a + b |
| FilesApi.DeleteFile | backend/app/api/routes/files.py:59-75 | a missing id gives 404 and a foreign file 403, in that order, both leaving the table unchanged; otherwise exactly that record is removed and keys stay unique |
| FilesApi.DeleteRemovesExactlyOne | backend/app/api/routes/files.py:73-75 | after a delete the id is gone, the table is one shorter and every other record is still there |
| Db.FirstIndex | backend/app/crud.py:35-36 | the position of the first element that satisfies the test, and none exactly when no element does; `session.get` by key and the e-mail lookup are both this search |
| Db.GetFile | backend/app/api/routes/files.py:65 | `session.get` returns a stored record with that key, and `None` exactly when there is none |
| Db.RemoveKeepsDistinct | backend/app/api/routes/files.py:73 | removing a record keeps primary keys unique |
| Crud.CreateUser | backend/app/crud.py:10-17 | one user is appended, with the hash of the password and the given fields; the files table is unchanged |
| Crud.ApplyUpdate | backend/app/crud.py:21-27 | each field set in the update is taken from it, each unset field is kept, and a password becomes the hash of the new password |
| Crud.UpdateLaws | backend/app/crud.py:21-27 | an update that sets nothing changes nothing; applying an update twice, with whatever hash each call computes, equals applying it once with the second call's hash, and without a password it equals the first application |
| Crud.UpdateUser | backend/app/crud.py:20-31 | only the updated user's record is replaced, by its updated version |
| Crud.GetUserByEmail | backend/app/crud.py:34-37 | a stored user with that e-mail, and `None` exactly when there is none |
| Crud.Authenticate | backend/app/crud.py:40-46 | no user with the e-mail gives `None`; otherwise the result is the first user with the e-mail exactly when its stored hash verifies the password, and `None` when it does not |
| Crud.AuthenticateTriesFirstOnly | backend/app/crud.py:41-45 | authentication succeeds exactly when the first user with the e-mail verifies; later users with the same e-mail are never tried |
| Crud.CreateFile | backend/app/crud.py:50-56 | exactly one record is appended, owned by the given owner |
| NaverClient.ParseInt | backend/app/core/naver_client.py:42-43 | `int()` succeeds exactly on an optionally signed run of digits, and its value is the digits' value, negated after a minus sign |
| NaverClient.Decimal | backend/app/core/naver_client.py:42-43 | the decimal text of a natural number, as Python's `str` writes it, is a run of digits whose value is that number |
| NaverClient.ParseDecimal | backend/app/core/naver_client.py:42-43 | `int` reads back the decimal text of any number, with or without a minus sign |
| NaverClient.Coordinates | backend/app/core/naver_client.py:41-45 | when `mapy` and `mapx` are both present, not `null` and integers, the latitude is `mapy` and the longitude `mapx`, each divided by 10^7; otherwise (0.0, 0.0) |
| NaverClient.CoordinatesOfDecimals | backend/app/core/naver_client.py:41-45 | coordinates written as decimal integers come back divided by 10^7, the latitude from `mapy` |
| NaverClient.AddressOf | backend/app/core/naver_client.py:50 | a non-empty road address wins; otherwise the address, "" when that key is absent and `None` when it is `null` |
| NaverClient.StripBold | backend/app/core/naver_client.py:38 | removing the bold tags never lengthens the title |
| NaverClient.Normalise | backend/app/core/naver_client.py:38-55 | an item gives a place exactly when its title is present and not `null`; the name is the stripped title, category and link are the field, "" when absent or `None` when `null`, the address is `AddressOf`, the position is `Coordinates`, and the keyword is the query |
| NaverClient.NormaliseAll | backend/app/core/naver_client.py:35-57 | one place per item, in item order, when every item has a title; otherwise nothing |
| NaverClient.Search | backend/app/core/naver_client.py:4-61 | missing credentials give no results and no request; otherwise exactly one request, with both credentials, the query, the display count and `sort=random`, answered by the service's response to the given call number; no results when the exchange raises, `total` is absent or 0, or `items` is absent or `null`; otherwise the normalised items, or none when one item has no title; every result records the query |
| NaverClient.SearchLocal | backend/app/core/naver_client.py:4-61 | the loop appending normalised items computes `Search` for the same call, with its early returns |
| NaverClient.NormaliseAllAbortsAt | backend/app/core/naver_client.py:36-38 | one item without a title makes the whole loop fail, so the client returns nothing |
| NaverClient.PlainTitleKept | backend/app/core/naver_client.py:38 | a title without `<` is kept whole as the name |
| NaverClient.StripBoldIsOnePass | backend/app/core/naver_client.py:38 | the tags are removed in one pass each, so "<<b>b>" becomes "<b>" |
| NaverClient.ResultsFollowItems | backend/app/core/naver_client.py:35-57 | when the given call is answered with a body whose items all have titles, the results are the items normalised, one each, in order |
| Storage.EnvPrefix | backend/app/core/storage.py:34 | the prefix is "dev" exactly for the "local" environment and "prod" otherwise |
| Storage.UploadFileToR2 | backend/app/core/storage.py:23-57 | without a client or a bucket nothing is put and `None` is returned; otherwise one object is put under the built key, and a URL is returned exactly when the put did not raise |
| Storage.ObjectKeyShape | backend/app/core/storage.py:36-39 | the key starts with the environment folder and the date folder and ends with `_` and the original file name |
| Storage.PublicUrlShape | backend/app/core/storage.py:52-53 | the URL is the domain without trailing slashes, one slash and the key, so a trailing slash on the domain changes nothing |
| RecommendationsApi.SentAll | backend/app/api/routes/recommendations.py:38-41 | with credentials, the k-th request is the search request for the k-th keyword with display 1, one per keyword in keyword order; without them, none |
| RecommendationsApi.CreateRecommendation | backend/app/api/routes/recommendations.py:12-48 | 404, 403 and 400 are checked in that order, and none of them calls the generator or the search; otherwise the title is the file name plus " 기반 추천 코스", the keywords are as generated and the places are the per-keyword results concatenated in keyword order, the search for the k-th keyword being the k-th call to the service |
| RecommendationsApi.PlacesComeFromKeywords | backend/app/api/routes/recommendations.py:37-41 | every returned place records one of the keywords as its search keyword |
| RecommendationsApi.SearchAllAppend | backend/app/api/routes/recommendations.py:37-41 | the places for a list of keywords are those for its two halves, concatenated, the second half's calls numbered on from the first's |
| RecommendationsApi.AtMostOnePlacePerKeyword | backend/app/api/routes/recommendations.py:39-41 | when every response to every call honours `display`, there are at most as many places as keywords |
| AnalysisStore.Persona.AddTag | frontend/src/routes/_layout/edit.tsx:97-100 | the value is appended to the list, which is created when absent; the other list and the name are unchanged |
| AnalysisStore.Store.constructor | frontend/src/store/analysisStore.ts:16 | the session starts empty |
| AnalysisStore.Store.SetAnalysisData | frontend/src/store/analysisStore.ts:17 | the value is replaced whole and nothing else changes; `None` clears it |
| AnalysisStore.Store.SetResultData | frontend/src/routes/_layout/recommendations.tsx:37 | the result slot the screens use is replaced whole and the analysis is unchanged |
| AnalysisStore.CallsCompleted | frontend/src/routes/_layout/recommendations.tsx:35-39 | a handler runs its calls up to the first one of an undefined name, which throws |
| AnalysisStore.StoreWithoutResultSetter | frontend/src/store/analysisStore.ts:10-17 | with the store as declared, the three handlers that call `setResultData` stop at that call; with the setter they run to the end |
| EditScreen.CourseValues | frontend/src/routes/_layout/edit.tsx:70 | the request holds each course's current fields, in order |
| EditScreen.PersonaValues | frontend/src/routes/_layout/edit.tsx:72 | the request holds each persona's current fields, in order |
| EditScreen.SpliceOneSpec | frontend/src/routes/_layout/edit.tsx:124 | `splice(i, 1)` at a valid index drops exactly element i and keeps the others in order; past the end it removes nothing |
| EditScreen.Editor.constructor | frontend/src/routes/_layout/edit.tsx:41-52 | the working arrays start as the store's arrays, or empty without a session; all input maps start empty |
| EditScreen.Editor.SyncWithStore | frontend/src/routes/_layout/edit.tsx:55-64 | without a session, the reset alert and a redirect to the upload screen; with one, the working copies are reseeded from it; the screen renders nothing exactly when it redirects |
| EditScreen.Editor.RendersNothing | frontend/src/routes/_layout/edit.tsx:135 | the screen renders nothing exactly when the store holds no analysis |
| EditScreen.Editor.HandleKeywordChange | frontend/src/routes/_layout/edit.tsx:85-89 | the course's keyword is set and its step and category kept; every position holding the same object sees the change, and every other course is unchanged |
| EditScreen.Editor.HandleAdd | frontend/src/routes/_layout/edit.tsx:92-119 | a missing or blank input changes nothing; otherwise the trimmed text is appended to that persona's list, created when absent, and that persona's input is emptied and hidden; the other list and everything else are unchanged |
| EditScreen.Editor.HandleRemove | frontend/src/routes/_layout/edit.tsx:122-133 | the persona's list becomes its `splice(i, 1)`; the other list and the name are unchanged |
| EditScreen.Editor.OpenInput | frontend/src/routes/_layout/edit.tsx:226 | only that persona's input box is shown |
| EditScreen.Editor.ChangeInput | frontend/src/routes/_layout/edit.tsx:253 | only that persona's input text changes |
| EditScreen.Editor.CancelInput | frontend/src/routes/_layout/edit.tsx:285-288 | that persona's input box is hidden and emptied, and nothing else changes |
| EditScreen.Editor.BuildReRecommendRequest | frontend/src/routes/_layout/edit.tsx:66-74 | the request carries the working courses with the store's metadata and personas, which are absent without a session |
| EditScreen.Editor.OnReRecommendSuccess | frontend/src/routes/_layout/edit.tsx:75-79 | the analysis becomes the response's analysis, the result becomes the response, and the result screen opens for the same file |
| EditScreen.Editor.OnReRecommendError | frontend/src/routes/_layout/edit.tsx:80-82 | an alert with the prefix and the message, and no state change |
| EditScreen.AddedLikeReachesRequest | frontend/src/routes/_layout/edit.tsx:96-100 | because the copies are shallow, a like added on the screen is in the personas the request reads from the store |
| RecommendationsScreen.IsAllowedUpload | frontend/src/routes/_layout/recommendations.tsx:82-84 | a name is accepted when the lower-cased text after its last dot is non-empty and one of txt, png, jpg, jpeg, heic, mp4, mov, avi |
| RecommendationsScreen.EmptyExtensionTestRedundant | frontend/src/routes/_layout/recommendations.tsx:84 | the test for a missing extension adds nothing: a name is accepted exactly when its extension is listed |
| RecommendationsScreen.AllowedUploadIff | frontend/src/routes/_layout/recommendations.tsx:82-84 | a name is accepted exactly when the lower-cased text after its last dot is a listed extension |
| RecommendationsScreen.AllowedUploadWholeName | frontend/src/routes/_layout/recommendations.tsx:82-84 | a name without a dot is accepted exactly when the whole name, lower-cased, is a listed extension |
| RecommendationsScreen.UpperCaseExtensionAccepted | frontend/src/routes/_layout/recommendations.tsx:82-84 | "trip.TXT" is accepted |
| RecommendationsScreen.OnlyLastExtensionCounts | frontend/src/routes/_layout/recommendations.tsx:82-84 | "notes.txt.gz" is refused |
| RecommendationsScreen.TrailingDotRefused | frontend/src/routes/_layout/recommendations.tsx:84 | "photo." has an empty extension and is refused |
| RecommendationsScreen.BareExtensionAccepted | frontend/src/routes/_layout/recommendations.tsx:82-84 | a file named just "txt" is accepted |
| RecommendationsScreen.LoadingText | frontend/src/routes/_layout/recommendations.tsx:170-174 | the button shows one of the two loading labels, and the generic one when no file is chosen |
| RecommendationsScreen.VideoSuffixAllowed | frontend/src/routes/_layout/recommendations.tsx:171 | a name ending in ".mp4", ".mov" or ".avi" passes the extension check |
| RecommendationsScreen.VideoLabelImpliesAllowed | frontend/src/routes/_layout/recommendations.tsx:170-174 | every file that gets the video label passes the extension check |
| RecommendationsScreen.UpperCaseVideoGetsGenericLabel | frontend/src/routes/_layout/recommendations.tsx:170-174 | "CLIP.MP4" is accepted but gets the generic label, because the suffix test is case-sensitive |
| RecommendationsScreen.UploadErrorToast | frontend/src/routes/_layout/recommendations.tsx:68-73 | the error toast shows the message, or a fixed hint when it is empty |
| RecommendationsScreen.Uploader.Enter | frontend/src/routes/_layout/recommendations.tsx:35-39 | entering the screen clears the analysis, the result and the chosen file |
| RecommendationsScreen.Uploader.HandleFileChange | frontend/src/routes/_layout/recommendations.tsx:77-96 | no choice changes nothing; a refused name shows the error, clears the input and keeps the earlier file; an accepted one becomes the file |
| RecommendationsScreen.Uploader.HandleSubmit | frontend/src/routes/_layout/recommendations.tsx:98-107 | without a file only a warning and no upload; with one, both store slots are cleared before that file is uploaded |
| RecommendationsScreen.Uploader.OnUploadSuccess | frontend/src/routes/_layout/recommendations.tsx:56-65 | a success toast, and the result screen for the returned id |
| RecommendationsScreen.RefusedChoiceKeepsFile | frontend/src/routes/_layout/recommendations.tsx:84-95 | a refused choice after an accepted one still uploads the accepted file |
| Dashboard.GetFileType | frontend/src/routes/_layout/index.tsx:37-46 | image exactly for an image extension, video exactly for a video extension, text for everything else, judged on the lower-cased text after the last dot |
| Dashboard.TypeOfExtension | frontend/src/routes/_layout/index.tsx:39-45 | the same for the extension itself; the two lists share no name, so the order of the checks does not matter |
| Dashboard.BareNameClassifiedWhole | frontend/src/routes/_layout/index.tsx:38 | a name without a dot is classified by the whole name, lower-cased |
| Dashboard.FileTypeIgnoresCase | frontend/src/routes/_layout/index.tsx:38 | classification does not depend on the case of the name |
| Dashboard.AcceptedUploadBadge | frontend/src/routes/_layout/index.tsx:37-46 | of the accepted uploads, png, jpg and jpeg show as images, mp4, mov and avi as videos, and txt and heic as text |
| Dashboard.AcceptedExtensionBadge | frontend/src/routes/_layout/index.tsx:39-45 | the same for each accepted extension |
| Dashboard.HeicShownAsText | frontend/src/routes/_layout/index.tsx:37-46 | "trip.heic" is accepted for upload but shown with the text badge |
| Dashboard.TruncateText | frontend/src/routes/_layout/index.tsx:69-72 | a missing or empty text gives the placeholder; a text within the limit is unchanged; a longer one is its first `maxLength` characters followed by "..." |
| Dashboard.TruncateStable | frontend/src/routes/_layout/index.tsx:71 | truncating a preview again with the same limit changes nothing |
| Dashboard.Greeting | frontend/src/routes/_layout/index.tsx:84 | the full name, or the e-mail when the name is missing or empty |
| Dashboard.ListingOf | frontend/src/routes/_layout/index.tsx:30-35 | the dashboard lists the first three of the owner's files, in table order |
| Dashboard.Render | frontend/src/routes/_layout/index.tsx:92-158 | spinner and error notice show on their own; the empty notice and the cards only after loading without error; one card per file, in order |
| Dashboard.DialogText | frontend/src/routes/_layout/index.tsx:173 | the dialog shows the extracted text, or a fixed message when there is none |
| Dashboard.ShowsOriginalLink | frontend/src/routes/_layout/index.tsx:176-185 | the "open original" button is shown exactly when a file is selected and its URL is set and non-empty |
| Dashboard.DialogOf | frontend/src/routes/_layout/index.tsx:163-187 | the dialog shows the selected file's name and `DialogText`, and the button for its URL exactly when `ShowsOriginalLink` holds |
| Dashboard.DashboardState.HandleFileClick | frontend/src/routes/_layout/index.tsx:74-78 | the clicked file is selected and the dialog opens |
| Dashboard.DashboardState.SetModalOpen | frontend/src/routes/_layout/index.tsx:163 | the dialog opens or closes and the selection stays |
| Dashboard.ReopenShowsLastFile | frontend/src/routes/_layout/index.tsx:74-78 | closing and reopening the dialog shows the last clicked file: its name, its text and its original link |
| ResultScreen.Centre | frontend/src/routes/_layout/result.tsx:55-56 | the map centre is the first place, or (37.5665, 126.9780) without places |
| ResultScreen.PathOf | frontend/src/routes/_layout/result.tsx:63-67 | the path holds every place's position, in order |
| ResultScreen.MarkersFor | frontend/src/routes/_layout/result.tsx:65-80 | one marker per place, in order; marker k is at place k, titled with its name and labelled k + 1 |
| ResultScreen.RequestOnEntry | frontend/src/routes/_layout/result.tsx:46-50 | a recommendation is requested exactly when the file id is present and non-empty |
| ResultScreen.ViewOf | frontend/src/routes/_layout/result.tsx:93-183 | loading exactly while pending; the error view exactly on failure, with its message; otherwise the title, the keywords and one numbered item per place, where a `null` category or address shows as empty and the link shows only when non-empty |
| ResultScreen.ListMatchesMarkers | frontend/src/routes/_layout/result.tsx:153-158 | list item k has the number and name of marker k, and marker k sits at point k of the path |
| ResultScreen.MapLibrary.NewMap | frontend/src/routes/_layout/result.tsx:58-61 | a map is added with the given centre and zoom, and its id is its position |
| ResultScreen.MapLibrary.NewMarker | frontend/src/routes/_layout/result.tsx:69-80 | the marker is added after the earlier ones |
| ResultScreen.MapLibrary.NewPolyline | frontend/src/routes/_layout/result.tsx:83-90 | the line is added after the earlier ones |
| ResultScreen.ResultView.InitMap | frontend/src/routes/_layout/result.tsx:52-91 | without the library or the container nothing is drawn; otherwise one new map at the centre with zoom 14, the markers for the places, and one line through the whole path exactly when there are at least two places; earlier drawings stay |
| ResultScreen.ResultView.OnRecommendSuccess | frontend/src/routes/_layout/result.tsx:40-43 | the result is kept and, with the library loaded, one map, the markers and, for two or more places, one line are drawn from its places, with earlier drawings kept; without the library nothing is drawn |
| ResultScreen.DrawingsAccumulate | frontend/src/routes/_layout/result.tsx:58-61 | two results drawn in turn leave both maps and all markers of both in place |

## Left out

- HTTP, the database engine, boto3 and the map library's rendering are not modelled. Tables are in-memory sequences in insertion order, and the map library records what is created. SQL ordering is not modelled.
- Concurrency and timing are not modelled: react-query's pending state, the 100 ms `setTimeout` before `initMap`, and the order in which React applies state updates.
- JSX layout, styling, icons and the toaster are not modelled. The Enter-key path of the tag inputs is not modelled; it calls the same handler as the button.
- `formatDate` is not modelled, because it depends on locale and dates.
- backend/app/core/llm.py and the keyword generator are not part of this model; the generator is the parameter `generate`. backend/app/api/main.py only registers routers.
- Password hashing and verification are the parameters `hash` and `verify`.
- Crud.UpdateLaws: the salt of the password hash is not modelled; each call takes its own `hash` function, so a second password update may store a different digest, and no agreement between `hash` and `verify` is assumed.
- Console output is not modelled: the `print` calls in naver_client.py, storage.py and recommendations.py and the `console.error` in recommendations.tsx only write diagnostics and change no result.
- UUIDs and the date folder are parameters, and so are whether the storage client's construction and `put_object` raise.
- NaverClient.Coordinates: the float division by 10^7 is exact division of reals, so Python's float rounding is not modelled.
- NaverClient.ParseInt: Python's `int()` also accepts surrounding white space, digit-separating underscores and non-ASCII Unicode decimal digits (full-width digits, for example). The model accepts only a sign and ASCII digits.
- NaverClient.Item: every item field is text. A JSON number in `mapx` or `mapy`, which Python's `int()` would also take, is not modelled, and neither is an item that is not an object.
- Text.Lower: only the characters whose ECMAScript lower-case form is an ASCII letter are mapped (`A`–`Z` and the KELVIN SIGN). This is exact for comparing with the ASCII extension lists, but other scripts are not lower-cased.
- Dashboard.TruncateText: lengths count Unicode scalar values. JavaScript's `length` and `slice` count UTF-16 code units, so texts outside the Basic Multilingual Plane are cut at a different place.
- Utf8.EncodeChar: the lead byte's conversion carries a guard that keeps it total. For scalar values it never fires.
- Crud.UpdateUser: `sqlmodel_update` mutates the loaded object in place. The model replaces the stored value, which is the same observable outcome for one session.
- EditScreen.Editor.HandleRemove: it requires that the list exists. The screen offers a remove button only for the tags of an existing list; without one, the source throws.
- FilesApi.ReadFiles: `skip` and `limit` are natural numbers. Negative values, which the database would reject, are not modelled.
- Error paths the services can raise inside the routes are not modelled, for example a database error during commit.

Some behaviour of the code is worth stating on its own:

- Every `initMap` adds a new map, new markers and possibly a new line, and removes nothing drawn before. `DrawingsAccumulate` shows this.
- The result screen has no tabs and does not pan the map to a place.
- The recommendation route takes only a file id. The edit screen sends courses, metadata and personas, and reads `newData.analysis` from the response. The route does not return that field. The model keeps both sides as written.
- A file name without any dot is its own extension. So a file named "txt" is accepted for upload, and a file named "png" gets the image badge.

## Findings

| source | as written | input that shows it | evidently intended | confidence | as-written member | corrected member |
|---|---|---|---|---|---|---|
| frontend/src/store/analysisStore.ts:10-17 | the store declares only `analysisData` and `setAnalysisData`, but recommendations.tsx:32,37,48 and edit.tsx:38,77 call `setResultData` | entering the upload screen, or uploading any file, or a successful re-recommendation: each calls `setResultData`, which is undefined and throws before the next call | a `resultData` slot with a setter that replaces it and leaves `analysisData` alone | not executed | AnalysisStore.StoreWithoutResultSetter | AnalysisStore.Store.SetResultData |
