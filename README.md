# Tounelet Satu village CMS — verified model of its helpers, routes and admin widgets

This project models the core of the village-website CMS of Desa Tounelet Satu in
Dafny: the route guard (`proxy.ts`), the storage helpers that turn a stored file
or blob name into a URL and back, the admin API routes that list and create posts,
potentials, facilities and gallery items and save profile entries, and the
client-side state machines of the facility list page, the facility create form,
the image uploader and the statistic card. It also models the admin sidebar's
highlighting rule and the header's initials.

Conventions of the model:

- Each API route handler is a function (when it only builds a query) or a method
  over a `Table` and a `PageCache`.
- The session is a boolean, and the parsed JSON body is an `Option`: `None` means
  `request.json()` threw.
- `dbAccepts` says whether Prisma accepted the write.
- A list handler returns the Prisma query it issues (its `where` and `orderBy`).
  `Matches` predicates give that query's meaning on a record.
- JavaScript truthiness of an optional string is `Truthy` (present and non-empty).
- `x || null` is `OrNull`, and `String.prototype.trim` is `Trim` over the
  ECMAScript white-space and line-terminator set.
- Timers, `fetch` and React state updates become discrete events on classes
  whose fields are the component's state.
- The requests sent and the toasts shown are recorded in `seq` fields.

Shared modules:

- `JsText`: JavaScript string semantics.
- `Api`: responses, tables and the page cache.
- `UriComponent`: `encodeURIComponent`, following section 19.2.6.5 of ECMA-262,
  and its decoding inverse.
- `Decimal`: `parseInt` on digit runs and the decimal form of a number.

## Model

| member | source | states |
|---|---|---|
| JsText.OrNull | app/api/admin/gallery/route.ts:40 | `x \|\| null` keeps a value exactly when it is truthy, i.e. a non-empty string |
| JsText.TrimStart | app/api/admin/facilities/route.ts:55 | the result is a suffix of the input, everything dropped is white space, and it does not start with white space |
| JsText.TrimEnd | app/api/admin/facilities/route.ts:55 | the result is a prefix of the input, everything dropped is white space, and it does not end with white space |
| JsText.Trim | app/api/admin/facilities/route.ts:49-55 | `trim()` yields a trimmed string no longer than its input, and it is empty exactly when the input is all white space |
| JsText.TrimKeepsMiddle | app/api/admin/facilities/route.ts:49-55 | `trim()` returns the input with its leading and trailing white space cut off: a middle slice of the input with only white space before and after it |
| JsText.TrimmedIsFixed | app/api/admin/potentials/route.ts:52 | a string with no surrounding white space is left unchanged by trimming |
| JsText.TrimIdempotent | app/api/admin/potentials/route.ts:52 | trimming twice is trimming once, so a stored trimmed name stays as it is |
| JsText.ToUpperCase | app/api/admin/posts/route.ts:21-25 | `toUpperCase()` keeps the length and maps each character to its upper case |
| JsText.ToUpperCaseIsUpper | app/api/admin/posts/route.ts:64-68 | upper-cased text holds no lower-case letter, and upper-casing is idempotent |
| JsText.Utf16Length | app/api/admin/potentials/route.ts:46 | `length` counts UTF-16 code units: between one and two per character, and one per character for text without characters above U+FFFF |
| JsText.PrefixOfPrefix | components/admin/admin-sidebar.tsx:78 | two prefixes of one path are prefixes of one another |
| JsText.PrefixTransitive | components/admin/admin-sidebar.tsx:78 | `startsWith` is transitive |
| JsText.SliceIsContainedInsensitive | app/api/admin/facilities/route.ts:16-23 | every slice of a text is found by a case-insensitive `contains` search |
| LocalStorage.GetFileUrl | lib/local-storage.ts:48-50 | the URL is `/uploads/` followed by exactly the file path |
| LocalStorage.FirstMatchFrom | lib/local-storage.ts:55 | finds the leftmost position from which `/\/uploads\/(.+)$/` matches, or shows that there is none |
| LocalStorage.ExtractFilePathFromUrl | lib/local-storage.ts:52-61 | null for an empty URL and exactly when no position matches; otherwise it is the non-empty, single-line rest after the leftmost `/uploads/` |
| LocalStorage.ExtractTakesLeftmostOccurrence | lib/local-storage.ts:55-57 | for a single-line URL, the captured group starts after the first `/uploads/` |
| LocalStorage.ExtractGetFileUrl | lib/local-storage.ts:48-61 | round trip: extracting from `getFileUrl(p)` gives back `p` for every non-empty single-line path |
| LocalStorage.ExtractNestedExample | lib/local-storage.ts:55 | a path that itself contains `/uploads/` is returned whole |
| LocalStorage.ExtractWithoutMarker | lib/local-storage.ts:55-60 | a URL without `/uploads/` gives null |
| LocalStorage.UploadDirectory.SaveFile | lib/local-storage.ts:21-33 | the buffer is stored under the path, and the returned URL is `getFileUrl(filePath)` |
| AzureStorage.ContainerName | lib/azure-storage.ts:5 | the configured container name when it is set and non-empty, `uploads` otherwise |
| AzureStorage.ConnectionString | lib/azure-storage.ts:16 | the connection string starts with the protocol field, carries the account name, `;AccountKey=` and the key at their places, and ends with `;EndpointSuffix=core.windows.net` |
| AzureStorage.ConnectionStringDeterminesCredentials | lib/azure-storage.ts:16 | for account names without `;`, equal connection strings come from the same name and key |
| AzureStorage.TemplateIsInjective | lib/azure-storage.ts:16 | filling the template is injective when the first value cannot contain the separator that starts the next field |
| AzureStorage.ExtractIsLeftmost | lib/azure-storage.ts:67-69 | the extracted name is the one after the leftmost match |
| AzureStorage.NextSlash | lib/azure-storage.ts:67 | the first `/` at or after a position, or the end of the URL |
| AzureStorage.FirstBlobMatchFrom | lib/azure-storage.ts:67 | the leftmost position from which the blob-URL pattern matches, or shows that there is none |
| AzureStorage.ExtractBlobNameFromUrl | lib/azure-storage.ts:64-73 | null for an empty URL and exactly when nothing matches; otherwise it is the non-empty single-line tail after the host and the container of the leftmost match |
| AzureStorage.ExtractFromBlobUrl | lib/azure-storage.ts:64-73 | round trip: the blob name is recovered from `https://<account>.blob.core.windows.net/<container>/<name>` |
| AzureStorage.StorageModule.constructor | lib/azure-storage.ts:3-7 | the settings are read once, the container name gets its default, and no client is cached |
| AzureStorage.StorageModule.GetBlobServiceClient | lib/azure-storage.ts:9-21 | throws the credentials error unless both the account name and the key are set; otherwise it creates the client from the connection string once and hands out the cached client afterwards |
| AzureStorage.StorageModule.GetContainerClient | lib/azure-storage.ts:23-25 | the container client of the shared service client for the configured container, or the credentials error |
| AzureStorage.ClientIsShared | lib/azure-storage.ts:14-20 | two calls in a row succeed and hand out the same client |
| Proxy.Proxy | proxy.ts:4-25 | paths outside `/admin` pass; an admin page other than the login page without a session cookie redirects to the login page; the login page with a session redirects to `/admin`; there are no other redirects |
| Proxy.HasSession | proxy.ts:12 | either of the two Auth.js session cookie names counts as a session |
| Proxy.RedirectsSettle | proxy.ts:14-22 | the target of a redirect does not redirect again with the same cookies |
| Proxy.LoginPageOpenWithoutSession | proxy.ts:6-17 | without a session the login page is served |
| Proxy.SessionPassesAdminPages | proxy.ts:12-24 | with either session cookie, every page except the login page passes |
| Proxy.AdministratorCountsAsAdmin | proxy.ts:5 | the prefix test alone counts `/administrator` as an admin route |
| Proxy.Gate | proxy.ts:27-29 | the proxy runs only on paths the matcher `/admin/:path*` selects |
| Proxy.MatcherNarrowsProxy | proxy.ts:5-29 | every matched path is an admin route, and `/administrator` is not matched, so it passes |
| AdminSidebar.ActiveFlags | components/admin/admin-sidebar.tsx:76-78 | one highlight flag per menu entry, each by the `isActive` rule |
| AdminSidebar.IsActive | components/admin/admin-sidebar.tsx:78 | the dashboard entry only on its own path; any other entry on its own path or any path starting with its href |
| AdminSidebar.DashboardOnlyOnExactPath | components/admin/admin-sidebar.tsx:78 | the dashboard entry is highlighted exactly on `/admin` |
| AdminSidebar.OwnPageIsActive | components/admin/admin-sidebar.tsx:20-78 | each entry is highlighted on its own page |
| AdminSidebar.PostsEditPageShowsPosts | components/admin/admin-sidebar.tsx:28-78 | a page below an entry highlights that entry |
| AdminSidebar.HrefsArePrefixFree | components/admin/admin-sidebar.tsx:20-61 | no entry's href, other than the dashboard's, is a prefix of another entry's href |
| AdminSidebar.AtMostOneActive | components/admin/admin-sidebar.tsx:20-78 | on any path at most one entry is highlighted |
| AdminSidebar.OutsideAdminNothingActive | components/admin/admin-sidebar.tsx:78 | outside `/admin` no entry is highlighted |
| AdminHeader.LocalPart | components/admin/admin-header.tsx:12 | the part of the e-mail before the first `@` |
| AdminHeader.FirstTwo | components/admin/admin-header.tsx:13 | `substring(0, 2)`: the longest prefix that fits in two UTF-16 code units, non-empty for a non-empty string |
| AdminHeader.Initials | components/admin/admin-header.tsx:11-14 | never empty; `AD` without an e-mail or with an empty local part, otherwise the upper-cased first two code units' worth of the local part |
| AdminHeader.InitialsOfEmail | components/admin/admin-header.tsx:11-14 | for an e-mail not starting with `@`, the initials are upper case and the upper case of the start of the address; they have two characters exactly when the first two characters are in the local part and each is one code unit |
| AdminHeader.LeadingAtFallsBack | components/admin/admin-header.tsx:12-14 | an e-mail starting with `@` falls back to `AD` |
| AdminHeader.InitialsExamples | components/admin/admin-header.tsx:11-14 | worked examples: `budi@desa.id` gives `BU`, `x@desa.id` gives `X`, an e-mail starting with an emoji gives that emoji alone, no session gives `AD` |
| Api.Table.Create | app/api/admin/facilities/route.ts:53-59 | a created record is appended to the table and nothing else changes |
| Api.PageCache.Revalidate | app/api/admin/facilities/route.ts:61-62 | the requested `revalidatePath` calls are recorded in order, after the earlier ones |
| PostsRoute.ListPosts | app/api/admin/posts/route.ts:6-45 | 401 without a session; otherwise the query is newest first, and its filter is the upper-cased type and status and a case-insensitive title search, each applied only when the parameter is given |
| PostsRoute.FilterFor | app/api/admin/posts/route.ts:18-33 | the `where` object for the query parameters: type and status upper-cased unless absent, empty or `all`, and the title search unless absent or empty |
| PostsRoute.PostMatches | app/api/admin/posts/route.ts:18-33 | the database's reading of the `where` object: each condition present holds |
| PostsRoute.NewPost | app/api/admin/posts/route.ts:55-70 | refused exactly when the title or the type is missing or empty; the type is upper-cased; the status is upper-cased and defaults to `DRAFT`; the date is null unless given; body and featured image pass through |
| PostsRoute.CreatePost | app/api/admin/posts/route.ts:47-80 | 401, then 400 `Title and type are required`, then the created post with `/` (layout) and `/berita` revalidated, or 500 when the body cannot be parsed or the write fails; the table grows by exactly the returned post |
| PostsRoute.CreatedPostIsListed | app/api/admin/posts/route.ts:18-70 | a created post is listed by every filter its type, status and a slice of its title satisfy |
| PostsRoute.OtherTypeIsNotListed | app/api/admin/posts/route.ts:20-64 | a created post is not listed under a different type |
| PostsRoute.UnsetStatusListedAsDraft | app/api/admin/posts/route.ts:24-68 | a post created without a status is listed under `?status=draft` |
| PotentialsRoute.ListPotentials | app/api/admin/potentials/route.ts:6-35 | 401 without a session; otherwise newest first, unfiltered without a search and filtered by a case-insensitive search of the name or the description with one |
| PotentialsRoute.PotentialMatches | app/api/admin/potentials/route.ts:16-23 | the database's reading of the filter: everything without a search, otherwise a case-insensitive match in the name or in a non-null description |
| PotentialsRoute.TrimOrNull | app/api/admin/potentials/route.ts:53-54 | `x?.trim() \|\| null` is null exactly for a missing or blank value, and otherwise the non-empty trimmed value |
| PotentialsRoute.NewPotential | app/api/admin/potentials/route.ts:44-57 | refused exactly when the name is missing or its trimmed `length` is below 3 UTF-16 code units; the stored name is trimmed; description and emoji are trimmed or null; the image URL is kept when truthy |
| PotentialsRoute.EmojiNameIsLongEnough | app/api/admin/potentials/route.ts:46 | an emoji followed by one letter has length 3 and is accepted |
| PotentialsRoute.TwoLetterNameIsShort | app/api/admin/potentials/route.ts:46 | a two-letter name is refused |
| PotentialsRoute.CreatePotential | app/api/admin/potentials/route.ts:37-67 | 401, then 400 with the name error, then the created potential with `/` (layout) and `/potensi` revalidated, or 500; a table whose names are all valid stays so |
| PotentialsRoute.SearchFindsName | app/api/admin/potentials/route.ts:16-23 | a search for any non-empty part of a stored name finds the potential |
| PotentialsRoute.CreatedPotentialIsFound | app/api/admin/potentials/route.ts:16-52 | searching for any non-empty slice of a created potential's name finds it |
| FacilitiesRoute.ListFacilities | app/api/admin/facilities/route.ts:6-37 | 401 without a session; otherwise sorted by name ascending, unfiltered without a search and filtered by a case-insensitive name search with one |
| FacilitiesRoute.FacilityMatches | app/api/admin/facilities/route.ts:16-23 | the database's reading of the filter: everything without a search, otherwise a case-insensitive match in the name |
| FacilitiesRoute.NewFacility | app/api/admin/facilities/route.ts:47-59 | refused exactly when the name is missing or blank; the stored name is trimmed and non-empty; description and image URL are kept when truthy, null otherwise |
| FacilitiesRoute.CreateFacility | app/api/admin/facilities/route.ts:39-69 | 401, then 400 `Name is required`, then 201 with the created facility and `/sarana-prasarana` and `/admin/sarana` revalidated, or 500; the table grows by exactly the returned facility |
| FacilitiesRoute.StoredNameIsStable | app/api/admin/facilities/route.ts:49-55 | a stored facility re-submitted as it was is accepted and stored identically |
| FacilitiesRoute.SearchFindsName | app/api/admin/facilities/route.ts:16-23 | a search for any non-empty part of a stored name finds the facility |
| FacilitiesRoute.CreatedFacilityIsFound | app/api/admin/facilities/route.ts:16-55 | searching for any non-empty slice of a created facility's name finds it |
| GalleryRoute.ListGallery | app/api/admin/gallery/route.ts:6-22 | 401 without a session; otherwise all items, newest first |
| GalleryRoute.NewGalleryItem | app/api/admin/gallery/route.ts:31-42 | refused exactly when the URL is missing or empty; the URL is kept and the caption is null unless it is non-empty |
| GalleryRoute.CreateGalleryItem | app/api/admin/gallery/route.ts:24-52 | 401, then 400 `URL is required`, then the created item with `/` (layout) and `/galeri` revalidated, or 500; the table grows by exactly the returned item |
| GalleryRoute.StoredItemIsStable | app/api/admin/gallery/route.ts:37-42 | a stored item re-submitted as it was is stored identically |
| ProfileRoute.Assign | app/api/admin/profile/route.ts:16 | `acc[item.key] = item.value` on a plain object: sets the key, except `__proto__`, which reaches the prototype setter and is not stored |
| ProfileRoute.FoldProfile | app/api/admin/profile/route.ts:15-18 | the `reduce`: the rows assigned into an empty object from first to last |
| ProfileRoute.FoldHasRowKeys | app/api/admin/profile/route.ts:15-18 | the profile object has exactly the keys of the rows, except `__proto__` |
| ProfileRoute.LastRowWins | app/api/admin/profile/route.ts:15-18 | for a repeated key other than `__proto__` the object holds the value of its last row |
| ProfileRoute.ProfileMapOf | app/api/admin/profile/route.ts:13-18 | the `reduce` loop builds the profile object of all rows |
| ProfileRoute.FirstIndexOf | app/api/admin/profile/route.ts:41 | the first row with the key, or none exists |
| ProfileRoute.FirstIndexOfIs | app/api/admin/profile/route.ts:41 | under unique keys, the row holding a key is the one found |
| ProfileRoute.UpsertRow | app/api/admin/profile/route.ts:40-44 | the row with the key gets the new value and every other row stays in place, or a row is appended when there is none |
| ProfileRoute.UpsertUpdatesProfile | app/api/admin/profile/route.ts:15-44 | with unique keys, the profile object after an upsert is the old one with the key assigned the value (so unchanged for `__proto__`) |
| ProfileRoute.ReplaceKeyedRow | app/api/admin/profile/route.ts:42 | replacing the one row with a key changes that key's value only |
| ProfileRoute.UpsertKeepsKeysUnique | app/api/admin/profile/route.ts:40-44 | upserting keeps the keys unique |
| ProfileRoute.UpsertIsIdempotent | app/api/admin/profile/route.ts:40-44 | upserting the same key and value twice is upserting once |
| ProfileRoute.ProfileTable.Upsert | app/api/admin/profile/route.ts:40-44 | the table becomes the upsert of its rows, the saved row is returned, and unique keys stay unique |
| ProfileRoute.GetProfile | app/api/admin/profile/route.ts:6-25 | 401 without a session, the profile object of all rows otherwise |
| ProfileRoute.SaveProfile | app/api/admin/profile/route.ts:27-54 | 401, then 400 `Key and value are required` when either is missing or empty, then the saved row with `/` (layout) and `/profil` revalidated, or 500 |
| ProfileRoute.SavedValueReadsBack | app/api/admin/profile/route.ts:13-44 | after a save, GET returns the saved value under the key (and nothing new for `__proto__`), and every other key keeps its value |
| UriComponent.Utf8 | app/admin/sarana/page.tsx:39 | one to four bytes, a single byte exactly for ASCII |
| UriComponent.EncodeURIComponent | app/admin/sarana/page.tsx:39 | `encodeURIComponent`: each character kept when unreserved, otherwise its UTF-8 bytes percent-encoded; its meaning is fixed by the lemmas below |
| UriComponent.PercentByte | app/admin/sarana/page.tsx:39 | `%` and two upper-case hex digits |
| UriComponent.PercentBytes | app/admin/sarana/page.tsx:39 | three characters per byte |
| UriComponent.PercentBytesIsEncoded | app/admin/sarana/page.tsx:39 | percent-encoded bytes use only `%` and hex digits |
| UriComponent.EncodeIsEncoded | app/admin/sarana/page.tsx:39 | the encoding uses only unreserved characters, `%` and upper-case hex digits |
| UriComponent.EncodedAlphabet | app/admin/sarana/page.tsx:38-40 | the encoded search holds no space, `&`, `=`, `#`, `+`, `?` or `/`, so it stays one query parameter |
| UriComponent.EncodeEmptyIffEmpty | app/admin/sarana/page.tsx:38-40 | only the empty text encodes to the empty text |
| UriComponent.EncodeKeepsUnreserved | app/admin/sarana/page.tsx:39 | text of unreserved characters is sent as it is |
| UriComponent.ReadByte | app/admin/sarana/page.tsx:39 | a decoded `%XX` is a byte |
| UriComponent.ReadPercentBytes | app/admin/sarana/page.tsx:39 | reading percent-encoded bytes gives the bytes back |
| UriComponent.Utf8RoundTrip | app/admin/sarana/page.tsx:39 | decoding the UTF-8 form of a character gives the character, and its lead byte announces its length |
| UriComponent.DecodeEncodedChar | app/admin/sarana/page.tsx:39 | decoding one encoded character followed by more text |
| UriComponent.DecodeURIComponent | app/admin/sarana/page.tsx:39 | `decodeURIComponent`, the partner of the encoder: null for a malformed escape, otherwise the decoded text |
| UriComponent.DecodeEncode | app/admin/sarana/page.tsx:38-40 | round trip: decoding the encoded search gives exactly the search |
| UriComponent.EncodeIsInjective | app/admin/sarana/page.tsx:39 | different searches give different URLs |
| Decimal.DigitValue | components/stat-card.tsx:45 | a digit's value is below ten |
| Decimal.DigitChar | app/admin/sarana/page.tsx:66 | the digit character of a value below ten |
| Decimal.DecimalValue | components/stat-card.tsx:45 | `parseInt` on a run of digits, most significant digit first |
| Decimal.NatToDecimal | app/admin/sarana/page.tsx:66 | the decimal form is a non-empty run of digits without a leading zero |
| Decimal.IntToString | app/admin/sarana/page.tsx:66 | the decimal form of an id, with `-` for a negative one |
| Decimal.DecimalRoundTrip | components/stat-card.tsx:45 | `parseInt` of a number's decimal form is the number |
| Decimal.DecimalIsInjective | app/admin/sarana/page.tsx:66 | two numbers with the same decimal form are equal |
| Decimal.IntToStringIsInjective | app/admin/sarana/page.tsx:66 | two integer ids with the same `${id}` text are equal |
| Decimal.LeadingZeroIsIgnored | components/stat-card.tsx:45 | leading zeros do not change the value `parseInt` reads |
| SaranaPage.FirstClose | app/admin/sarana/page.tsx:182 | the first `>`, or none exists |
| SaranaPage.StripTags | app/admin/sarana/page.tsx:182 | `replace(/<[^>]*>/g, '')` never lengthens the text and introduces no character |
| SaranaPage.StripTagsLeavesNoTag | app/admin/sarana/page.tsx:182 | the preview holds no `<` followed later by `>` |
| SaranaPage.StripTagsKeepsTagFreeText | app/admin/sarana/page.tsx:182 | text with no tag is shown as it is |
| SaranaPage.StripTagsKeepsTextWithoutOpen | app/admin/sarana/page.tsx:182 | text without `<` is shown as it is |
| SaranaPage.StripTagsIsIdempotent | app/admin/sarana/page.tsx:182 | stripping twice is stripping once |
| SaranaPage.StripOneTag | app/admin/sarana/page.tsx:182 | the text before the first `<` is kept, the tag up to the first `>` after it is removed, and stripping continues after the tag; with StripTagsKeepsTagFreeText this fixes the preview for every description |
| SaranaPage.StripKeepsPlainPrefix | app/admin/sarana/page.tsx:182 | text containing no `<` passes through unchanged in front of whatever follows it |
| SaranaPage.StripTagsExample | app/admin/sarana/page.tsx:182 | `a<b>c` is shown as `ac` |
| SaranaPage.FacilitiesUrl | app/admin/sarana/page.tsx:38-40 | the plain endpoint for an empty search, otherwise the endpoint with `?search=` and the encoded search |
| SaranaPage.SearchParam | app/api/admin/facilities/route.ts:14 | the list route's reading of `search` from a list URL |
| SaranaPage.FacilitiesUrlCarriesSearch | app/admin/sarana/page.tsx:38-40 | the list route reads back exactly the typed search and filters by name on it, and an empty search gives no filter |
| SaranaPage.HasSelection | app/admin/sarana/page.tsx:62 | `if (!deleteId) return`: null and 0 both count as no selection |
| SaranaPage.DeleteUrl | app/admin/sarana/page.tsx:66 | the DELETE URL `/api/admin/facilities/<id>` |
| SaranaPage.DeleteUrlIsInjective | app/admin/sarana/page.tsx:66 | different ids give different delete URLs, so the request names the selected facility only |
| SaranaPage.FacilityListPage.constructor | app/admin/sarana/page.tsx:24-28 | the first render is loading, with an empty search and nothing selected |
| SaranaPage.FacilityListPage.SetSearch | app/admin/sarana/page.tsx:26 | typing changes only the search |
| SaranaPage.FacilityListPage.SelectForDelete | app/admin/sarana/page.tsx:196 | the trash button selects the facility and changes nothing else |
| SaranaPage.FacilityListPage.CloseDialog | app/admin/sarana/page.tsx:208 | closing the dialog clears the selection and changes nothing else |
| SaranaPage.FacilityListPage.StartFetch | app/admin/sarana/page.tsx:35-42 | loading is on, and the list URL for the current search is requested |
| SaranaPage.FacilityListPage.FinishFetch | app/admin/sarana/page.tsx:42-53 | the list is replaced on success; on failure there is an error toast and the old list stays; loading is off either way |
| SaranaPage.FacilityListPage.HandleDelete | app/admin/sarana/page.tsx:61-89 | nothing happens without a selection (null or 0); otherwise a DELETE of `/api/admin/facilities/<id>` is sent; an ok response gives the success toast and a new list fetch; anything else gives the error toast; afterwards the dialog is closed and not busy |
| SaranaCreatePage.BodyOf | app/admin/sarana/create/page.tsx:43-47 | the name is sent as typed, and empty content or an empty image URL is sent as null |
| SaranaCreatePage.FormAndHandlerAgree | app/admin/sarana/create/page.tsx:28-47 | the route accepts what the form sends exactly when the form's blank check lets it through, and it stores the trimmed name |
| SaranaCreatePage.CreateFacilityForm.constructor | app/admin/sarana/create/page.tsx:18-23 | the form starts empty and not loading |
| SaranaCreatePage.CreateFacilityForm.SetName | app/admin/sarana/create/page.tsx:96 | typing changes only the name |
| SaranaCreatePage.CreateFacilityForm.SetEditorContent | app/admin/sarana/create/page.tsx:115 | the editor changes only the content |
| SaranaCreatePage.CreateFacilityForm.ImageUploaded | app/admin/sarana/create/page.tsx:105 | an upload sets only the image URL |
| SaranaCreatePage.CreateFacilityForm.RemoveImage | app/admin/sarana/create/page.tsx:106 | removing the image clears its URL, so the next submission sends null |
| SaranaCreatePage.CreateFacilityForm.HandleSubmit | app/admin/sarana/create/page.tsx:25-68 | a blank name gives the error toast and sends nothing; otherwise the body is sent, an ok response gives the success toast and navigates to `/admin/sarana`, and anything else gives the error toast; loading ends off |
| ImageUpload.TickProgress | components/admin/image-upload.tsx:29-35 | the interval adds 10 below 90 and holds the progress at 90 |
| ImageUpload.ProgressAfterTicksIs | components/admin/image-upload.tsx:28-36 | after n ticks the bar shows min(10n, 90), so it never reaches 100 before the response |
| ImageUpload.ImageUploader.constructor | components/admin/image-upload.tsx:17-19 | the upload endpoint defaults to `/api/admin/upload`, and the uploader starts idle at 0 |
| ImageUpload.ImageUploader.SelectFile | components/admin/image-upload.tsx:21-45 | no file, or a disabled input, changes nothing; otherwise the upload starts at 0 with the interval set, and the file is posted |
| ImageUpload.ImageUploader.Tick | components/admin/image-upload.tsx:28-36 | one interval run: the progress rises by 10, and at 90 it is held there and the interval clears itself |
| ImageUpload.ImageUploader.Respond | components/admin/image-upload.tsx:47-59 | a truthy URL sets 100 and calls `onChange` once with it; otherwise nothing is called; the interval is cleared and the reset scheduled either way |
| ImageUpload.ImageUploader.ResetFires | components/admin/image-upload.tsx:56-59 | the timeout makes the uploader idle at 0 again |
| ImageUpload.Upload | components/admin/image-upload.tsx:21-60 | a whole upload posts the file once, calls `onChange` exactly when the URL is truthy, shows min(10·ticks, 90) before the response, and ends idle at 0 |
| StatCard.DigitsOf | components/stat-card.tsx:45 | `replace(/[^0-9]/g, '')` keeps only digits |
| StatCard.NumericValue | components/stat-card.tsx:45 | 0 when the value has no digit |
| StatCard.DigitsOfConcat | components/stat-card.tsx:45 | the digits of joined texts are the joined digits |
| StatCard.DigitsOfAllDigits | components/stat-card.tsx:45 | a run of digits keeps all its characters |
| StatCard.NonDigitIsIgnored | components/stat-card.tsx:45 | a non-digit anywhere in the value does not change the number |
| StatCard.NumberWithUnit | components/stat-card.tsx:45 | a number followed by a unit counts up to that number |
| StatCard.NoDigits | components/stat-card.tsx:45 | a text without digits has no digits |
| StatCard.ThousandsSeparatorExample | components/stat-card.tsx:45 | `1.234 jiwa` counts up to 1234 |
| StatCard.AnimationProgress | components/stat-card.tsx:55 | the progress lies in [0, 1], and it is 1 exactly from 2000 ms on |
| StatCard.Fourth | components/stat-card.tsx:58 | the fourth power is monotone on non-negative reals |
| StatCard.EaseOutQuart | components/stat-card.tsx:58 | the easing maps [0, 1] into [0, 1], 0 to 0 and 1 to 1 |
| StatCard.EaseOutQuartIsMonotonic | components/stat-card.tsx:58 | the easing never decreases |
| StatCard.Scale | components/stat-card.tsx:59 | scaling by the number keeps the order |
| StatCard.FloorOfFraction | components/stat-card.tsx:59 | a fraction in [0, 1] of the number, and its floor, lie between 0 and the number |
| StatCard.FloorIsMonotonic | components/stat-card.tsx:59 | `Math.floor` keeps the order |
| StatCard.FrameCount | components/stat-card.tsx:59 | the frame's count is the floor of the eased fraction of the number, between 0 and the number |
| StatCard.CountNeverFalls | components/stat-card.tsx:53-64 | later frames never show a smaller count, and from 2000 ms on the count is the number |
| StatCard.Trend | components/stat-card.tsx:93-100 | an up arrow and the green style exactly for a trend of 0 or more; the percentage is the absolute value |
| StatCard.OppositeTrends | components/stat-card.tsx:95-100 | opposite trends show opposite arrows with the same percentage |
| StatCard.Card.constructor | components/stat-card.tsx:40 | a card starts unanimated at 0 |
| StatCard.Card.Effect | components/stat-card.tsx:47-68 | the animation starts only when the card is visible, has not animated yet and its number is positive, and it starts at most once |
| StatCard.Card.Frame | components/stat-card.tsx:53-64 | a frame sets the count to the frame count, and from 2000 ms on to the number itself |
| StatCard.Card.DisplayValue | components/stat-card.tsx:70-72 | the raw text is shown until the animation starts, and always for a value whose number is 0; the counter is shown otherwise |

## Left out

- Database access (Prisma), `auth()` and `revalidatePath` are not run.
  - The database is a `Table` of records.
  - A list query is returned as its `where`/`orderBy`.
  - The session is a boolean.
  - A failing write is the `dbAccepts` flag.
- The 500 responses of the GET handlers are not modelled. These come from `auth()` or `findMany` throwing ("Failed to fetch …").
- Request bodies are modelled as optional strings.
  - A JSON value of another type (a number for `name`, say) makes `.trim()` or `.toUpperCase()` throw in the source, which answers 500.
  - The model does not represent such values.
- Pagination and the database's sort are not evaluated. The model returns the query, not the rows it selects.
- `JsText.ToUpperCase`: upper-cases ASCII letters only. JavaScript's `toUpperCase` and Prisma's case-insensitive `contains` use full Unicode case mapping.
- `AdminHeader.FirstTwo`: when the local part's second character lies above U+FFFF, `substring(0, 2)` ends in its lone high surrogate, which a string of Unicode characters cannot hold; the model drops that half character and shows the first character alone.
- `PostsRoute.NewPost`: the date is kept as the submitted string when it is truthy. `new Date(date)` parsing, including invalid dates, is not modelled.
- `ProfileRoute.GetProfile`: rows are folded in table order. `findMany()` without `orderBy` gives no order guarantee, so the value of a duplicated key may differ.
- `LocalStorage.UploadDirectory.SaveFile`: the directory is a map from the given path to the bytes.
  - `path.join` normalisation (`..`, repeated slashes) is not modelled.
  - `ensureDirectoryExists` and the filesystem are not modelled.
- `removeFile` (lib/local-storage.ts:35-46) is left out: it only deletes a file and reports the error code.
- `uploadBlob`, `deleteBlob` and `getBlobUrl` (lib/azure-storage.ts) are left out. They are calls into the Azure SDK.
- The client's container lookup is represented by its inputs (the client and the container name).
- `StatCard.Card.Frame`: floating point is modelled with exact reals.
  - Rounding in `Math.pow` and `parseInt` beyond 2^53 is not captured.
  - `count.toLocaleString('id-ID')` formatting is not modelled; the counter shows the count itself.
- `StatCard.Card.Frame`: a frame takes the time elapsed since the first frame. `requestAnimationFrame` scheduling and the `!startTime` test on a first timestamp of 0 are not modelled.
- `ImageUpload.ImageUploader.Tick`: timers are discrete events (one interval run, the reset timeout). Real time and interleavings of overlapping uploads are not modelled. The disabled input is modelled as a guard on `SelectFile`.
- `SaranaPage.FacilityListPage.FinishFetch`: the reply is a list or a failure. A 401 error object returned with a non-throwing `res.json()` would be stored as the list in the source; the model treats only a list as success.
- `SaranaPage.SearchParam`: the server's `URLSearchParams` parsing is represented by `decodeURIComponent`. Both agree on the output of `encodeURIComponent`, which never contains `+`.
- The async handlers are modelled as one step per event. Concurrent runs of `fetchFacilities` and `handleDelete`, and the relative order of their state updates, are not modelled.
- The organisation chart editor, the public pages, the upload routes, the facility edit/delete routes and the presentational components are not part of this model.
