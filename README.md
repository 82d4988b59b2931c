# Blog admin UI: a verified model of its form, list, view and API-client rules

The blog admin is a React front end for a REST blog service. Authors write posts in a
rich-text editor, list and filter them, view them, and save them through a small axios
client. This project models, in Dafny, the deterministic rules of that front end:

- **Create/edit form** (`BlogForm`):
  - validation of title and content;
  - the plain-text excerpt (tags stripped, cut at 150 characters plus `...`);
  - the 10 MiB featured-image gate;
  - the pre-save rewrite. Every inline `data:image` source is uploaded in document order, and each
    successful upload replaces the first remaining occurrence of that data URI with the returned URL;
  - the blogData object with its `meta_title`, `meta_description` and `featured_image` rules.
- **List page** (`BlogList`):
  - page changes bounded by `1..pages`;
  - the query parameters of the list request;
  - the fallback pagination;
  - removal of a deleted post;
  - status badges, labels and counters.
- **Post page** (`BlogView`): who may edit a post, the three outcomes of the edit button, and the
  `N/A` date fallback.
- **API client** (`BlogApi`):
  - multipart body assembly for create, update and image upload, built with a FormData object that
    is only appended to;
  - the request interceptor that adds `Authorization: Bearer <token>`;
  - the response interceptor that drops the token on a 401.
- **String operations** (`Text`): JavaScript's `trim`, `indexOf`/`includes`, `replace` with a string
  pattern, the tag-stripping regular expression `/<[^>]*>/g`, and first-letter capitalisation.

Network results, the DOM parse and the browser's storage are inputs to the model:

- The list of `data:image` sources found by `DOMParser` is a `seq<string>`.
- Each upload outcome is an `Option<string>`: the URL, or `None` when the fetch or the upload threw,
  or the server reported failure.
- The stored token is an `Option<string>`, and the stored user is a parsed record.

JavaScript truthiness is spelled out wherever the code relies on it:

- An empty token means "not logged in".
- An empty `meta_title` or `meta_description` falls back.
- An empty `featured_image` string is left out of blogData.
- An empty search term sends no `search` parameter.
- An empty route id means create mode.

Behaviours worth noting, modelled as the code has them:

- `replace` with a string pattern rewrites only the first remaining occurrence of each data URI.
- That first occurrence is searched in the whole markup, not inside the image: when the same payload
  also occurs earlier as text, the text becomes the URL and the image keeps its payload
  (`RewriteHitsEarlierText`). When each payload is first found at its own image, every image gets its
  own URL and a failed image keeps its payload (`RewriteWholeDocument`).
- An existing featured-image URL is put into blogData by the form, but the API client never sends
  it: only a `File` is appended (`SubmittedFeaturedImage`).
- A 401 response removes the stored token inside this client.

## Model

| member | source | states |
|---|---|---|
| `Text.Trim` | src/components/BlogForm.jsx:74-75 | `s.trim()` is empty iff every character of `s` is JavaScript whitespace; a non-empty result starts and ends with a non-blank |
| `Text.IndexOf` | src/components/BlogForm.jsx:170 | `indexOf`: a returned index is an occurrence and no earlier index is one; `None` means no occurrence anywhere |
| `Text.Contains` | src/components/BlogForm.jsx:170 | `includes` holds iff the pattern occurs at some index |
| `Text.ReplaceFirst` | src/components/BlogForm.jsx:144 | `replace` with a string pattern: unchanged when the pattern is absent; otherwise the text before the first occurrence and after it is kept and only that occurrence becomes the replacement |
| `Text.ReplaceFirstAtStart` | src/components/BlogForm.jsx:144 | a pattern at the very start is replaced there and the rest is kept |
| `Text.OccurrenceOfExtension` | src/components/BlogForm.jsx:124 | text that contains a string also contains every prefix of it, so text without `data:image` contains no `data:image` URI |
| `Text.FirstClose` | src/components/BlogForm.jsx:83 | the index of the first `>` (none before it), or `None` when there is no `>` |
| `Text.StripTags` | src/components/BlogForm.jsx:83 | `replace(/<[^>]*>/g, '')`: never lengthens the text, and text without `<` is unchanged; its other properties are the `StripTags…` lemmas below |
| `Text.StripTagsIsSubsequence` | src/components/BlogForm.jsx:83 | tag stripping only deletes characters; the kept ones stay in their order |
| `Text.StripTagsKeepsOnlyInputChars` | src/components/BlogForm.jsx:83 | every character of the stripped text occurs in the input |
| `Text.StripTagsIsTagFree` | src/components/BlogForm.jsx:83 | in the stripped text no `>` follows any `<` |
| `Text.StripTagsOfTagFree` | src/components/BlogForm.jsx:83 | text with no `>` after a `<` is left unchanged |
| `Text.StripTagsIdempotent` | src/components/BlogForm.jsx:83 | stripping twice equals stripping once |
| `Text.StripTagsRemovesTag` | src/components/BlogForm.jsx:83 | a `<…>` span after `<`-free text is removed whole, with the text before it kept and the text after it stripped |
| `Text.ToUpperAscii` | src/components/BlogList.jsx:233 | lower-case ASCII letters map to their upper-case letter; every other character is kept |
| `Text.Capitalize` | src/components/BlogList.jsx:233 | the status badge label: same length; the first character is upper-cased and the rest is unchanged |
| `BlogApi.FormDataBody.constructor` | src/api/blogApi.js:55 | a new FormData has no entries |
| `BlogApi.FormDataBody.Append` | src/api/blogApi.js:60 | `append` adds exactly one entry, at the end |
| `BlogApi.Lookup` | src/api/blogApi.js:65 | a found property value belongs to a field with that key; `None` means no field has the key |
| `BlogApi.LookupOfUniqueKey` | src/api/blogApi.js:65 | in an object whose keys are unique, reading a property gives the value stored under it |
| `BlogApi.TextFields` | src/api/blogApi.js:58-62 | the appended entries are exactly the blogData fields whose key is not `featured_image` |
| `BlogApi.TextFieldsSnoc` | src/api/blogApi.js:58-62 | one more property adds its entry at the end, unless it is `featured_image` |
| `BlogApi.TextFieldsConcat` | src/api/blogApi.js:58-62 | those entries keep key order: the filter distributes over concatenation |
| `BlogApi.FeaturedImagePart` | src/api/blogApi.js:64-67 | at most one entry; present iff the `featured_image` property holds a File; it is then that property's File under the key `featured_image` |
| `BlogApi.MultipartBody` | src/api/blogApi.js:58-67 | every entry of the body is a property of blogData; the body is the text entries plus at most one more (the image) |
| `BlogApi.MultipartBodyKeepsTextFields` | src/api/blogApi.js:58-67 | every non-image property is in the body, the body holds no other non-image entry, and the text entries come first |
| `BlogApi.FeaturedImageSentIffFile` | src/api/blogApi.js:64-67 | a `featured_image` entry is in the body iff the property holds a File; it is then the last entry and the only one; a URL string is never sent |
| `BlogApi.BuildBlogFormData` | src/api/blogApi.js:55-67 | the loop over the keys plus the conditional image append yield exactly the multipart body |
| `BlogApi.CreateBlog` | src/api/blogApi.js:54-74 | POST `/blogs`, multipart, with that body |
| `BlogApi.UpdateBlog` | src/api/blogApi.js:77-97 | PUT `/blogs/{id}`, multipart, with the same body createBlog would send |
| `BlogApi.UploadImage` | src/api/blogApi.js:104-113 | POST `/blogs/upload-image` with exactly one entry, named `image`, holding the file |
| `BlogApi.TokenStorage.constructor` | src/api/blogApi.js:15 | the storage holds the given token |
| `BlogApi.RequestConfig.constructor` | src/api/blogApi.js:14 | the config holds the given headers |
| `BlogApi.HasToken` | src/api/blogApi.js:16 | `if (token)` and `!!localStorage.getItem('token')` (src/components/BlogView.jsx:23): a stored, non-empty token; used by `WithAuthorization`, `CanEditBlog` and `HandleEditClick` |
| `BlogApi.WithAuthorization` | src/api/blogApi.js:15-19 | with a non-empty token, `Authorization` is `"Bearer " + token`; otherwise the headers are unchanged; no other header changes |
| `BlogApi.RequestInterceptor` | src/api/blogApi.js:14-20 | the config's new headers are the old ones with the authorization rule applied |
| `BlogApi.ResponseErrorInterceptor` | src/api/blogApi.js:29-36 | a 401 removes the stored token and redirects to login; any other error, or no response, leaves the token alone |
| `BlogForm.FormValid` | src/components/BlogForm.jsx:74-79 | the form may be saved iff the title is not blank, the content is not blank and the content is not `<p></p>` |
| `BlogForm.CollectErrors` | src/components/BlogForm.jsx:72-80 | the new dictionary has a title error iff the title is blank; a content error iff the content is blank or exactly `<p></p>`; the messages; the result is true iff no error was recorded, iff the form is valid |
| `BlogForm.GenerateExcerpt` | src/components/BlogForm.jsx:82-87 | stripped text of length ≤ 150 is returned as is; longer text gives its first 150 characters plus `...`, 153 in all |
| `BlogForm.ExcerptIsTagFree` | src/components/BlogForm.jsx:82-87 | an excerpt holds no complete tag |
| `BlogForm.ExcerptIdempotent` | src/components/BlogForm.jsx:82-87 | the excerpt of an excerpt is the excerpt itself |
| `BlogForm.AcceptsFeaturedImage` | src/components/BlogForm.jsx:100 | a file is accepted iff its size is at most 10 MiB: exactly 10 MiB passes and one byte more fails |
| `BlogForm.ApplyUpload` | src/components/BlogForm.jsx:142-148 | a failed upload, or a data URI that no longer occurs, leaves the content as it is; otherwise the first occurrence of the data URI becomes the URL |
| `BlogForm.Rewrite` | src/components/BlogForm.jsx:128-149 | the in-order rewrite by all uploads; when every upload fails the content is returned unchanged |
| `BlogForm.ExtractAndConvertBase64Images` | src/components/BlogForm.jsx:121-152 | the loop over the images, uploading each in turn, returns the rewrite of the content by the upload outcomes in document order |
| `BlogForm.RewriteConcat` | src/components/BlogForm.jsx:128-149 | the images are processed strictly in order: the later images act on the content left by the earlier ones |
| `BlogForm.RewriteStepReplacesFirstRemaining` | src/components/BlogForm.jsx:142-145 | a successful upload changes only the first remaining occurrence of its data URI into the URL and keeps all other text; when the URI no longer occurs, nothing changes |
| `BlogForm.RewriteSkipsFailure` | src/components/BlogForm.jsx:142-148 | a failed or throwing upload is skipped and the loop goes on, as if that image were absent |
| `BlogForm.RewriteHitsEarlierText` | src/components/BlogForm.jsx:144 | a payload that also occurs as text before its image: one successful upload rewrites the text and leaves the image's `src` as the data URI |
| `BlogForm.AssembleSplit` | src/components/BlogForm.jsx:128-149 | a document of markup chunks and image slots splits at any slot into the part before, the slot and the part after |
| `BlogForm.SlotsAfterStep` | src/components/BlogForm.jsx:142-148 | processing image `j` changes only slot `j`: to the URL on success, not at all on failure |
| `BlogForm.FillSlot` | src/components/BlogForm.jsx:144 | when a slot's text first occurs at that slot, `replace` puts the URL in that slot and changes nothing else |
| `BlogForm.RewriteStepFillsSlot` | src/components/BlogForm.jsx:128-149 | one more loop iteration: if the first `j` images hold their outcome, so do the first `j + 1` |
| `BlogForm.RewritePrefixFillsSlots` | src/components/BlogForm.jsx:128-149 | after the first `k` images, each of them holds its outcome in its own slot and all other text is unchanged, given each successful data URI was first found at its own slot |
| `BlogForm.RewriteWholeDocument` | src/components/BlogForm.jsx:121-152 | over `c0 + d1 + c1 + … + dn + cn`, under that condition, the result is `c0 + x1 + c1 + … + xn + cn` with `xk` the URL when upload k succeeded and `dk` when it failed |
| `BlogForm.RewriteWithoutDataImage` | src/components/BlogForm.jsx:124 | content without the text `data:image` is unchanged by any list of `data:image` sources |
| `BlogForm.ProcessContent` | src/components/BlogForm.jsx:167-174 | content without `data:image` is sent byte for byte |
| `BlogForm.ProcessContentIsRewrite` | src/components/BlogForm.jsx:167-174 | the `includes('data:image')` gate never changes the result: processing equals the unconditional rewrite |
| `BlogForm.MetaTitle` | src/components/BlogForm.jsx:182 | an empty `meta_title` falls back to the title |
| `BlogForm.MetaDescription` | src/components/BlogForm.jsx:183 | an empty `meta_description` falls back to the excerpt of the processed content |
| `BlogForm.FeaturedImageValue` | src/components/BlogForm.jsx:186-192 | `featured_image` is present iff it is a File or a non-empty URL string, and holds that File or URL |
| `BlogForm.BlogData` | src/components/BlogForm.jsx:177-192 | the properties in the literal's order `title, content, status, video_url, meta_title, meta_description[, featured_image]`; 7 of them iff there is a featured image to put, else 6 |
| `BlogForm.BlogDataUniqueKeys` | src/components/BlogForm.jsx:177-192 | blogData is a well-formed object: no property name occurs twice |
| `BlogForm.BlogDataProperties` | src/components/BlogForm.jsx:177-184 | reading blogData gives the title, the processed content, the status, the video URL and both meta fallbacks |
| `BlogForm.BlogDataFeaturedImage` | src/components/BlogForm.jsx:186-192 | blogData's `featured_image` property is the form's choice: the File, a non-empty URL, or absent |
| `BlogForm.SubmittedFeaturedImage` | src/api/blogApi.js:87-90 | what is sent: a newly chosen File as the last entry; an existing image URL or no image, no `featured_image` entry at all |
| `BlogForm.BlogFormComponent.constructor` | src/components/BlogForm.jsx:21-32 | the initial form: empty title, the placeholder paragraph, status `draft`, no image, no errors |
| `BlogForm.BlogFormComponent.IsEditMode` | src/components/BlogForm.jsx:18 | `!!id`: edit mode iff the route carries a non-empty id; it picks PUT over POST in `HandleSubmit` |
| `BlogForm.BlogFormComponent.ValidateForm` | src/components/BlogForm.jsx:72-80 | the errors are replaced: `Title is required` iff the title is blank, `Content is required` iff the content is blank or `<p></p>`, no other key; the result is true iff there are none, iff the form is valid |
| `BlogForm.BlogFormComponent.HandleImageChange` | src/components/BlogForm.jsx:97-111 | an accepted file becomes the featured image and nothing else changes; no file or a file over 10 MiB leaves the form data unchanged |
| `BlogForm.BlogFormComponent.HandleSubmit` | src/components/BlogForm.jsx:155-201 | validation runs first and leaves exactly the errors `ValidateForm` states; nothing is sent iff validation fails; otherwise the request is multipart, its body is the multipart body of blogData built from the processed content, sent as PUT `/blogs/{id}` in edit mode and as POST `/blogs` otherwise |
| `BlogList.ChangePage` | src/components/BlogList.jsx:102-106 | `page` becomes `newPage` iff `1 ≤ newPage ≤ pages`, otherwise the pagination is unchanged; `limit`, `total` and `pages` never change |
| `BlogList.ChangePageKeepsPageInRange` | src/components/BlogList.jsx:102-106 | from a page in range, every page change stays in range |
| `BlogList.QueryParams` | src/components/BlogList.jsx:38-45 | `page` and `limit` come first and `sortBy=created_at`, `sortOrder=DESC` last; `status` is present iff the filter is not `all`; `search` is present iff the term is non-empty |
| `BlogList.ResponsePagination` | src/components/BlogList.jsx:51-56 | the server's pagination when given; otherwise page 1, limit 12, total = number of posts returned, 1 page |
| `BlogList.RemoveById` | src/components/BlogList.jsx:77 | exactly the posts with a different id remain |
| `BlogList.RemoveByIdConcat` | src/components/BlogList.jsx:77 | the remaining posts keep their order: removal distributes over concatenation |
| `BlogList.RemoveByIdAbsent` | src/components/BlogList.jsx:77 | a list without that id is unchanged |
| `BlogList.StatusBadgeColor` | src/components/BlogList.jsx:108-119 | published and draft get their own classes; archived and every other status get the gray class |
| `BlogList.BadgesDistinct` | src/components/BlogList.jsx:108-119 | the three known statuses get three different classes |
| `BlogList.CountStatus` | src/components/BlogList.jsx:334 | a status counter never exceeds the number of posts; it is 0 iff no post has the status, and equals the number of posts iff all have it |
| `BlogList.CountStatusOne` | src/components/BlogList.jsx:334 | a single post counts 1 when its status is the one counted and 0 otherwise |
| `BlogList.CountStatusConcat` | src/components/BlogList.jsx:334 | the counter adds up over any split of the list, so with `CountStatusOne` it is the number of posts whose status is `status` |
| `BlogList.StatusCountsBounded` | src/components/BlogList.jsx:333-347 | published + draft + archived counts are at most the number of posts, and equal to it iff every post has one of those statuses |
| `BlogList.BlogListComponent.constructor` | src/components/BlogList.jsx:20-29 | no posts, empty search, filter `all`, pagination `{1, 12, 0, 1}` |
| `BlogList.BlogListComponent.HandlePageChange` | src/components/BlogList.jsx:102-106 | the new pagination is the page-change rule applied to the old one |
| `BlogList.BlogListComponent.ApplyFetchResult` | src/components/BlogList.jsx:49-64 | success replaces the posts and the pagination, falling back when none is given; failure empties the list and keeps the pagination |
| `BlogList.BlogListComponent.HandleDelete` | src/components/BlogList.jsx:69-80 | a confirmed, successful delete removes the posts with that id; otherwise the list is unchanged |
| `BlogView.CanEditBlog` | src/components/BlogView.jsx:87-92 | false without a token; true for admin and editor; for an author, true iff `created_by === user.id`; false for any other or missing role |
| `BlogView.MissingIdsMatch` | src/components/BlogView.jsx:90 | an author whose stored user has no id may edit a post without `created_by`, because both are `undefined` |
| `BlogView.HandleEditClick` | src/components/BlogView.jsx:94-103 | exactly one outcome: login redirect iff no token; permission error iff a token but no right to edit; navigation to `/edit/{id}` iff allowed |
| `BlogView.FormatDate` | src/components/BlogView.jsx:49-58 | `N/A` for a missing or empty date; any other date goes to the locale formatter |

## Left out

- The rich-text editor (src/components/TipTapEditor.jsx) is a thin wrapper over the TipTap library. Its behaviour lives in that library, and its link and image prompts are `window.prompt` I/O. It is not part of this model.
- `DOMParser`: the `data:image` sources it finds are an input list, in document order. How `img.src` relates to the raw markup, such as entity decoding, is not modelled. When a source string does not occur in the markup, the model's `indexOf` finds nothing and the content is kept.
- Decoding a data URI with `fetch`, and building the `Blob`/`File` with a `Date.now()` file name, are not modelled. Only the upload outcome is an input.
- `Text.ReplaceFirst`: the special `$` patterns of `String.prototype.replace` are not modelled. Uploaded URLs are taken to contain no `$`.
- Network calls are left out: axios, response unwrapping (`response.data`), and the rejection value `error.response?.data || error.message`. So are toasts, `navigate` and `window.location`. Responses are inputs. `localStorage` is a parameter or a `TokenStorage` object.
- `getAllBlogs`, `getBlogById`, `getBlogBySlug`, `deleteBlog` and `checkHealth` are single axios calls with no logic of their own.
- `BlogList.BlogListComponent.HandleDelete`: the `fetchBlogs()` re-fetch after a successful delete (src/components/BlogList.jsx:80) is a network call whose result is not modelled here. Its effect on the state is `ApplyFetchResult` with the new response.
- `BlogForm.BlogFormComponent.HandleSubmit`: handling the server's answer (navigation, error toasts) is not modelled. Neither is the loading flag.
- Loading an existing post into the form (`fetchBlog` with its `||` defaults) is not modelled. Neither are the image preview (`FileReader`) or clearing a field's error on input (`handleInputChange`, `handleContentChange`).
- `BlogForm.GenerateExcerpt`: it counts characters (code points), while JavaScript's `length` and `substring` count UTF-16 code units. Both the 150 threshold and the cut differ for text outside the Basic Multilingual Plane: 100 emoji have length 200 in JavaScript and are cut by the source, but the model returns them whole. A cut through a surrogate pair is not modelled either.
- `Text.ToUpperAscii`: it upper-cases ASCII letters only. Case mapping outside ASCII is not modelled, including mappings that change length.
- The list page's `formatDate` and `handleSearch`, and the post page's share, bookmark and status badge, are presentation. They are not modelled.
- Login, registration, the auth API, the navigation bar, routing and the loading spinner are form glue and presentation. They are not modelled.
