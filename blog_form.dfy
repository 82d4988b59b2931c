/**
 * The create/edit form of a blog post: validation, the plain-text excerpt, the 10 MiB
 * featured-image gate, the pre-save rewrite that swaps inline `data:image` payloads for
 * uploaded URLs, and the blogData object handed to the API client.
 */
module BlogForm {
  import opened Wrappers
  import opened Text
  import BlogApi

  const MaxFeaturedImageBytes := 10 * 1024 * 1024
  const DefaultContent := "<p>Start writing your blog post here...</p>"
  const EmptyEditorContent := "<p></p>"
  const DataImagePrefix := "data:image"
  const TitleRequired := "Title is required"
  const ContentRequired := "Content is required"
  const DefaultExcerptLength := 150
  const Ellipsis := "..."

  /** The featured_image form field: nothing, a newly chosen File, or the URL string of
      the image the post already has. */
  datatype FeaturedImage = NoImage | ImageFile(file: BlogApi.File) | ImageUrl(url: string)

  /** The form's formData state. */
  datatype FormFields = FormFields(
    title: string,
    content: string,
    status: string,
    featuredImage: FeaturedImage,
    videoUrl: string,
    metaTitle: string,
    metaDescription: string)

  const InitialFields := FormFields("", DefaultContent, "draft", NoImage, "", "", "")

  // ---------------------------------------------------------------------------
  // validateForm
  // ---------------------------------------------------------------------------

  /** The form may be saved: a non-blank title and a non-blank content that is not the
      editor's empty paragraph. */
  function FormValid(title: string, content: string): (ok: bool)
    ensures ok <==> !IsBlank(title) && !IsBlank(content) && content != EmptyEditorContent
  {
    Trim(title) != [] && Trim(content) != [] && content != EmptyEditorContent
  }

  /** `errors` is the dictionary validateForm builds for this title and content: a title
      message exactly when the title is blank, a content message exactly when the content
      is blank or the editor's empty paragraph, and nothing else. */
  predicate ErrorsFor(errors: map<string, string>, title: string, content: string) {
    && ("title" in errors <==> IsBlank(title))
    && ("content" in errors <==> IsBlank(content) || content == EmptyEditorContent)
    && errors.Keys <= {"title", "content"}
    && ("title" in errors ==> errors["title"] == TitleRequired)
    && ("content" in errors ==> errors["content"] == ContentRequired)
  }

  /** Fills the `newErrors` dictionary field by field and reports whether it stayed empty. */
  method CollectErrors(title: string, content: string) returns (newErrors: map<string, string>, ok: bool)
    ensures ErrorsFor(newErrors, title, content)
    ensures ok <==> newErrors == map[]
    ensures ok <==> FormValid(title, content)
  {
    var titleMissing := Trim(title) == [];
    var contentMissing := Trim(content) == [] || content == EmptyEditorContent;
    newErrors := map[];
    if titleMissing {
      newErrors := newErrors["title" := TitleRequired];
    }
    if contentMissing {
      newErrors := newErrors["content" := ContentRequired];
    }
    ok := !titleMissing && !contentMissing;
  }

  // ---------------------------------------------------------------------------
  // generateExcerpt
  // ---------------------------------------------------------------------------

  /** The text without tags; when longer than `length`, its first `length` characters
      followed by "...". */
  function GenerateExcerpt(content: string, length: nat := DefaultExcerptLength): (r: string)
    ensures |StripTags(content)| <= length ==> r == StripTags(content)
    ensures |StripTags(content)| > length ==>
      |r| == length + |Ellipsis| && r[..length] == StripTags(content)[..length] && r[length..] == Ellipsis
  {
    var plainText := StripTags(content);
    if |plainText| > length then plainText[..length] + Ellipsis else plainText
  }

  /** An excerpt holds no complete tag. */
  lemma ExcerptIsTagFree(content: string, length: nat)
    ensures TagFree(GenerateExcerpt(content, length))
  {
    var p := StripTags(content);
    StripTagsIsTagFree(content);
    var e := GenerateExcerpt(content, length);
    if |p| > length {
      forall i, j | 0 <= i < j < |e| && e[i] == '<' ensures e[j] != '>' {
        assert i < length;
        if j < length {
          assert e[i] == p[i] && e[j] == p[j];
        }
      }
    }
  }

  /** An excerpt is its own excerpt: generating it again changes nothing. */
  lemma ExcerptIdempotent(content: string, length: nat)
    ensures GenerateExcerpt(GenerateExcerpt(content, length), length) == GenerateExcerpt(content, length)
  {
    var e := GenerateExcerpt(content, length);
    ExcerptIsTagFree(content, length);
    StripTagsOfTagFree(e);
  }

  // ---------------------------------------------------------------------------
  // handleImageChange
  // ---------------------------------------------------------------------------

  /** The featured-image size gate: a file is refused only when it is larger than 10 MiB. */
  function AcceptsFeaturedImage(size: nat): (ok: bool)
    ensures ok <==> size <= 10 * 1024 * 1024
    ensures size == 10 * 1024 * 1024 ==> ok
    ensures size == 10 * 1024 * 1024 + 1 ==> !ok
  {
    !(size > MaxFeaturedImageBytes)
  }

  // ---------------------------------------------------------------------------
  // extractAndConvertBase64Images
  // ---------------------------------------------------------------------------

  /** One iteration: a successful upload (Some url) replaces the first remaining
      occurrence of the data URI; a failed or throwing upload (None) changes nothing. */
  function ApplyUpload(content: string, dataUri: string, upload: Option<string>): (r: string)
    ensures upload.None? || IndexOf(content, dataUri).None? ==> r == content
    ensures upload.Some? && IndexOf(content, dataUri).Some? ==>
      var i := IndexOf(content, dataUri).value;
      r == content[..i] + upload.value + content[i + |dataUri|..]
  {
    match upload
    case Some(url) => ReplaceFirst(content, dataUri, url)
    case None => content
  }

  /** The content after processing `images` (the `data:image` sources in document order)
      with upload outcomes `uploads`, one per image, in that order. When every upload
      fails the content is returned unchanged. */
  function Rewrite(html: string, images: seq<string>, uploads: seq<Option<string>>): (r: string)
    requires |uploads| == |images|
    ensures (forall k :: 0 <= k < |uploads| ==> uploads[k].None?) ==> r == html
    decreases |images|
  {
    if images == [] then html
    else
      var n := |images| - 1;
      ApplyUpload(Rewrite(html, images[..n], uploads[..n]), images[n], uploads[n])
  }

  /** The rewrite loop: `updatedContent` starts as the input and each image in turn is
      uploaded; `uploads[k]` is the URL returned for `images[k]`, or None when the data
      URI could not be fetched, the upload threw, or the server reported failure. */
  method ExtractAndConvertBase64Images(htmlContent: string, images: seq<string>, uploads: seq<Option<string>>)
    returns (updatedContent: string)
    requires |uploads| == |images|
    ensures updatedContent == Rewrite(htmlContent, images, uploads)
  {
    updatedContent := htmlContent;
    var k := 0;
    while k < |images|
      invariant 0 <= k <= |images|
      invariant updatedContent == Rewrite(htmlContent, images[..k], uploads[..k])
    {
      assert images[..k + 1][..k] == images[..k] && uploads[..k + 1][..k] == uploads[..k];
      var base64Data := images[k];
      match uploads[k] {
        case Some(url) =>
          updatedContent := ReplaceFirst(updatedContent, base64Data, url);
        case None =>
      }
      k := k + 1;
    }
    assert images[..k] == images && uploads[..k] == uploads;
  }

  /** Processing is sequential: the images after a prefix are applied to the content the
      prefix produced. */
  lemma {:induction false} RewriteConcat(html: string, a: seq<string>, ua: seq<Option<string>>,
                                          b: seq<string>, ub: seq<Option<string>>)
    requires |ua| == |a| && |ub| == |b|
    ensures Rewrite(html, a + b, ua + ub) == Rewrite(Rewrite(html, a, ua), b, ub)
    decreases |b|
  {
    if b == [] {
      assert a + b == a && ua + ub == ua;
    } else {
      var n := |b| - 1;
      assert (a + b)[..|a| + n] == a + b[..n];
      assert (ua + ub)[..|a| + n] == ua + ub[..n];
      RewriteConcat(html, a, ua, b[..n], ub[..n]);
    }
  }

  /** The image processed last after `a` changes only the first remaining occurrence of
      its data URI into the URL; the text before and after it is kept. */
  lemma RewriteStepReplacesFirstRemaining(html: string, a: seq<string>, ua: seq<Option<string>>,
                                          dataUri: string, url: string)
    requires |ua| == |a|
    ensures var before := Rewrite(html, a, ua);
            var after := Rewrite(html, a + [dataUri], ua + [Some(url)]);
            && (IndexOf(before, dataUri).None? ==> after == before)
            && (IndexOf(before, dataUri).Some? ==>
                  var i := IndexOf(before, dataUri).value;
                  after == before[..i] + url + before[i + |dataUri|..])
  {
    assert (a + [dataUri])[..|a|] == a && (ua + [Some(url)])[..|a|] == ua;
  }

  /** A failed upload is skipped: the loop goes on with the next image as if the failed
      one were not there. */
  lemma RewriteSkipsFailure(html: string, a: seq<string>, ua: seq<Option<string>>, dataUri: string,
                            b: seq<string>, ub: seq<Option<string>>)
    requires |ua| == |a| && |ub| == |b|
    ensures Rewrite(html, a + [dataUri] + b, ua + [None] + ub) == Rewrite(html, a + b, ua + ub)
  {
    RewriteConcat(html, a + [dataUri], ua + [None], b, ub);
    assert (a + [dataUri])[..|a|] == a && (ua + [None])[..|a|] == ua;
    RewriteConcat(html, a, ua, b, ub);
  }

  /** The rewrite finds the first occurrence of a data URI anywhere in the markup, not
      necessarily inside its own image: when the same payload also occurs earlier as
      text, that text becomes the URL and the image keeps its data URI. */
  lemma RewriteHitsEarlierText(dataUri: string, url: string)
    ensures var img := "<img src=\"" + dataUri + "\">";
      Rewrite(dataUri + img, [dataUri], [Some(url)]) == url + img
  {
    var img := "<img src=\"" + dataUri + "\">";
    ReplaceFirstAtStart(dataUri, img, url);
    assert [dataUri][..0] == [] && [Some(url)][..0] == [];
  }

  /** What each image's slot holds once it was processed: the URL when its upload
      succeeded, its data URI otherwise. */
  function Outcome(dataUri: string, upload: Option<string>): string {
    match upload
    case Some(url) => url
    case None => dataUri
  }

  /** The document `chunks[0] + slots[0] + chunks[1] + ... + slots[n-1] + chunks[n]`: the
      markup between the images interleaved with what each image's slot holds. */
  function Assemble(chunks: seq<string>, slots: seq<string>): string
    requires |chunks| == |slots| + 1
    decreases |slots|
  {
    if slots == [] then chunks[0]
    else
      var n := |slots|;
      Assemble(chunks[..n], slots[..n - 1]) + slots[n - 1] + chunks[n]
  }

  /** The slots once the first `k` images were processed: those hold their outcome, the
      others still their data URI. */
  function SlotsAfter(images: seq<string>, uploads: seq<Option<string>>, k: nat): seq<string>
    requires |uploads| == |images|
  {
    seq(|images|, i requires 0 <= i < |images| => if i < k then Outcome(images[i], uploads[i]) else images[i])
  }

  /** A document splits at any slot into the part before it, the slot and the part after. */
  lemma {:induction false} AssembleSplit(chunks: seq<string>, slots: seq<string>, k: nat)
    requires |chunks| == |slots| + 1 && k < |slots|
    ensures Assemble(chunks, slots)
         == Assemble(chunks[..k + 1], slots[..k]) + slots[k] + Assemble(chunks[k + 1..], slots[k + 1..])
    decreases |slots|
  {
    var n := |slots|;
    if k == n - 1 {
      assert chunks[k + 1..] == [chunks[n]] && slots[k + 1..] == [];
      assert chunks[..k + 1] == chunks[..n] && slots[..k] == slots[..n - 1];
    } else {
      var head, tail := chunks[..n], slots[..n - 1];
      AssembleSplit(head, tail, k);
      assert head[..k + 1] == chunks[..k + 1] && tail[..k] == slots[..k] && tail[k] == slots[k];
      var tc, ts := chunks[k + 1..], slots[k + 1..];
      var m := |ts|;
      assert tc[..m] == head[k + 1..] && ts[..m - 1] == tail[k + 1..];
      assert ts[m - 1] == slots[n - 1] && tc[m] == chunks[n];
      var before, after := Assemble(chunks[..k + 1], slots[..k]), Assemble(head[k + 1..], tail[k + 1..]);
      assert Assemble(chunks, slots) == (before + slots[k] + after) + slots[n - 1] + chunks[n];
      assert Assemble(tc, ts) == after + slots[n - 1] + chunks[n];
      Regroup(before, slots[k], after, slots[n - 1], chunks[n]);
    }
  }

  /** At its turn, the data URI of image `j` is first found at its own slot. */
  predicate FoundAtOwnSlot(chunks: seq<string>, images: seq<string>, uploads: seq<Option<string>>, j: nat)
    requires |uploads| == |images| && |chunks| == |images| + 1 && j < |images|
  {
    var slots := SlotsAfter(images, uploads, j);
    IndexOf(Assemble(chunks, slots), images[j]) == Some(|Assemble(chunks[..j + 1], slots[..j])|)
  }

  /** One more image: if the first `j` images hold their outcome, so do the first `j + 1`. */
  lemma RewriteStepFillsSlot(chunks: seq<string>, images: seq<string>, uploads: seq<Option<string>>, j: nat)
    requires |uploads| == |images| && |chunks| == |images| + 1 && j < |images|
    requires uploads[j].Some? ==> FoundAtOwnSlot(chunks, images, uploads, j)
    requires Rewrite(Assemble(chunks, images), images[..j], uploads[..j]) == Assemble(chunks, SlotsAfter(images, uploads, j))
    ensures Rewrite(Assemble(chunks, images), images[..j + 1], uploads[..j + 1]) == Assemble(chunks, SlotsAfter(images, uploads, j + 1))
  {
    var k := j + 1;
    assert images[..k][..j] == images[..j] && uploads[..k][..j] == uploads[..j];
    assert images[..k][j] == images[j] && uploads[..k][j] == uploads[j];
    SlotsAfterStep(images, uploads, j);
    if uploads[j].Some? {
      FillSlot(chunks, SlotsAfter(images, uploads, j), j, uploads[j].value);
    }
  }

  lemma Regroup(a: string, b: string, c: string, x: string, y: string)
    ensures (a + b + c) + x + y == a + b + (c + x + y)
  {
  }

  /** The rewrite of a whole document, one image after another: the first `k` images have
      their outcome in their own slot, provided each successful upload so far found its
      data URI first at its own slot. */
  lemma {:induction false} RewritePrefixFillsSlots(chunks: seq<string>, images: seq<string>,
                                                   uploads: seq<Option<string>>, k: nat)
    requires |uploads| == |images| && |chunks| == |images| + 1 && k <= |images|
    requires forall j :: 0 <= j < k && uploads[j].Some? ==> FoundAtOwnSlot(chunks, images, uploads, j)
    ensures Rewrite(Assemble(chunks, images), images[..k], uploads[..k]) == Assemble(chunks, SlotsAfter(images, uploads, k))
    decreases k
  {
    if k == 0 {
      assert SlotsAfter(images, uploads, 0) == images;
    } else {
      RewritePrefixFillsSlots(chunks, images, uploads, k - 1);
      RewriteStepFillsSlot(chunks, images, uploads, k - 1);
    }
  }

  /** Processing image `j` changes only slot `j`: to the URL on success, not at all on failure. */
  lemma SlotsAfterStep(images: seq<string>, uploads: seq<Option<string>>, j: nat)
    requires |uploads| == |images| && j < |images|
    ensures SlotsAfter(images, uploads, j)[j] == images[j]
    ensures uploads[j].None? ==> SlotsAfter(images, uploads, j + 1) == SlotsAfter(images, uploads, j)
    ensures uploads[j].Some? ==>
      SlotsAfter(images, uploads, j + 1) == SlotsAfter(images, uploads, j)[j := uploads[j].value]
  {
  }

  /** Replacing the first occurrence of a slot's text, when that first occurrence is the
      slot itself, puts the replacement into that slot and changes nothing else. */
  lemma FillSlot(chunks: seq<string>, slots: seq<string>, j: nat, x: string)
    requires |chunks| == |slots| + 1 && j < |slots|
    requires IndexOf(Assemble(chunks, slots), slots[j]) == Some(|Assemble(chunks[..j + 1], slots[..j])|)
    ensures ReplaceFirst(Assemble(chunks, slots), slots[j], x) == Assemble(chunks, slots[j := x])
  {
    var filled := slots[j := x];
    AssembleSplit(chunks, slots, j);
    AssembleSplit(chunks, filled, j);
    assert filled[..j] == slots[..j] && filled[j + 1..] == slots[j + 1..];
    var pre, post := Assemble(chunks[..j + 1], slots[..j]), Assemble(chunks[j + 1..], slots[j + 1..]);
    var doc := Assemble(chunks, slots);
    assert doc == pre + slots[j] + post;
    assert doc[..|pre|] == pre && doc[|pre| + |slots[j]|..] == post;
  }

  /** The rewrite across a whole document `chunks[0] + images[0] + chunks[1] + ... +
      chunks[n]`: when, at its turn, every successfully uploaded data URI first occurs at
      its own image's slot, each such image ends up holding its URL, each image whose
      upload failed keeps its data URI, and the markup between them is unchanged. */
  lemma RewriteWholeDocument(chunks: seq<string>, images: seq<string>, uploads: seq<Option<string>>)
    requires |uploads| == |images| && |chunks| == |images| + 1
    requires forall j :: 0 <= j < |images| && uploads[j].Some? ==> FoundAtOwnSlot(chunks, images, uploads, j)
    ensures var slots := SlotsAfter(images, uploads, |images|);
      && Rewrite(Assemble(chunks, images), images, uploads) == Assemble(chunks, slots)
      && (forall j :: 0 <= j < |images| && uploads[j].Some? ==> slots[j] == uploads[j].value)
      && (forall j :: 0 <= j < |images| && uploads[j].None? ==> slots[j] == images[j])
  {
    RewritePrefixFillsSlots(chunks, images, uploads, |images|);
    assert images[..|images|] == images && uploads[..|uploads|] == uploads;
  }

  /** Content with no "data:image" text is not touched by any `data:image` source. */
  lemma {:induction false} RewriteWithoutDataImage(html: string, images: seq<string>, uploads: seq<Option<string>>)
    requires |uploads| == |images|
    requires forall k :: 0 <= k < |images| ==> |DataImagePrefix| <= |images[k]| && images[k][..|DataImagePrefix|] == DataImagePrefix
    requires !Contains(html, DataImagePrefix)
    ensures Rewrite(html, images, uploads) == html
    decreases |images|
  {
    if images != [] {
      var n := |images| - 1;
      RewriteWithoutDataImage(html, images[..n], uploads[..n]);
      OccurrenceOfExtension(html, DataImagePrefix, images[n]);
    }
  }

  /** The content sent to the server: rewritten only when it contains "data:image". */
  function ProcessContent(content: string, images: seq<string>, uploads: seq<Option<string>>): (r: string)
    requires |uploads| == |images|
    ensures !Contains(content, DataImagePrefix) ==> r == content
  {
    if Contains(content, DataImagePrefix) then Rewrite(content, images, uploads) else content
  }

  /** The "data:image" gate never changes the outcome: for sources that are `data:image`
      URIs, processing equals running the rewrite unconditionally. */
  lemma ProcessContentIsRewrite(content: string, images: seq<string>, uploads: seq<Option<string>>)
    requires |uploads| == |images|
    requires forall k :: 0 <= k < |images| ==> |DataImagePrefix| <= |images[k]| && images[k][..|DataImagePrefix|] == DataImagePrefix
    ensures ProcessContent(content, images, uploads) == Rewrite(content, images, uploads)
  {
    if !Contains(content, DataImagePrefix) {
      RewriteWithoutDataImage(content, images, uploads);
    }
  }

  // ---------------------------------------------------------------------------
  // handleSubmit: the blogData object
  // ---------------------------------------------------------------------------

  /** meta_title: the form's value, or the title when it is empty. */
  function MetaTitle(f: FormFields): (r: string)
    ensures f.metaTitle != "" ==> r == f.metaTitle
    ensures f.metaTitle == "" ==> r == f.title
  {
    if f.metaTitle != "" then f.metaTitle else f.title
  }

  /** meta_description: the form's value, or the excerpt of the processed content. */
  function MetaDescription(f: FormFields, processedContent: string): (r: string)
    ensures f.metaDescription != "" ==> r == f.metaDescription
    ensures f.metaDescription == "" ==> r == GenerateExcerpt(processedContent)
  {
    if f.metaDescription != "" then f.metaDescription else GenerateExcerpt(processedContent)
  }

  /** The featured_image property: a File, or a non-empty URL string; absent otherwise. */
  function FeaturedImageValue(img: FeaturedImage): (r: Option<BlogApi.Value>)
    ensures r.Some? <==> img.ImageFile? || (img.ImageUrl? && img.url != "")
    ensures img.ImageFile? ==> r == Some(BlogApi.Upload(img.file))
    ensures img.ImageUrl? && img.url != "" ==> r == Some(BlogApi.Text(img.url))
  {
    match img
    case ImageFile(file) => Some(BlogApi.Upload(file))
    case ImageUrl(url) => if url != "" then Some(BlogApi.Text(url)) else None
    case NoImage => None
  }

  /** The property names of blogData, in the order the object literal lists them. */
  const BlogDataKeys := ["title", "content", "status", "video_url", "meta_title", "meta_description", BlogApi.FeaturedImageKey]

  /** The blogData object, in property order: featured_image is the only optional one. */
  function BlogData(f: FormFields, processedContent: string): (d: seq<BlogApi.Field>)
    ensures |d| == if FeaturedImageValue(f.featuredImage).Some? then 7 else 6
    ensures forall i :: 0 <= i < |d| ==> d[i].key == BlogDataKeys[i]
  {
    [ BlogApi.Field("title", BlogApi.Text(f.title)),
      BlogApi.Field("content", BlogApi.Text(processedContent)),
      BlogApi.Field("status", BlogApi.Text(f.status)),
      BlogApi.Field("video_url", BlogApi.Text(f.videoUrl)),
      BlogApi.Field("meta_title", BlogApi.Text(MetaTitle(f))),
      BlogApi.Field("meta_description", BlogApi.Text(MetaDescription(f, processedContent))) ]
    + match FeaturedImageValue(f.featuredImage)
      case Some(v) => [BlogApi.Field(BlogApi.FeaturedImageKey, v)]
      case None => []
  }

  /** blogData is a well-formed object whose properties hold the processed content, the
      meta fallbacks and the featured image choice. */
  lemma BlogDataUniqueKeys(f: FormFields, processedContent: string)
    ensures BlogApi.UniqueKeys(BlogData(f, processedContent))
  {
    var d := BlogData(f, processedContent);
    assert forall i :: 0 <= i < |d| ==> |d[i].key| == [5, 7, 6, 9, 10, 16, 14][i];
  }

  lemma BlogDataProperties(f: FormFields, processedContent: string)
    ensures var d := BlogData(f, processedContent);
      && BlogApi.UniqueKeys(d)
      && BlogApi.Lookup(d, "title") == Some(BlogApi.Text(f.title))
      && BlogApi.Lookup(d, "content") == Some(BlogApi.Text(processedContent))
      && BlogApi.Lookup(d, "status") == Some(BlogApi.Text(f.status))
      && BlogApi.Lookup(d, "video_url") == Some(BlogApi.Text(f.videoUrl))
      && BlogApi.Lookup(d, "meta_title") == Some(BlogApi.Text(if f.metaTitle == "" then f.title else f.metaTitle))
      && BlogApi.Lookup(d, "meta_description") ==
           Some(BlogApi.Text(if f.metaDescription == "" then GenerateExcerpt(processedContent) else f.metaDescription))
  {
    var d := BlogData(f, processedContent);
    BlogDataUniqueKeys(f, processedContent);
    assert d[0] == BlogApi.Field("title", BlogApi.Text(f.title));
    assert d[1] == BlogApi.Field("content", BlogApi.Text(processedContent));
    assert d[2] == BlogApi.Field("status", BlogApi.Text(f.status));
    assert d[3] == BlogApi.Field("video_url", BlogApi.Text(f.videoUrl));
    assert d[4] == BlogApi.Field("meta_title", BlogApi.Text(MetaTitle(f)));
    assert d[5] == BlogApi.Field("meta_description", BlogApi.Text(MetaDescription(f, processedContent)));
    BlogApi.LookupOfUniqueKey(d, 0);
    BlogApi.LookupOfUniqueKey(d, 1);
    BlogApi.LookupOfUniqueKey(d, 2);
    BlogApi.LookupOfUniqueKey(d, 3);
    BlogApi.LookupOfUniqueKey(d, 4);
    BlogApi.LookupOfUniqueKey(d, 5);
  }

  /** blogData's featured_image property is the form's choice: a File, a non-empty URL, or
      absent. */
  lemma BlogDataFeaturedImage(f: FormFields, processedContent: string)
    ensures BlogApi.Lookup(BlogData(f, processedContent), BlogApi.FeaturedImageKey) == FeaturedImageValue(f.featuredImage)
  {
    var d := BlogData(f, processedContent);
    BlogDataUniqueKeys(f, processedContent);
    if |d| == 7 {
      BlogApi.LookupOfUniqueKey(d, 6);
    } else {
      assert forall i :: 0 <= i < |d| ==> d[i].key != BlogApi.FeaturedImageKey;
    }
  }

  /** What reaches the wire: every text property, and featured_image only when it is a
      newly chosen File. An existing image URL, which blogData carries, is dropped. */
  lemma SubmittedFeaturedImage(f: FormFields, processedContent: string)
    ensures var body := BlogApi.MultipartBody(BlogData(f, processedContent));
      && (f.featuredImage.ImageFile? ==> body[|body| - 1] == BlogApi.Field(BlogApi.FeaturedImageKey, BlogApi.Upload(f.featuredImage.file)))
      && (!f.featuredImage.ImageFile? ==> forall fld :: fld in body ==> fld.key != BlogApi.FeaturedImageKey)
  {
    var d := BlogData(f, processedContent);
    BlogDataFeaturedImage(f, processedContent);
    BlogApi.FeaturedImageSentIffFile(d);
  }

  // ---------------------------------------------------------------------------
  // The component
  // ---------------------------------------------------------------------------

  /** The form component's state: the route id (edit mode when present), the form data
      and the per-field error messages. */
  class BlogFormComponent {
    const editId: Option<string>
    var formData: FormFields
    var errors: map<string, string>

    constructor (editId: Option<string>)
      ensures this.editId == editId && formData == InitialFields && errors == map[]
    {
      this.editId := editId;
      formData := InitialFields;
      errors := map[];
    }

    /** `!!id`: the route carries a non-empty id. */
    function IsEditMode(): (edit: bool)
      ensures edit <==> editId.Some? && |editId.value| > 0
    {
      editId.Some? && editId.value != ""
    }

    /** validateForm: replaces the error messages and reports whether the form may be saved. */
    method ValidateForm() returns (ok: bool)
      modifies this`errors
      ensures ok <==> FormValid(formData.title, formData.content)
      ensures ok <==> errors == map[]
      ensures ErrorsFor(errors, formData.title, formData.content)
    {
      var newErrors;
      newErrors, ok := CollectErrors(formData.title, formData.content);
      errors := newErrors;
    }

    /** handleImageChange: no file, or a file over 10 MiB, leaves the form as it was;
        otherwise the file becomes the featured image. */
    method HandleImageChange(file: Option<BlogApi.File>)
      modifies this`formData
      ensures file.Some? && AcceptsFeaturedImage(file.value.size) ==>
                formData == old(formData).(featuredImage := ImageFile(file.value))
      ensures !(file.Some? && AcceptsFeaturedImage(file.value.size)) ==> formData == old(formData)
    {
      if file.Some? {
        if file.value.size > MaxFeaturedImageBytes {
          return;
        }
        formData := formData.(featuredImage := ImageFile(file.value));
      }
    }

    /** handleSubmit: nothing is sent when validation fails; otherwise the content is
        processed and the blogData object goes to updateBlog in edit mode and to
        createBlog otherwise. `images` are the `data:image` sources of the content and
        `uploads` their upload outcomes. */
    method HandleSubmit(images: seq<string>, uploads: seq<Option<string>>) returns (req: Option<BlogApi.Request>)
      requires |uploads| == |images|
      modifies this`errors
      ensures ErrorsFor(errors, formData.title, formData.content)
      ensures req.None? <==> !FormValid(formData.title, formData.content)
      ensures req.Some? ==> req.value.contentType == BlogApi.MultipartFormData
      ensures req.Some? ==>
        req.value.body == BlogApi.MultipartBody(BlogData(formData, ProcessContent(formData.content, images, uploads)))
      ensures req.Some? && IsEditMode() ==> req.value.verb == BlogApi.Put && req.value.path == "/blogs/" + editId.value
      ensures req.Some? && !IsEditMode() ==> req.value.verb == BlogApi.Post && req.value.path == "/blogs"
    {
      var ok := ValidateForm();
      if !ok {
        return None;
      }
      var processedContent := formData.content;
      if Contains(formData.content, DataImagePrefix) {
        processedContent := ExtractAndConvertBase64Images(formData.content, images, uploads);
      }
      var blogData := BlogData(formData, processedContent);
      var r;
      if IsEditMode() {
        r := BlogApi.UpdateBlog(editId.value, blogData);
      } else {
        r := BlogApi.CreateBlog(blogData);
      }
      req := Some(r);
    }
  }
}
