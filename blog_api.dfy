/**
 * The REST client of the blog admin: how the multipart bodies of "create blog",
 * "update blog" and "upload image" are assembled from a blogData object, and the two
 * axios interceptors (bearer header from the stored token, token removal on 401).
 * The transport itself is not modelled: a request is the value the client hands to it.
 */
module BlogApi {
  import opened Wrappers

  const FeaturedImageKey := "featured_image"
  const ImageFieldName := "image"
  const MultipartFormData := "multipart/form-data"
  const AuthorizationHeader := "Authorization"
  const Unauthorized := 401

  /** A browser File: its name, declared MIME type and size in bytes. */
  datatype File = File(name: string, mimeType: string, size: nat)

  /** What a blogData property or a FormData entry holds: a string or a File. */
  datatype Value = Text(text: string) | Upload(file: File)

  /** One property of a blogData object (in key order), or one FormData entry. */
  datatype Field = Field(key: string, value: Value)

  datatype Verb = Post | Put

  /** A request as handed to the transport: method, path under the API base URL,
      Content-Type header and the FormData entries in append order. */
  datatype Request = Request(verb: Verb, path: string, contentType: string, body: seq<Field>)

  /** The browser's FormData: entries in the order they were appended. */
  class FormDataBody {
    var entries: seq<Field>

    constructor ()
      ensures entries == []
    {
      entries := [];
    }

    method Append(name: string, value: Value)
      modifies this
      ensures entries == old(entries) + [Field(name, value)]
    {
      entries := entries + [Field(name, value)];
    }
  }

  // ---------------------------------------------------------------------------
  // blogData objects
  // ---------------------------------------------------------------------------

  /** Property access `blogData[key]` (a JavaScript object has each key once; the
      first field with the key is the one read). */
  function Lookup(data: seq<Field>, key: string): (r: Option<Value>)
    ensures r.Some? ==> Field(key, r.value) in data
    ensures r.None? ==> forall f :: f in data ==> f.key != key
  {
    if data == [] then None
    else if data[0].key == key then Some(data[0].value)
    else Lookup(data[1..], key)
  }

  /** No key occurs twice, as in any JavaScript object. */
  predicate UniqueKeys(data: seq<Field>) {
    forall i, j :: 0 <= i < j < |data| ==> data[i].key != data[j].key
  }

  /** In an object, reading a property gives the value stored under its key. */
  lemma LookupOfUniqueKey(data: seq<Field>, i: nat)
    requires UniqueKeys(data) && i < |data|
    ensures Lookup(data, data[i].key) == Some(data[i].value)
  {
    assert data[i] in data;
    var r := Lookup(data, data[i].key);
    var j :| 0 <= j < |data| && data[j] == Field(data[i].key, r.value);
  }

  /** The entries appended by the `forEach` over `Object.keys(blogData)`: every property
      except featured_image, in key order. */
  function TextFields(data: seq<Field>): (r: seq<Field>)
    ensures forall f :: f in r <==> f in data && f.key != FeaturedImageKey
    ensures |r| <= |data|
  {
    if data == [] then []
    else
      var last := data[|data| - 1];
      TextFields(data[..|data| - 1]) + (if last.key != FeaturedImageKey then [last] else [])
  }

  /** The featured_image entry: present only when the property holds a File. */
  function FeaturedImagePart(data: seq<Field>): (r: seq<Field>)
    ensures |r| <= 1
    ensures r != [] <==> Lookup(data, FeaturedImageKey).Some? && Lookup(data, FeaturedImageKey).value.Upload?
    ensures forall f :: f in r ==> f.key == FeaturedImageKey && f.value.Upload? && f in data
  {
    match Lookup(data, FeaturedImageKey)
    case Some(Upload(f)) => [Field(FeaturedImageKey, Upload(f))]
    case _ => []
  }

  /** The multipart body createBlog and updateBlog send for `data`. */
  function MultipartBody(data: seq<Field>): (r: seq<Field>)
    ensures forall f :: f in r ==> f in data
    ensures |TextFields(data)| <= |r| <= |TextFields(data)| + 1
  {
    TextFields(data) + FeaturedImagePart(data)
  }

  lemma AppendAssoc(x: seq<Field>, y: seq<Field>, z: seq<Field>)
    ensures (x + y) + z == x + (y + z)
  {
  }

  /** Appending one property appends its entry, unless it is featured_image. */
  lemma TextFieldsSnoc(data: seq<Field>, x: Field)
    ensures TextFields(data + [x]) == TextFields(data) + (if x.key != FeaturedImageKey then [x] else [])
  {
    assert (data + [x])[..|data|] == data;
  }

  /** The non-image entries keep key order: the filter distributes over concatenation. */
  lemma {:induction false} TextFieldsConcat(a: seq<Field>, b: seq<Field>)
    ensures TextFields(a + b) == TextFields(a) + TextFields(b)
    decreases |b|
  {
    if b == [] {
      assert a + b == a;
    } else {
      var b', last := b[..|b| - 1], b[|b| - 1];
      var part := if last.key != FeaturedImageKey then [last] else [];
      calc {
        TextFields(a + b);
        { assert a + b == (a + b') + [last]; }
        TextFields((a + b') + [last]);
        { TextFieldsSnoc(a + b', last); }
        TextFields(a + b') + part;
        { TextFieldsConcat(a, b'); }
        (TextFields(a) + TextFields(b')) + part;
        { AppendAssoc(TextFields(a), TextFields(b'), part); }
        TextFields(a) + (TextFields(b') + part);
        { TextFieldsSnoc(b', last); assert b' + [last] == b; }
        TextFields(a) + TextFields(b);
      }
    }
  }

  /** Every property other than featured_image is sent, as its own entry, in key order,
      and nothing else is sent under another name. */
  lemma MultipartBodyKeepsTextFields(data: seq<Field>)
    ensures forall f :: f in data && f.key != FeaturedImageKey ==> f in MultipartBody(data)
    ensures forall f :: f in MultipartBody(data) && f.key != FeaturedImageKey ==> f in data
    ensures MultipartBody(data)[..|TextFields(data)|] == TextFields(data)
  {
  }

  /** featured_image reaches the body exactly when the property holds a File, once, as
      the last entry; a string (an existing image URL) is never sent. */
  lemma FeaturedImageSentIffFile(data: seq<Field>)
    ensures (exists f :: f in MultipartBody(data) && f.key == FeaturedImageKey)
        <==> (Lookup(data, FeaturedImageKey).Some? && Lookup(data, FeaturedImageKey).value.Upload?)
    ensures forall f :: f in MultipartBody(data) && f.key == FeaturedImageKey ==> f.value.Upload?
    ensures Lookup(data, FeaturedImageKey).Some? && Lookup(data, FeaturedImageKey).value.Upload? ==>
      var body := MultipartBody(data);
      && body[|body| - 1] == Field(FeaturedImageKey, Lookup(data, FeaturedImageKey).value)
      && forall i :: 0 <= i < |body| - 1 ==> body[i].key != FeaturedImageKey
  {
    var body := MultipartBody(data);
    var text := TextFields(data);
    assert forall f :: f in text ==> f.key != FeaturedImageKey;
    assert forall i :: 0 <= i < |text| ==> body[i] == text[i];
    if body != text {
      assert |body| == |text| + 1 && body[|text|] in body;
    } else {
      assert FeaturedImagePart(data) == [] by {
        assert |body| == |text| + |FeaturedImagePart(data)|;
      }
    }
  }

  // ---------------------------------------------------------------------------
  // Request builders
  // ---------------------------------------------------------------------------

  /** Fills a fresh FormData from `blogData` as createBlog and updateBlog both do. */
  method BuildBlogFormData(blogData: seq<Field>) returns (body: seq<Field>)
    ensures body == MultipartBody(blogData)
  {
    var formData := new FormDataBody();
    var i := 0;
    while i < |blogData|
      invariant 0 <= i <= |blogData|
      invariant formData.entries == TextFields(blogData[..i])
    {
      assert blogData[..i + 1][..i] == blogData[..i];
      if blogData[i].key != FeaturedImageKey {
        formData.Append(blogData[i].key, blogData[i].value);
      }
      i := i + 1;
    }
    assert blogData[..i] == blogData;
    var image := Lookup(blogData, FeaturedImageKey);
    if image.Some? && image.value.Upload? {
      formData.Append(FeaturedImageKey, image.value);
    }
    body := formData.entries;
  }

  /** createBlog: POST /blogs with the multipart body. */
  method CreateBlog(blogData: seq<Field>) returns (req: Request)
    ensures req == Request(Post, "/blogs", MultipartFormData, MultipartBody(blogData))
  {
    var body := BuildBlogFormData(blogData);
    req := Request(Post, "/blogs", MultipartFormData, body);
  }

  /** updateBlog: PUT /blogs/{id} with the same multipart body createBlog would send. */
  method UpdateBlog(id: string, blogData: seq<Field>) returns (req: Request)
    ensures req == Request(Put, "/blogs/" + id, MultipartFormData, MultipartBody(blogData))
  {
    var body := BuildBlogFormData(blogData);
    req := Request(Put, "/blogs/" + id, MultipartFormData, body);
  }

  /** uploadImage: POST /blogs/upload-image with exactly one entry, named "image". */
  method UploadImage(file: File) returns (req: Request)
    ensures req.verb == Post && req.path == "/blogs/upload-image"
    ensures req.contentType == MultipartFormData
    ensures req.body == [Field(ImageFieldName, Upload(file))]
  {
    var formData := new FormDataBody();
    formData.Append(ImageFieldName, Upload(file));
    req := Request(Post, "/blogs/upload-image", MultipartFormData, formData.entries);
  }

  // ---------------------------------------------------------------------------
  // Interceptors
  // ---------------------------------------------------------------------------

  /** `localStorage.getItem('token')` is truthy: present and not the empty string. */
  function HasToken(token: Option<string>): (truthy: bool)
    ensures truthy <==> token.Some? && |token.value| > 0
  {
    token.Some? && token.value != ""
  }

  /** The browser's localStorage, as far as the token is concerned. */
  class TokenStorage {
    var token: Option<string>

    constructor (token: Option<string>)
      ensures this.token == token
    {
      this.token := token;
    }
  }

  /** The headers of one outgoing request. */
  class RequestConfig {
    var headers: map<string, string>

    constructor (headers: map<string, string>)
      ensures this.headers == headers
    {
      this.headers := headers;
    }
  }

  /** The headers after the request interceptor: Authorization is "Bearer <token>" when
      a token is stored; every other header, and all headers when there is no token,
      stay as they were. */
  function WithAuthorization(headers: map<string, string>, token: Option<string>): (h: map<string, string>)
    ensures HasToken(token) ==> AuthorizationHeader in h && h[AuthorizationHeader] == "Bearer " + token.value
    ensures !HasToken(token) ==> h == headers
    ensures forall k :: k != AuthorizationHeader ==> (k in h <==> k in headers)
    ensures forall k :: k in h && k != AuthorizationHeader ==> h[k] == headers[k]
  {
    if HasToken(token) then headers[AuthorizationHeader := "Bearer " + token.value] else headers
  }

  /** The request interceptor: it reads the stored token and updates the config's headers. */
  method RequestInterceptor(config: RequestConfig, storage: TokenStorage)
    modifies config
    ensures config.headers == WithAuthorization(old(config.headers), storage.token)
  {
    var token := storage.token;
    if token.Some? && token.value != "" {
      config.headers := config.headers[AuthorizationHeader := "Bearer " + token.value];
    }
  }

  /** The response error interceptor: `status` is the HTTP status of the error response
      (None when there was no response). A 401 removes the stored token and sends the
      browser to the login page; any other error leaves the token in place. */
  method ResponseErrorInterceptor(status: Option<int>, storage: TokenStorage) returns (redirectToLogin: bool)
    modifies storage
    ensures redirectToLogin <==> status == Some(Unauthorized)
    ensures storage.token == if status == Some(Unauthorized) then None else old(storage.token)
  {
    redirectToLogin := status.Some? && status.value == Unauthorized;
    if redirectToLogin {
      storage.token := None;
    }
  }
}
