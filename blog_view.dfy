/**
 * The single-post page: who may edit the post, what the edit button does, and the
 * date fallback. The stored token and user are passed in instead of read from
 * localStorage.
 */
module BlogView {
  import opened Wrappers
  import BlogApi

  const NotAvailable := "N/A"

  /** A JSON id as compared with `===`: a number, a string or null. A missing property
      (`undefined`) is None, so two missing ids compare equal. */
  datatype JsonId = IdNumber(n: int) | IdString(s: string) | IdNull

  /** The parsed `user` entry of localStorage (`{}` when none is stored). */
  datatype StoredUser = StoredUser(role: Option<string>, id: Option<JsonId>)

  /** The post being viewed, as far as permissions go. */
  datatype ViewedBlog = ViewedBlog(createdBy: Option<JsonId>)

  /** What clicking "edit" does. */
  datatype EditOutcome = RedirectToLogin | PermissionDenied | NavigateTo(path: string)

  /** canEditBlog: nobody without a token; admins and editors always; authors when
      `blog?.created_by === user.id`; nobody else. */
  function CanEditBlog(token: Option<string>, user: StoredUser, blog: Option<ViewedBlog>): (ok: bool)
    ensures !BlogApi.HasToken(token) ==> !ok
    ensures BlogApi.HasToken(token) && (user.role == Some("admin") || user.role == Some("editor")) ==> ok
    ensures BlogApi.HasToken(token) && user.role == Some("author") && blog.Some? ==>
              (ok <==> blog.value.createdBy == user.id)
    ensures user.role.None? || user.role.value !in {"admin", "editor", "author"} ==> !ok
    ensures ok ==> BlogApi.HasToken(token) && user.role.Some? && user.role.value in {"admin", "editor", "author"}
  {
    if !BlogApi.HasToken(token) then false
    else if user.role == Some("admin") || user.role == Some("editor") then true
    else if user.role == Some("author") && (if blog.Some? then blog.value.createdBy else None) == user.id then true
    else false
  }

  /** With `undefined === undefined`, an author whose stored user has no id may edit a
      post that has no created_by. */
  lemma MissingIdsMatch(token: Option<string>, blog: ViewedBlog)
    requires BlogApi.HasToken(token) && blog.createdBy.None?
    ensures CanEditBlog(token, StoredUser(Some("author"), None), Some(blog))
  {
  }

  /** handleEditClick. */
  function HandleEditClick(token: Option<string>, user: StoredUser, blog: Option<ViewedBlog>, id: string): (r: EditOutcome)
    ensures r == RedirectToLogin <==> !BlogApi.HasToken(token)
    ensures r == PermissionDenied <==> BlogApi.HasToken(token) && !CanEditBlog(token, user, blog)
    ensures r.NavigateTo? <==> CanEditBlog(token, user, blog)
    ensures r.NavigateTo? ==> r.path == "/edit/" + id
  {
    if !BlogApi.HasToken(token) then RedirectToLogin
    else if !CanEditBlog(token, user, blog) then PermissionDenied
    else NavigateTo("/edit/" + id)
  }

  /** formatDate: "N/A" for a missing or empty date; any other date goes to the locale
      formatter `toLocale`. */
  function FormatDate(dateString: Option<string>, toLocale: string -> string): (r: string)
    ensures dateString.None? || dateString.value == "" ==> r == NotAvailable
    ensures dateString.Some? && dateString.value != "" ==> r == toLocale(dateString.value)
  {
    if dateString.None? || dateString.value == "" then NotAvailable else toLocale(dateString.value)
  }
}
