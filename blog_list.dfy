/**
 * The blog list page: pagination state and page changes, the query parameters of the
 * list request, applying its response, removing a deleted post, the status badge and
 * the per-status counters (the badge label is `Text.Capitalize`).
 */
module BlogList {
  import opened Wrappers

  const DefaultLimit := 12
  const AllStatuses := "all"
  const PublishedBadge := "bg-green-100 text-green-800"
  const DraftBadge := "bg-yellow-100 text-yellow-800"
  const ArchivedBadge := "bg-gray-100 text-gray-800"

  /** A post as listed: only the properties the list logic reads. */
  datatype BlogItem = BlogItem(id: int, title: string, status: string)

  datatype Pagination = Pagination(page: int, limit: int, total: int, pages: int)

  const InitialPagination := Pagination(1, DefaultLimit, 0, 1)

  /** A query parameter value: a number or a string. */
  datatype ParamValue = Number(n: int) | Str(s: string)

  datatype Param = Param(name: string, value: ParamValue)

  /** The outcome of the list request: the posts and the server's pagination when it
      sent one, or a failure (unsuccessful response or a thrown error). */
  datatype FetchResult = Fetched(data: seq<BlogItem>, pagination: Option<Pagination>) | FetchFailed

  // ---------------------------------------------------------------------------
  // handlePageChange
  // ---------------------------------------------------------------------------

  /** The pagination after asking for `newPage`: only `page` can change, and only to a
      page between 1 and `pages`. */
  function ChangePage(p: Pagination, newPage: int): (q: Pagination)
    ensures q.limit == p.limit && q.total == p.total && q.pages == p.pages
    ensures 1 <= newPage <= p.pages ==> q.page == newPage
    ensures !(1 <= newPage <= p.pages) ==> q == p
  {
    if newPage >= 1 && newPage <= p.pages then p.(page := newPage) else p
  }

  /** Starting from a page in range, every page change keeps the page in range. */
  lemma ChangePageKeepsPageInRange(p: Pagination, newPage: int)
    requires 1 <= p.page <= p.pages
    ensures 1 <= ChangePage(p, newPage).page <= ChangePage(p, newPage).pages
  {
  }

  // ---------------------------------------------------------------------------
  // fetchBlogs
  // ---------------------------------------------------------------------------

  /** The params object of the list request, in property order. */
  function QueryParams(p: Pagination, filterStatus: string, searchTerm: string): (r: seq<Param>)
    ensures |r| == 4 + (if filterStatus != AllStatuses then 1 else 0) + (if searchTerm != "" then 1 else 0)
    ensures r[0] == Param("page", Number(p.page)) && r[1] == Param("limit", Number(p.limit))
    ensures r[|r| - 2] == Param("sortBy", Str("created_at")) && r[|r| - 1] == Param("sortOrder", Str("DESC"))
    ensures (exists v :: Param("status", v) in r) <==> filterStatus != AllStatuses
    ensures (exists v :: Param("search", v) in r) <==> searchTerm != ""
    ensures filterStatus != AllStatuses ==> Param("status", Str(filterStatus)) in r
    ensures searchTerm != "" ==> Param("search", Str(searchTerm)) in r
  {
    [Param("page", Number(p.page)), Param("limit", Number(p.limit))]
    + (if filterStatus != AllStatuses then [Param("status", Str(filterStatus))] else [])
    + (if searchTerm != "" then [Param("search", Str(searchTerm))] else [])
    + [Param("sortBy", Str("created_at")), Param("sortOrder", Str("DESC"))]
  }

  /** The pagination kept after a successful response: the server's, or one page
      holding everything that came back. */
  function ResponsePagination(data: seq<BlogItem>, pagination: Option<Pagination>): (q: Pagination)
    ensures pagination.Some? ==> q == pagination.value
    ensures pagination.None? ==> q.page == 1 && q.limit == DefaultLimit && q.total == |data| && q.pages == 1
  {
    match pagination
    case Some(p) => p
    case None => Pagination(1, DefaultLimit, |data|, 1)
  }

  // ---------------------------------------------------------------------------
  // handleDelete
  // ---------------------------------------------------------------------------

  /** `blogs.filter(blog => blog.id !== id)`. */
  function RemoveById(blogs: seq<BlogItem>, id: int): (r: seq<BlogItem>)
    ensures forall b :: b in r <==> b in blogs && b.id != id
    ensures |r| <= |blogs|
  {
    if blogs == [] then []
    else (if blogs[0].id != id then [blogs[0]] else []) + RemoveById(blogs[1..], id)
  }

  /** Removal keeps the remaining posts in their order: it distributes over concatenation. */
  lemma {:induction false} RemoveByIdConcat(a: seq<BlogItem>, b: seq<BlogItem>, id: int)
    ensures RemoveById(a + b, id) == RemoveById(a, id) + RemoveById(b, id)
    decreases |a|
  {
    if a == [] {
      assert a + b == b;
    } else {
      assert (a + b)[0] == a[0] && (a + b)[1..] == a[1..] + b;
      RemoveByIdConcat(a[1..], b, id);
    }
  }

  /** A list without the id is left as it is. */
  lemma {:induction false} RemoveByIdAbsent(blogs: seq<BlogItem>, id: int)
    requires forall b :: b in blogs ==> b.id != id
    ensures RemoveById(blogs, id) == blogs
    decreases |blogs|
  {
    if blogs != [] {
      RemoveByIdAbsent(blogs[1..], id);
    }
  }

  // ---------------------------------------------------------------------------
  // Status badge, label and counters
  // ---------------------------------------------------------------------------

  /** getStatusBadgeColor: one class per known status; anything else looks archived. */
  function StatusBadgeColor(status: string): (c: string)
    ensures status == "published" ==> c == PublishedBadge
    ensures status == "draft" ==> c == DraftBadge
    ensures status != "published" && status != "draft" ==> c == ArchivedBadge
  {
    if status == "published" then PublishedBadge
    else if status == "draft" then DraftBadge
    else if status == "archived" then ArchivedBadge
    else ArchivedBadge
  }

  /** The three known statuses get three different badges. */
  lemma BadgesDistinct()
    ensures StatusBadgeColor("published") != StatusBadgeColor("draft")
    ensures StatusBadgeColor("published") != StatusBadgeColor("archived")
    ensures StatusBadgeColor("draft") != StatusBadgeColor("archived")
  {
    assert PublishedBadge[5] != DraftBadge[5] && PublishedBadge[5] != ArchivedBadge[5];
    assert DraftBadge[5] != ArchivedBadge[5];
  }

  /** `blogs.filter(b => b.status === status).length`. */
  function CountStatus(blogs: seq<BlogItem>, status: string): (n: nat)
    ensures n <= |blogs|
    ensures n == 0 <==> forall i :: 0 <= i < |blogs| ==> blogs[i].status != status
    ensures n == |blogs| <==> forall i :: 0 <= i < |blogs| ==> blogs[i].status == status
  {
    if blogs == [] then 0
    else (if blogs[0].status == status then 1 else 0) + CountStatus(blogs[1..], status)
  }

  /** One post counts once when it has the status and not at all otherwise. */
  lemma CountStatusOne(b: BlogItem, status: string)
    ensures CountStatus([b], status) == if b.status == status then 1 else 0
  {
  }

  /** The counter adds up over any split of the list: each post is counted on its own. */
  lemma {:induction false} CountStatusConcat(a: seq<BlogItem>, b: seq<BlogItem>, status: string)
    ensures CountStatus(a + b, status) == CountStatus(a, status) + CountStatus(b, status)
    decreases |a|
  {
    if a == [] {
      assert a + b == b;
    } else {
      assert (a + b)[0] == a[0] && (a + b)[1..] == a[1..] + b;
      CountStatusConcat(a[1..], b, status);
    }
  }

  /** A status with a counter of its own. */
  predicate KnownStatus(status: string) {
    status == "published" || status == "draft" || status == "archived"
  }

  /** The published, draft and archived counters together never exceed the posts shown,
      and they add up to all of them exactly when every post has one of those statuses. */
  lemma {:induction false} StatusCountsBounded(blogs: seq<BlogItem>)
    ensures CountStatus(blogs, "published") + CountStatus(blogs, "draft") + CountStatus(blogs, "archived") <= |blogs|
    ensures CountStatus(blogs, "published") + CountStatus(blogs, "draft") + CountStatus(blogs, "archived") == |blogs|
        <==> forall i :: 0 <= i < |blogs| ==> KnownStatus(blogs[i].status)
    decreases |blogs|
  {
    if blogs != [] {
      StatusCountsBounded(blogs[1..]);
      assert forall i :: 1 <= i < |blogs| ==> blogs[i] == blogs[1..][i - 1];
      assert (forall i :: 0 <= i < |blogs| ==> KnownStatus(blogs[i].status))
         <==> KnownStatus(blogs[0].status) && forall i :: 0 <= i < |blogs[1..]| ==> KnownStatus(blogs[1..][i].status);
    }
  }

  // ---------------------------------------------------------------------------
  // The component
  // ---------------------------------------------------------------------------

  /** The list component's state. */
  class BlogListComponent {
    var blogs: seq<BlogItem>
    var searchTerm: string
    var filterStatus: string
    var pagination: Pagination

    constructor ()
      ensures blogs == [] && searchTerm == "" && filterStatus == AllStatuses
      ensures pagination == InitialPagination
    {
      blogs := [];
      searchTerm := "";
      filterStatus := AllStatuses;
      pagination := InitialPagination;
    }

    /** handlePageChange: moves to `newPage` only when it is between 1 and `pages`. */
    method HandlePageChange(newPage: int)
      modifies this`pagination
      ensures pagination == ChangePage(old(pagination), newPage)
    {
      if newPage >= 1 && newPage <= pagination.pages {
        pagination := pagination.(page := newPage);
      }
    }

    /** fetchBlogs, after the response: on success the posts and the pagination are
        replaced; on failure the list is emptied and the pagination kept. */
    method ApplyFetchResult(result: FetchResult)
      modifies this`blogs, this`pagination
      ensures result.Fetched? ==> blogs == result.data && pagination == ResponsePagination(result.data, result.pagination)
      ensures result.FetchFailed? ==> blogs == [] && pagination == old(pagination)
    {
      match result {
        case Fetched(data, p) =>
          blogs := data;
          pagination := if p.Some? then p.value else Pagination(1, DefaultLimit, |data|, 1);
        case FetchFailed =>
          blogs := [];
      }
    }

    /** handleDelete: when the user confirmed and the server deleted the post, every post
        with that id leaves the list; otherwise the list is unchanged. */
    method HandleDelete(id: int, confirmed: bool, deleted: bool)
      modifies this`blogs
      ensures confirmed && deleted ==> blogs == RemoveById(old(blogs), id)
      ensures !(confirmed && deleted) ==> blogs == old(blogs)
    {
      if !confirmed {
        return;
      }
      if deleted {
        blogs := RemoveById(blogs, id);
      }
    }
  }
}
