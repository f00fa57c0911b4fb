/** The article page: the blog is looked up by the id in the URL, its
    approved comments are listed under a heading that counts them, and an
    anonymous comment form validates its two fields, builds a pending
    comment and resets. */
module BlogPage {
  import opened Wrappers
  import opened Text
  import opened Sequences

  /** The fields of a blog the page reads. */
  datatype PageBlog = PageBlog(
    id: string,
    title: string,
    subTitle: Option<string>,
    category: Option<string>,
    createdAt: Option<string>,
    updatedAt: Option<string>)

  /** A comment; `blogId` is `comment.blog._id`. */
  datatype Comment = Comment(
    id: string,
    blogId: string,
    name: string,
    content: string,
    isApproved: bool,
    createdAt: string)

  /** The index of the first blog with this id, as `blog_data.find` scans. */
  function FindIndex(data: seq<PageBlog>, id: string): (r: Option<nat>)
    ensures r.Some? ==> r.value < |data| && data[r.value].id == id
    ensures r.Some? ==> forall j :: 0 <= j < r.value ==> data[j].id != id
    ensures r.None? ==> forall j :: 0 <= j < |data| ==> data[j].id != id
    decreases |data|
  {
    if data == [] then None
    else if data[0].id == id then Some(0)
    else match FindIndex(data[1..], id)
      case None => None
      case Some(i) => Some(i + 1)
  }

  /** `blog_data.find((item) => item._id === id)`. */
  function Find(data: seq<PageBlog>, id: string): Option<PageBlog>
  {
    match FindIndex(data, id)
    case None => None
    case Some(i) => Some(data[i])
  }

  /** What the page renders: only the loader, or the article. */
  datatype View = Loader | Article(blog: PageBlog)

  function Render(data: seq<PageBlog>, id: string): View
  {
    match Find(data, id)
    case None => Loader
    case Some(b) => Article(b)
  }

  /** The page shows the loader exactly when no blog has the id, and
      otherwise the first blog that has it. */
  lemma RenderIsLookup(data: seq<PageBlog>, id: string)
    ensures Render(data, id) == Loader <==> forall j :: 0 <= j < |data| ==> data[j].id != id
    ensures Render(data, id).Article? ==>
      Render(data, id).blog in data && Render(data, id).blog.id == id
  {
    if Render(data, id) == Loader {
      assert FindIndex(data, id).None?;
    } else {
      assert FindIndex(data, id).Some?;
    }
  }

  /** The "Updated" line: `updatedAt` is set (non-empty) and differs from `createdAt`. */
  predicate ShowsUpdated(blog: PageBlog)
  {
    blog.updatedAt.Some? && blog.updatedAt.value != "" && blog.updatedAt != blog.createdAt
  }

  /** An untouched blog (updated when created) never shows "Updated". */
  lemma UnchangedBlogShowsNoUpdate(blog: PageBlog)
    requires blog.updatedAt == blog.createdAt
    ensures !ShowsUpdated(blog)
  {
  }

  /** `comment.blog._id === data._id && comment.isApproved`. */
  predicate ListedUnder(c: Comment, blogId: string)
  {
    c.blogId == blogId && c.isApproved
  }

  /** The comments listed for a blog: approved and attached to it. */
  function ApprovedFor(comments: seq<Comment>, blogId: string): seq<Comment>
  {
    Filter(comments, c => ListedUnder(c, blogId))
  }

  /** A comment is listed exactly when it belongs to the blog and is approved. */
  lemma ApprovedForMembership(comments: seq<Comment>, blogId: string, c: Comment)
    ensures c in ApprovedFor(comments, blogId) <==> c in comments && c.blogId == blogId && c.isApproved
  {
    FilterMembership(comments, x => ListedUnder(x, blogId), c);
  }

  /** The heading count is the number of listed comments, and "No comments
      yet" appears exactly when no comment of the blog is approved. */
  function CommentCount(comments: seq<Comment>, blogId: string): (n: nat)
    ensures n == 0 <==> forall k :: 0 <= k < |comments| ==> !ListedUnder(comments[k], blogId)
  {
    FilterEmptyIff(comments, x => ListedUnder(x, blogId));
    |ApprovedFor(comments, blogId)|
  }

  /** The comment form's state. */
  class CommentForm {
    var name: string
    var text: string
    var submitted: bool

    constructor ()
      ensures name == "" && text == "" && !submitted
    {
      name, text, submitted := "", "", false;
    }

    method SetName(value: string)
      modifies this`name
      ensures name == value
    {
      name := value;
    }

    method SetText(value: string)
      modifies this`text
      ensures text == value
    {
      text := value;
    }

    /** `onSubmit`: a blank name or text is refused and nothing changes;
        otherwise the pending comment for the current blog is built (and only
        logged), the fields are cleared and the notice is raised. `stamp` and
        `isoNow` are the clock readings `Date.now()` and `toISOString()`. */
    method Submit(blogId: string, stamp: string, isoNow: string) returns (built: Option<Comment>)
      modifies this
      ensures IsBlank(old(name)) || IsBlank(old(text)) ==>
        built == None && name == old(name) && text == old(text) && submitted == old(submitted)
      ensures !IsBlank(old(name)) && !IsBlank(old(text)) ==>
        built == Some(Comment(stamp, blogId, old(name), old(text), false, isoNow)) &&
        name == "" && text == "" && submitted
    {
      if IsBlank(name) || IsBlank(text) {
        return None;
      }
      var newComment := Comment(stamp, blogId, name, text, false, isoNow);
      submitted := true;
      name := "";
      text := "";
      built := Some(newComment);
    }

    /** The timer three seconds after a submission hides the notice. */
    method HideNotice()
      modifies this`submitted
      ensures !submitted
    {
      submitted := false;
    }
  }

  /** A comment built by the form is not listed until it is approved. */
  lemma NewCommentNotListed(comments: seq<Comment>, blogId: string, c: Comment)
    requires !c.isApproved
    ensures c !in ApprovedFor(comments, blogId)
  {
    ApprovedForMembership(comments, blogId, c);
  }
}
