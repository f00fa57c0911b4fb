/** The blog handlers of the server (`addBlog`, `getAllBlogs`, `getBlogById`,
    `deleteBlogById`, `togglePublish`) over the persisted blog collection,
    which is a map from id to record here. The caller is `req.user`, present
    or not; a handler that reads `req.user.id` without one throws a TypeError,
    which its `catch` turns into a 500 answer. The image host (upload plus URL
    building) is the parameter `upload`; the clock is the parameter `now`. */
module BlogController {
  import opened Wrappers
  import opened AuthMiddleware

  type BlogId = nat

  /** The fields of `JSON.parse(req.body.blog)`; a field absent from the JSON is `None`. */
  datatype BlogForm = BlogForm(
    title: Option<string>,
    subTitle: Option<string>,
    description: Option<string>,
    category: Option<string>,
    isPublished: bool)

  /** The upload multer left on local disk (`req.file`). */
  datatype ImageFile = ImageFile(path: string, originalName: string)

  /** A persisted blog document. */
  datatype Blog = Blog(
    id: BlogId,
    title: string,
    subTitle: Option<string>,
    description: string,
    category: string,
    image: string,
    author: UserId,
    isPublished: bool,
    createdAt: int)

  /** The JSON bodies the handlers send. */
  datatype Reply =
    | Message(status: nat, success: bool, message: string)
    | BlogList(blogs: seq<Blog>)
    | OneBlog(blog: Blog)
    | Toggled(blog: Blog)

  const MissingFieldsMessage: string := "Missing required fields"
  const AddedMessage: string := "Blog added successfully"
  const NotFoundOrUnauthorizedMessage: string := "Blog not found or unauthorized"
  const NotFoundMessage: string := "Blog not found"
  const NotAuthorizedToDeleteMessage: string := "Not authorized to delete"
  const DeletedMessage: string := "Blog deleted successfully"
  const ToggledMessage: string := "Blog publish status updated"
  /** What the TypeError says when `req.user.id` is read and `req.user` is undefined. */
  const NoUserMessage: string := "Cannot read properties of undefined (reading 'id')"

  /** A JSON field that JavaScript treats as false: absent or the empty string. */
  predicate Falsy(v: Option<string>)
  {
    v.None? || v.value == ""
  }

  /** The guard of `addBlog`: title, description, category or the image file is falsy. */
  predicate MissingField(form: BlogForm, file: Option<ImageFile>)
  {
    Falsy(form.title) || Falsy(form.description) || Falsy(form.category) || file.None?
  }

  /** The caller owns the blog with this id (and that blog exists). */
  predicate Owns(blogs: map<BlogId, Blog>, id: BlogId, user: Option<Claims>)
  {
    id in blogs && user.Some? && blogs[id].author == user.value.id
  }

  /** Sorted by `createdAt`, newest first. */
  predicate NewestFirst(r: seq<Blog>)
  {
    forall i, j :: 0 <= i < j < |r| ==> r[i].createdAt >= r[j].createdAt
  }

  predicate Distinct(r: seq<Blog>)
  {
    forall i, j :: 0 <= i < j < |r| ==> r[i] != r[j]
  }

  /** Puts `b` into a newest-first list before the first blog it is not older than. */
  function InsertNewestFirst(r: seq<Blog>, b: Blog): (r': seq<Blog>)
    ensures multiset(r') == multiset(r) + multiset{b}
    ensures forall x :: x in r' <==> x in r || x == b
    decreases |r|
  {
    if r == [] || b.createdAt >= r[0].createdAt then
      [b] + r
    else
      assert r == [r[0]] + r[1..];
      [r[0]] + InsertNewestFirst(r[1..], b)
  }

  lemma {:induction false} InsertKeepsNewestFirst(r: seq<Blog>, b: Blog)
    requires NewestFirst(r)
    ensures NewestFirst(InsertNewestFirst(r, b))
    decreases |r|
  {
    if r != [] && b.createdAt < r[0].createdAt {
      var tail := InsertNewestFirst(r[1..], b);
      InsertKeepsNewestFirst(r[1..], b);
      forall j | 0 <= j < |tail|
        ensures r[0].createdAt >= tail[j].createdAt
      {
        assert tail[j] in r[1..] || tail[j] == b;
      }
      var r' := [r[0]] + tail;
      forall i, j | 0 <= i < j < |r'|
        ensures r'[i].createdAt >= r'[j].createdAt
      {
        if i > 0 {
          assert r'[i] == tail[i - 1] && r'[j] == tail[j - 1];
        }
      }
    }
  }

  lemma {:induction false} InsertKeepsDistinct(r: seq<Blog>, b: Blog)
    requires Distinct(r) && b !in r
    ensures Distinct(InsertNewestFirst(r, b))
    decreases |r|
  {
    if r != [] && b.createdAt < r[0].createdAt {
      var tail := InsertNewestFirst(r[1..], b);
      InsertKeepsDistinct(r[1..], b);
      assert r[0] !in r[1..];
      assert r[0] !in tail;
      var r' := [r[0]] + tail;
      forall i, j | 0 <= i < j < |r'|
        ensures r'[i] != r'[j]
      {
        if i > 0 {
          assert r'[i] == tail[i - 1] && r'[j] == tail[j - 1];
        } else {
          assert r'[j] in tail;
        }
      }
    } else {
      forall i, j | 0 <= i < j < |[b] + r|
        ensures ([b] + r)[i] != ([b] + r)[j]
      {
        if i == 0 {
          assert ([b] + r)[j] in r;
        } else {
          assert ([b] + r)[i] == r[i - 1] && ([b] + r)[j] == r[j - 1];
        }
      }
    }
  }

  /** The blog collection, together with the local directory in which multer
      leaves uploaded images until `addBlog` unlinks them. */
  class BlogStore {
    var blogs: map<BlogId, Blog>
    var nextId: nat
    var uploads: set<string>

    /** Every record sits under its own id, and ids below `nextId` are the used ones. */
    ghost predicate Valid()
      reads this
    {
      forall id :: id in blogs ==> blogs[id].id == id && id < nextId
    }

    constructor ()
      ensures Valid() && blogs == map[] && uploads == {}
    {
      blogs := map[];
      nextId := 0;
      uploads := {};
    }

    /** multer's disk storage: the uploaded image is written to a temp path. */
    method Receive(file: ImageFile)
      modifies this`uploads
      ensures uploads == old(uploads) + {file.path}
    {
      uploads := uploads + {file.path};
    }

    /** `addBlog`: validate, upload the image, unlink the temp file, create the record. */
    method AddBlog(body: Result<BlogForm>, file: Option<ImageFile>, user: Option<Claims>,
                   upload: ImageFile -> Result<string>, now: int) returns (reply: Reply)
      requires Valid()
      requires file.Some? ==> file.value.path in uploads
      modifies this
      ensures Valid()
      ensures body.Fail? ==>
        reply == Message(500, false, body.message) && blogs == old(blogs) && uploads == old(uploads)
      ensures body.Ok? && MissingField(body.value, file) ==>
        reply == Message(400, false, MissingFieldsMessage) && blogs == old(blogs) && uploads == old(uploads)
      ensures body.Ok? && !MissingField(body.value, file) && upload(file.value).Fail? ==>
        reply == Message(500, false, upload(file.value).message) &&
        blogs == old(blogs) && uploads == old(uploads)
      ensures body.Ok? && !MissingField(body.value, file) && upload(file.value).Ok? && user.None? ==>
        reply == Message(500, false, NoUserMessage) &&
        blogs == old(blogs) && uploads == old(uploads) - {file.value.path}
      ensures body.Ok? && !MissingField(body.value, file) && upload(file.value).Ok? && user.Some? ==>
        var form := body.value;
        var id := old(nextId);
        reply == Message(201, true, AddedMessage) &&
        id !in old(blogs) && id in blogs && blogs == old(blogs)[id := blogs[id]] &&
        blogs[id].author == user.value.id &&
        blogs[id].image == upload(file.value).value &&
        blogs[id].title == form.title.value &&
        blogs[id].subTitle == form.subTitle &&
        blogs[id].description == form.description.value &&
        blogs[id].category == form.category.value &&
        blogs[id].isPublished == form.isPublished &&
        blogs[id].createdAt == now &&
        uploads == old(uploads) - {file.value.path}
    {
      if body.Fail? {
        return Message(500, false, body.message);
      }
      var form := body.value;
      if Falsy(form.title) || Falsy(form.description) || Falsy(form.category) || file.None? {
        return Message(400, false, MissingFieldsMessage);
      }
      var imageFile := file.value;
      var response := upload(imageFile);
      if response.Fail? {
        return Message(500, false, response.message);
      }
      uploads := uploads - {imageFile.path};
      if user.None? {
        return Message(500, false, NoUserMessage);
      }
      var id := nextId;
      blogs := blogs[id := Blog(id, form.title.value, form.subTitle, form.description.value,
                                form.category.value, response.value, user.value.id,
                                form.isPublished, now)];
      nextId := nextId + 1;
      reply := Message(201, true, AddedMessage);
    }

    /** `getAllBlogs`: the caller's own blogs, published or not, newest first. */
    method GetAllBlogs(user: Option<Claims>) returns (reply: Reply)
      requires Valid()
      ensures user.None? ==> reply == Message(500, false, NoUserMessage)
      ensures user.Some? ==> reply.BlogList? && NewestFirst(reply.blogs) && Distinct(reply.blogs)
      ensures user.Some? ==>
        forall b :: b in reply.blogs <==> b in blogs.Values && b.author == user.value.id
    {
      if user.None? {
        return Message(500, false, NoUserMessage);
      }
      var uid := user.value.id;
      var rest := blogs.Keys;
      var found: seq<Blog> := [];
      while rest != {}
        invariant rest <= blogs.Keys
        invariant NewestFirst(found) && Distinct(found)
        invariant forall b :: b in found ==>
          b.id in blogs && blogs[b.id] == b && b.author == uid && b.id !in rest
        invariant forall id :: id in blogs && id !in rest && blogs[id].author == uid ==> blogs[id] in found
        decreases rest
      {
        var k :| k in rest;
        rest := rest - {k};
        var b := blogs[k];
        if b.author == uid {
          InsertKeepsNewestFirst(found, b);
          InsertKeepsDistinct(found, b);
          found := InsertNewestFirst(found, b);
        }
      }
      forall b | b in blogs.Values && b.author == uid
        ensures b in found
      {
        var id :| id in blogs && blogs[id] == b;
      }
      reply := BlogList(found);
    }

    /** `getBlogById`: the blog, only for its author; a missing blog and
        another author's blog get the same 404. */
    method GetBlogById(id: BlogId, user: Option<Claims>) returns (reply: Reply)
      ensures id !in blogs ==> reply == Message(404, false, NotFoundOrUnauthorizedMessage)
      ensures id in blogs && user.None? ==> reply == Message(500, false, NoUserMessage)
      ensures id in blogs && user.Some? && blogs[id].author != user.value.id ==>
        reply == Message(404, false, NotFoundOrUnauthorizedMessage)
      ensures reply.OneBlog? <==> Owns(blogs, id, user)
      ensures reply.OneBlog? ==> reply.blog == blogs[id]
    {
      if id !in blogs {
        return Message(404, false, NotFoundOrUnauthorizedMessage);
      }
      var blog := blogs[id];
      if user.None? {
        return Message(500, false, NoUserMessage);
      }
      if blog.author != user.value.id {
        return Message(404, false, NotFoundOrUnauthorizedMessage);
      }
      reply := OneBlog(blog);
    }

    /** `deleteBlogById`: 404 when missing, 403 for another author, otherwise
        the record is removed; comments are not touched. */
    method DeleteBlogById(id: BlogId, user: Option<Claims>) returns (reply: Reply)
      requires Valid()
      modifies this`blogs
      ensures Valid()
      ensures id !in old(blogs) ==> reply == Message(404, false, NotFoundMessage) && blogs == old(blogs)
      ensures id in old(blogs) && user.None? ==>
        reply == Message(500, false, NoUserMessage) && blogs == old(blogs)
      ensures id in old(blogs) && user.Some? && old(blogs)[id].author != user.value.id ==>
        reply == Message(403, false, NotAuthorizedToDeleteMessage) && blogs == old(blogs)
      ensures Owns(old(blogs), id, user) ==>
        reply == Message(200, true, DeletedMessage) && blogs == old(blogs) - {id}
    {
      if id !in blogs {
        return Message(404, false, NotFoundMessage);
      }
      var blog := blogs[id];
      if user.None? {
        return Message(500, false, NoUserMessage);
      }
      if blog.author != user.value.id {
        return Message(403, false, NotAuthorizedToDeleteMessage);
      }
      blogs := blogs - {id};
      reply := Message(200, true, DeletedMessage);
    }

    /** `togglePublish`: for the author, negate `isPublished` and save; every
        other field and every other blog stays as it was. */
    method TogglePublish(id: BlogId, user: Option<Claims>) returns (reply: Reply)
      requires Valid()
      modifies this`blogs
      ensures Valid()
      ensures id !in old(blogs) || (user.Some? && old(blogs)[id].author != user.value.id) ==>
        reply == Message(404, false, NotFoundOrUnauthorizedMessage) && blogs == old(blogs)
      ensures id in old(blogs) && user.None? ==>
        reply == Message(500, false, NoUserMessage) && blogs == old(blogs)
      ensures Owns(old(blogs), id, user) ==>
        blogs == old(blogs)[id := old(blogs)[id].(isPublished := !old(blogs)[id].isPublished)] &&
        reply == Toggled(blogs[id])
    {
      if id !in blogs {
        return Message(404, false, NotFoundOrUnauthorizedMessage);
      }
      var blog := blogs[id];
      if user.None? {
        return Message(500, false, NoUserMessage);
      }
      if blog.author != user.value.id {
        return Message(404, false, NotFoundOrUnauthorizedMessage);
      }
      blog := blog.(isPublished := !blog.isPublished);
      blogs := blogs[id := blog];
      reply := Toggled(blog);
    }
  }

  /** Two toggles by the same caller leave the collection as it was. */
  method ToggleTwiceRestores(store: BlogStore, id: BlogId, user: Option<Claims>)
    requires store.Valid()
    modifies store`blogs
    ensures store.blogs == old(store.blogs)
  {
    var first := store.TogglePublish(id, user);
    var second := store.TogglePublish(id, user);
  }
}
