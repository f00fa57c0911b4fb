/** The home page list: the search box filter (`filteredBlogs`) and the
    category menu filter (`visibleBlogs`), both `filter` expressions over the
    blogs held in the app context. */
module BlogList {
  import opened Wrappers
  import opened Text
  import opened Sequences

  /** The fields of a blog the list reads; `title?.` and `category?.` make both optional. */
  datatype ListedBlog = ListedBlog(id: string, title: Option<string>, category: Option<string>)

  const AllMenu: string := "All"

  /** `!input?.trim()`: no input, or only white space. */
  predicate SearchBlank(input: Option<string>)
  {
    input.None? || IsBlank(input.value)
  }

  /** The search test for one blog against the lower-cased (untrimmed) input. */
  predicate MatchesSearch(blog: ListedBlog, lowerInput: string)
  {
    (blog.title.Some? && Includes(ToLower(blog.title.value), lowerInput)) ||
    (blog.category.Some? && Includes(ToLower(blog.category.value), lowerInput))
  }

  /** The menu test: "All" lets everything through, any other entry needs that exact category. */
  predicate InMenu(blog: ListedBlog, menu: string)
  {
    menu == AllMenu || blog.category == Some(menu)
  }

  /** `filteredBlogs()`. */
  function FilteredBlogs(blogs: seq<ListedBlog>, input: Option<string>): seq<ListedBlog>
  {
    if SearchBlank(input) then blogs
    else Filter(blogs, b => MatchesSearch(b, ToLower(input.value)))
  }

  /** `visibleBlogs`. */
  function VisibleBlogs(blogs: seq<ListedBlog>, input: Option<string>, menu: string): seq<ListedBlog>
  {
    Filter(FilteredBlogs(blogs, input), b => InMenu(b, menu))
  }

  /** Both tests together, as they decide a single blog. */
  predicate Shown(blog: ListedBlog, input: Option<string>, menu: string)
  {
    (SearchBlank(input) || MatchesSearch(blog, ToLower(input.value))) && InMenu(blog, menu)
  }

  /** A blank search leaves the list as it is. */
  lemma BlankSearchKeepsList(blogs: seq<ListedBlog>, input: Option<string>)
    requires SearchBlank(input)
    ensures FilteredBlogs(blogs, input) == blogs
  {
  }

  /** A non-blank search keeps a blog exactly when its lower-cased title or
      category contains the lower-cased input. */
  lemma SearchMembership(blogs: seq<ListedBlog>, input: Option<string>, b: ListedBlog)
    requires !SearchBlank(input)
    ensures b in FilteredBlogs(blogs, input) <==> b in blogs && MatchesSearch(b, ToLower(input.value))
  {
    FilterMembership(blogs, b => MatchesSearch(b, ToLower(input.value)), b);
  }

  /** A blog is visible exactly when it is in the list and passes both tests. */
  lemma VisibleMembership(blogs: seq<ListedBlog>, input: Option<string>, menu: string, b: ListedBlog)
    ensures b in VisibleBlogs(blogs, input, menu) <==> b in blogs && Shown(b, input, menu)
  {
    FilterMembership(FilteredBlogs(blogs, input), x => InMenu(x, menu), b);
    if !SearchBlank(input) {
      SearchMembership(blogs, input, b);
    }
  }

  /** A blog with neither title nor category never survives a non-blank search. */
  lemma UntitledUncategorisedHidden(blogs: seq<ListedBlog>, input: Option<string>, menu: string, b: ListedBlog)
    requires !SearchBlank(input) && b.title.None? && b.category.None?
    ensures b !in VisibleBlogs(blogs, input, menu)
  {
    VisibleMembership(blogs, input, menu, b);
  }

  /** The "All" menu entry restricts nothing. */
  lemma AllMenuKeepsSearchResult(blogs: seq<ListedBlog>, input: Option<string>)
    ensures VisibleBlogs(blogs, input, AllMenu) == FilteredBlogs(blogs, input)
  {
    FilterKeepsAll(FilteredBlogs(blogs, input), b => InMenu(b, AllMenu));
  }

  /** The visible list is the blog list with some blogs left out, in the original order. */
  lemma VisibleIsSubsequence(blogs: seq<ListedBlog>, input: Option<string>, menu: string)
    ensures IsSubsequence(VisibleBlogs(blogs, input, menu), blogs)
  {
    var filtered := FilteredBlogs(blogs, input);
    if !SearchBlank(input) {
      FilterIsSubsequence(blogs, b => MatchesSearch(b, ToLower(input.value)));
    } else {
      SubsequenceReflexive(blogs);
    }
    FilterIsSubsequence(filtered, b => InMenu(b, menu));
    SubsequenceTransitive(VisibleBlogs(blogs, input, menu), filtered, blogs);
  }

  /** "No blogs found" is rendered exactly when no blog of the list passes both tests. */
  lemma NoBlogsFoundIff(blogs: seq<ListedBlog>, input: Option<string>, menu: string)
    ensures |VisibleBlogs(blogs, input, menu)| == 0 <==> forall k :: 0 <= k < |blogs| ==> !Shown(blogs[k], input, menu)
  {
    var visible := VisibleBlogs(blogs, input, menu);
    if |visible| == 0 {
      forall k | 0 <= k < |blogs|
        ensures !Shown(blogs[k], input, menu)
      {
        VisibleMembership(blogs, input, menu, blogs[k]);
      }
    } else {
      VisibleMembership(blogs, input, menu, visible[0]);
    }
  }
}
