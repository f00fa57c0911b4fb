/** The moderation page: the fetched comments, shown either approved or not
    approved, with an empty-state message. */
module CommentsAdmin {
  import opened Wrappers
  import opened Sequences
  import opened BlogPage

  const ApprovedFilter: string := "Approved"
  const NotApprovedFilter: string := "Not Approved"

  /** The row test: "Approved" shows approved comments, any other value the others. */
  predicate PassesFilter(c: Comment, filter: string)
  {
    if filter == ApprovedFilter then c.isApproved else !c.isApproved
  }

  /** The rows of the table, in the fetched order. */
  function FilterComments(comments: seq<Comment>, filter: string): (rows: seq<Comment>)
    ensures IsSubsequence(rows, comments)
  {
    var passes := c => PassesFilter(c, filter);
    FilterIsSubsequence(comments, passes);
    Filter(comments, passes)
  }

  /** The "Approved" view holds exactly the approved comments; every other
      filter value holds exactly the unapproved ones. */
  lemma FilterCommentsMembership(comments: seq<Comment>, filter: string, c: Comment)
    ensures filter == ApprovedFilter ==> (c in FilterComments(comments, filter) <==> c in comments && c.isApproved)
    ensures filter != ApprovedFilter ==> (c in FilterComments(comments, filter) <==> c in comments && !c.isApproved)
  {
    FilterMembership(comments, x => PassesFilter(x, filter), c);
  }

  /** The two views split the fetched list: together they hold every comment
      exactly as often as the list does, and each keeps the list's order. */
  lemma ViewsPartitionComments(comments: seq<Comment>)
    ensures multiset(FilterComments(comments, ApprovedFilter)) + multiset(FilterComments(comments, NotApprovedFilter))
            == multiset(comments)
    ensures |FilterComments(comments, ApprovedFilter)| + |FilterComments(comments, NotApprovedFilter)| == |comments|
    ensures IsSubsequence(FilterComments(comments, ApprovedFilter), comments)
    ensures IsSubsequence(FilterComments(comments, NotApprovedFilter), comments)
  {
    FilterPartition(comments, x => PassesFilter(x, ApprovedFilter), x => PassesFilter(x, NotApprovedFilter));
  }

  /** The empty message shows exactly when no fetched comment passes the filter. */
  lemma EmptyMessageIff(comments: seq<Comment>, filter: string)
    ensures |FilterComments(comments, filter)| == 0 <==>
            forall k :: 0 <= k < |comments| ==> !PassesFilter(comments[k], filter)
  {
    FilterEmptyIff(comments, x => PassesFilter(x, filter));
  }

  /** What `axios.get("/api/admin/comments")` brings back. */
  datatype FetchReply = Fetched(comments: seq<Comment>) | FetchRefused(message: string) | NetworkError(message: string)

  /** The page's state: the fetched comments and the selected filter. */
  class CommentsPanel {
    var comments: seq<Comment>
    var filter: string

    constructor ()
      ensures comments == [] && filter == NotApprovedFilter
    {
      comments := [];
      filter := NotApprovedFilter;
    }

    method SetFilter(value: string)
      modifies this`filter
      ensures filter == value
    {
      filter := value;
    }

    /** `fetchComments`: only a successful answer replaces the list. */
    method ApplyFetch(reply: FetchReply)
      modifies this`comments
      ensures reply.Fetched? ==> comments == reply.comments
      ensures !reply.Fetched? ==> comments == old(comments)
    {
      if reply.Fetched? {
        comments := reply.comments;
      }
    }

    /** The table rows: the fetched comments that pass the selected filter. */
    function Rows(): (rows: seq<Comment>)
      reads this
      ensures forall c :: c in rows <==> c in comments && PassesFilter(c, filter)
      ensures IsSubsequence(rows, comments)
    {
      assert forall c :: c in FilterComments(comments, filter) <==> c in comments && PassesFilter(c, filter) by {
        forall c
          ensures c in FilterComments(comments, filter) <==> c in comments && PassesFilter(c, filter)
        {
          FilterCommentsMembership(comments, filter, c);
        }
      }
      FilterComments(comments, filter)
    }

    /** "No ... comments found." shows exactly when no fetched comment passes
        the selected filter. */
    function ShowsEmptyMessage(): (empty: bool)
      reads this
      ensures empty <==> forall k :: 0 <= k < |comments| ==> !PassesFilter(comments[k], filter)
    {
      EmptyMessageIff(comments, filter);
      |Rows()| == 0
    }
  }
}
