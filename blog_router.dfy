/** The blog routes: which middleware runs in front of which handler, and so
    whether the handler sees a user. `Serve` runs one request through a route
    table the way Express does: the middleware first, the handler only when
    the middleware called `next`. */
module BlogRouter {
  import opened Wrappers
  import opened AuthMiddleware
  import opened BlogController

  datatype Route = AddRoute | ToggleRoute | AllRoute | AddCommentRoute | CommentsRoute | GetByIdRoute | DeleteRoute

  /** Strict `auth`, `optionalAuth`, or no middleware at all. */
  datatype Guard = Strict | Optional | Open

  /** The middleware each route is mounted with. */
  function GuardOf(route: Route): Guard
  {
    match route
    case AddRoute => Strict
    case AllRoute => Optional
    case _ => Open
  }

  /** The table the handlers evidently assume: every handler that reads
      `req.user.id` behind a guard that can supply it. */
  function IntendedGuardOf(route: Route): Guard
  {
    match route
    case AddRoute | ToggleRoute | GetByIdRoute | DeleteRoute => Strict
    case AllRoute => Optional
    case _ => Open
  }

  /** What the handler of a route with guard `g` gets: the guard's own answer,
      or `next()` with `req.user` (undefined on a fresh request). */
  function AdmissionFor(g: Guard, header: Option<string>, verify: string -> Option<Claims>): Admission
  {
    match g
    case Strict => StrictDecision(header, verify)
    case Optional => OptionalDecision(header, verify, None)
    case Open => Admit(None)
  }

  /** As mounted, the toggle, single-fetch and delete handlers never see a user,
      whatever header the client sends. */
  lemma AsWrittenOwnerRoutesSeeNoUser(route: Route, header: Option<string>, verify: string -> Option<Claims>)
    requires route in {ToggleRoute, GetByIdRoute, DeleteRoute}
    ensures AdmissionFor(GuardOf(route), header, verify) == Admit(None)
  {
  }

  /** With the intended table, a client holding a token that verifies reaches
      those handlers as that user. */
  lemma {:induction false} IntendedOwnerRoutesSeeTokenUser(route: Route, token: string, verify: string -> Option<Claims>)
    requires route in {ToggleRoute, GetByIdRoute, DeleteRoute}
    requires ' ' !in token && verify(token).Some?
    ensures AdmissionFor(IntendedGuardOf(route), Some(BearerPrefix + token), verify) == Admit(verify(token))
  {
    BearerHeaderRoundTrip(token);
  }

  /** The blog requests that reach a handler reading `req.user.id`. */
  datatype Action = ListAll | Fetch(id: BlogId) | Toggle(id: BlogId) | Remove(id: BlogId)

  function RouteOf(action: Action): Route
  {
    match action
    case ListAll => AllRoute
    case Fetch(_) => GetByIdRoute
    case Toggle(_) => ToggleRoute
    case Remove(_) => DeleteRoute
  }

  /** What the client receives: the middleware's answer or the handler's. */
  datatype Outcome = Answered(answer: Answer) | Handled(reply: Reply)

  /** One request through the route table `table`. */
  method Serve(table: Route -> Guard, action: Action, header: Option<string>,
               store: BlogStore, verify: string -> Option<Claims>) returns (outcome: Outcome)
    requires store.Valid()
    modifies store`blogs
    ensures store.Valid()
    ensures AdmissionFor(table(RouteOf(action)), header, verify).Reject? ==>
      outcome == Answered(AdmissionFor(table(RouteOf(action)), header, verify).answer) &&
      store.blogs == old(store.blogs)
    ensures AdmissionFor(table(RouteOf(action)), header, verify) == Admit(None) &&
            (action.ListAll? || action.id in old(store.blogs)) ==>
      outcome == Handled(Message(500, false, NoUserMessage)) && store.blogs == old(store.blogs)
    ensures var adm := AdmissionFor(table(RouteOf(action)), header, verify);
      adm.Admit? && action.ListAll? && adm.user.Some? ==>
        outcome.Handled? && outcome.reply.BlogList? &&
        NewestFirst(outcome.reply.blogs) && Distinct(outcome.reply.blogs) &&
        store.blogs == old(store.blogs) &&
        forall b :: b in outcome.reply.blogs <==> b in store.blogs.Values && b.author == adm.user.value.id
    ensures var adm := AdmissionFor(table(RouteOf(action)), header, verify);
      adm.Admit? && !action.ListAll? && !Owns(old(store.blogs), action.id, adm.user) ==>
        store.blogs == old(store.blogs)
    ensures var adm := AdmissionFor(table(RouteOf(action)), header, verify);
      adm.Admit? && !action.ListAll? && action.id !in old(store.blogs) ==>
        outcome == Handled(Message(404, false, if action.Remove? then NotFoundMessage else NotFoundOrUnauthorizedMessage))
    ensures var adm := AdmissionFor(table(RouteOf(action)), header, verify);
      adm.Admit? && !action.ListAll? && action.id in old(store.blogs) && adm.user.Some? &&
      old(store.blogs)[action.id].author != adm.user.value.id ==>
        outcome == Handled(if action.Remove? then Message(403, false, NotAuthorizedToDeleteMessage)
                           else Message(404, false, NotFoundOrUnauthorizedMessage))
    ensures var adm := AdmissionFor(table(RouteOf(action)), header, verify);
      adm.Admit? && action.Fetch? && Owns(old(store.blogs), action.id, adm.user) ==>
        outcome == Handled(OneBlog(old(store.blogs)[action.id])) && store.blogs == old(store.blogs)
    ensures var adm := AdmissionFor(table(RouteOf(action)), header, verify);
      adm.Admit? && action.Toggle? && Owns(old(store.blogs), action.id, adm.user) ==>
        var was := old(store.blogs)[action.id];
        store.blogs == old(store.blogs)[action.id := was.(isPublished := !was.isPublished)] &&
        outcome == Handled(Toggled(store.blogs[action.id]))
    ensures var adm := AdmissionFor(table(RouteOf(action)), header, verify);
      adm.Admit? && action.Remove? && Owns(old(store.blogs), action.id, adm.user) ==>
        store.blogs == old(store.blogs) - {action.id} && outcome == Handled(Message(200, true, DeletedMessage))
  {
    var req := new Request(header);
    var res := new Response();
    var nextCalls: nat;
    match table(RouteOf(action)) {
      case Strict =>
        nextCalls := Auth(req, res, verify);
      case Optional =>
        nextCalls := OptionalAuth(req, res, verify);
      case Open =>
        nextCalls := 1;
    }
    if nextCalls == 0 {
      return Answered(res.sent.value);
    }
    var reply: Reply;
    match action {
      case ListAll =>
        reply := store.GetAllBlogs(req.user);
      case Fetch(id) =>
        reply := store.GetBlogById(id, req.user);
      case Toggle(id) =>
        reply := store.TogglePublish(id, req.user);
      case Remove(id) =>
        reply := store.DeleteBlogById(id, req.user);
    }
    outcome := Handled(reply);
  }

  /** The author of a blog, holding a valid token, cannot toggle it through
      the routes as mounted: the handler answers 500. */
  method AsWrittenOwnerToggleFails(store: BlogStore, id: BlogId, token: string, verify: string -> Option<Claims>)
    returns (outcome: Outcome)
    requires store.Valid()
    requires ' ' !in token && Owns(store.blogs, id, verify(token))
    modifies store`blogs
    ensures outcome == Handled(Message(500, false, NoUserMessage))
    ensures store.blogs == old(store.blogs)
  {
    outcome := Serve(GuardOf, Toggle(id), Some(BearerPrefix + token), store, verify);
  }

  /** With strict `auth` on the toggle route the same request succeeds. */
  method IntendedOwnerToggleSucceeds(store: BlogStore, id: BlogId, token: string, verify: string -> Option<Claims>)
    returns (outcome: Outcome)
    requires store.Valid()
    requires ' ' !in token && Owns(store.blogs, id, verify(token))
    modifies store`blogs
    ensures outcome.Handled? && outcome.reply.Toggled?
    ensures store.blogs == old(store.blogs)[id := old(store.blogs)[id].(isPublished := !old(store.blogs)[id].isPublished)]
  {
    IntendedOwnerRoutesSeeTokenUser(ToggleRoute, token, verify);
    outcome := Serve(IntendedGuardOf, Toggle(id), Some(BearerPrefix + token), store, verify);
  }
}
