/**
 * The six request handlers of the post resource, each as a pure step from the
 * store before the request to a response and the store after it. A response is
 * an HTTP status and a body; the store failures the model keeps are a generated
 * UUID that clashes with a stored one and a negative skip or take.
 */
module Handlers {
  import opened Wrappers
  import opened Validation
  import opened Posts

  /** The JSON (or text) a handler sends back. */
  datatype Body =
    | PostJson(post: Post)             // `res.json(post)`
    | PostListJson(posts: seq<Post>)   // `res.json(posts)`
    | ErrorJson(message: string)       // `res.json({ error: message })`
    | Text(message: string)            // `res.send(message)`
    | StoreErrorJson                   // `res.status(500).json({ error })`

  datatype Response = Response(status: nat, body: Body)

  /** What a handler does: the response it sends and the store it leaves. */
  datatype Step = Step(response: Response, store: Store)

  const NotFoundMessage: string := "Post not found"
  const PositiveIntegersMessage: string := "page and limit must be positive intergers."
  const PageExceedsMessage: string :=
    "the page you are trying to access exceeds the number of pages that contain posts."

  const NotFound: Response := Response(404, ErrorJson(NotFoundMessage))

  /** The content fields of a record equal those of an accepted create body. */
  ghost predicate HoldsContent(post: Post, body: Payload) {
    && Some(post.title) == body.title
    && Some(post.description) == body.description
    && Some(post.post_type) == body.post_type
    && post.image_url == body.image_url
  }

  /** Every key other than `k` holds the same record in both stores. */
  ghost predicate OthersUnchanged(before: Store, after: Store, k: Uuid) {
    && (forall k' :: k' in after && k' != k ==> k' in before)
    && (forall k' :: k' in before && k' != k ==> k' in after && after[k'] == before[k'])
  }

  // createPost

  /**
   * `createPost`: validate against `postSchema`; on success the store inserts the
   * record under the UUID it generated, with both timestamps set to `now`.
   */
  function CreateStep(m: Store, body: Payload, generatedId: Uuid, now: Timestamp): Step {
    match Validate(PostSchema, body)
    case Some(v) => Step(Response(400, ErrorJson(Message(v))), m)
    case None =>
      if generatedId in m then Step(Response(500, StoreErrorJson), m)
      else
        var post := Post(generatedId, body.title.value, body.description.value, body.post_type.value,
                         body.image_url, now, now);
        Step(Response(201, PostJson(post)), m[generatedId := post])
  }

  /** An invalid body is answered 400 with the first violation's message, and the store is left as it was. */
  lemma CreateInvalid(m: Store, body: Payload, generatedId: Uuid, now: Timestamp)
    requires !Conforms(PostSchema, body)
    ensures var step := CreateStep(m, body, generatedId, now);
            && step.response == Response(400, ErrorJson(Message(Validate(PostSchema, body).value)))
            && step.store == m
  {
  }

  /**
   * A valid body is answered 201 with a record that holds the body's content under a UUID
   * not previously present; the store gains exactly that record and nothing else changes.
   */
  lemma CreateValid(m: Store, body: Payload, generatedId: Uuid, now: Timestamp)
    requires Conforms(PostSchema, body) && generatedId !in m
    ensures var step := CreateStep(m, body, generatedId, now);
            && step.response.status == 201
            && step.response.body.PostJson?
            && var post := step.response.body.post;
            && post.uuid == generatedId
            && HoldsContent(post, body)
            && post.creation_date == post.update_date
            && step.store.Keys == m.Keys + {generatedId}
            && |step.store| == |m| + 1
            && step.store[generatedId] == post
            && OthersUnchanged(m, step.store, generatedId)
  {
  }

  /** Create succeeds exactly when the body is valid and the generated UUID is new. */
  lemma CreateStatus(m: Store, body: Payload, generatedId: Uuid, now: Timestamp)
    ensures var r := CreateStep(m, body, generatedId, now).response;
            && (r.status == 201 <==> Conforms(PostSchema, body) && generatedId !in m)
            && (r.status == 400 <==> !Conforms(PostSchema, body))
            && (r.status != 201 ==> CreateStep(m, body, generatedId, now).store == m)
  {
  }

  /** Round trip: get-one on the UUID of a created record returns that very record. */
  lemma CreateThenFind(m: Store, body: Payload, generatedId: Uuid, now: Timestamp)
    requires CreateStep(m, body, generatedId, now).response.status == 201
    ensures var step := CreateStep(m, body, generatedId, now);
            && FindPost(step.store, generatedId) == Response(200, step.response.body)
            && HoldsContent(step.response.body.post, body)
  {
  }

  // getAllPosts

  /** `getAllPosts`: every stored record, in the store's own order. */
  ghost function GetAllPosts(m: Store): (r: Response)
    ensures r.status == 200 && r.body.PostListJson?
    ensures |r.body.posts| == |m|
    ensures forall p :: p in r.body.posts <==> p in m.Values
    ensures WellKeyed(m) ==> forall i, j :: 0 <= i < j < |r.body.posts| ==>
                                              r.body.posts[i].uuid != r.body.posts[j].uuid
  {
    Response(200, PostListJson(StoredPosts(m)))
  }

  // getAllPostsPaginated

  /** `parseInt(q) || d`: a missing or unparsable value (`None`) and 0 fall back to `d`. */
  function ParsedOr(q: Option<int>, d: int): int {
    match q
    case None => d
    case Some(n) => if n == 0 then d else n
  }

  /**
   * `getAllPostsPaginated`: page and limit default to 1 and 10 when missing, unparsable
   * or 0, and the request is answered as `PageResponse` says.
   */
  ghost function GetAllPostsPaginated(m: Store, pageQuery: Option<int>, limitQuery: Option<int>): Response {
    PageResponse(m, ParsedOr(pageQuery, 1), ParsedOr(limitQuery, 10))
  }

  /** The number of records that come before page `page`: (page - 1) * limit. */
  function PageOffset(page: int, limit: int): nat
    requires page >= 1 && limit >= 1
  {
    (page - 1) * limit
  }

  /**
   * The paginated answer for parsed `page` and `limit`: 400 only when both are below 1;
   * otherwise the window at offset (page - 1) * limit of the records newest first, 404
   * when that window is empty. A negative skip or take (exactly one of the two below 1)
   * is left to the store, which the model treats as a store failure.
   */
  ghost function PageResponse(m: Store, page: int, limit: int): Response {
    if page < 1 && limit < 1 then Response(400, ErrorJson(PositiveIntegersMessage))
    else if page < 1 || limit < 1 then Response(500, StoreErrorJson)
    else
      var posts := Window(NewestOrder(m), PageOffset(page, limit), limit);
      if |posts| == 0 then Response(404, ErrorJson(PageExceedsMessage))
      else Response(200, PostListJson(posts))
  }

  /** A missing, unparsable or zero page behaves as page 1, whatever the limit. */
  lemma PageDefault(m: Store, pageQuery: Option<int>, limitQuery: Option<int>)
    requires pageQuery.None? || pageQuery == Some(0)
    ensures GetAllPostsPaginated(m, pageQuery, limitQuery) == GetAllPostsPaginated(m, Some(1), limitQuery)
  {
  }

  /** A missing, unparsable or zero limit behaves as limit 10, whatever the page. */
  lemma LimitDefault(m: Store, pageQuery: Option<int>, limitQuery: Option<int>)
    requires limitQuery.None? || limitQuery == Some(0)
    ensures GetAllPostsPaginated(m, pageQuery, limitQuery) == GetAllPostsPaginated(m, pageQuery, Some(10))
  {
  }

  /** 400 is returned exactly when both parsed values are below 1. */
  lemma PaginatedBadRequest(m: Store, pageQuery: Option<int>, limitQuery: Option<int>)
    ensures var r := GetAllPostsPaginated(m, pageQuery, limitQuery);
            && (r.status == 400 <==> ParsedOr(pageQuery, 1) < 1 && ParsedOr(limitQuery, 10) < 1)
            && (r.status == 400 ==> r.body == ErrorJson(PositiveIntegersMessage))
  {
  }

  /**
   * With page and limit at least 1 and the offset (page - 1) * limit inside the store,
   * the answer is 200 with the run of records newest first that starts at the offset:
   * min(limit, n - offset) of them, newest first themselves, all of them stored records.
   */
  lemma PageWindow(m: Store, page: int, limit: int)
    requires page >= 1 && limit >= 1 && PageOffset(page, limit) < |m|
    ensures var offset, r := PageOffset(page, limit), PageResponse(m, page, limit);
            && r.status == 200
            && r.body.PostListJson?
            && |r.body.posts| == Min(limit, |m| - offset)
            && r.body.posts == NewestOrder(m)[offset .. offset + |r.body.posts|]
            && NewestFirst(r.body.posts)
            && forall p :: p in r.body.posts ==> p in m.Values
  {
    WindowSlice(NewestOrder(m), PageOffset(page, limit), limit);
  }

  /**
   * With page and limit at least 1 the page is empty, and answered 404, exactly when the
   * offset reaches past the last record; in particular an empty store always gives 404.
   */
  lemma PageNotFound(m: Store, page: int, limit: int)
    requires page >= 1 && limit >= 1
    ensures var r := PageResponse(m, page, limit);
            && (r.status == 404 <==> PageOffset(page, limit) >= |m|)
            && (r.status == 404 ==> r.body == ErrorJson(PageExceedsMessage))
            && (r.status != 404 ==> r.status == 200)
  {
  }

  /** The first page holds min(n, limit) records when n records are stored. */
  lemma FirstPageSize(m: Store, limit: int)
    requires |m| > 0 && limit >= 1
    ensures var r := PageResponse(m, 1, limit);
            && r.status == 200
            && |r.body.posts| == Min(|m|, limit)
  {
  }

  /** The first record of the first page is the most recently created post of the store. */
  lemma FirstPageStartsNewest(m: Store, limit: int, p: Post)
    requires PageResponse(m, 1, limit).status == 200
    requires p in m.Values
    ensures PageResponse(m, 1, limit).body.posts[0].creation_date >= p.creation_date
  {
    var order := NewestOrder(m);
    var j :| 0 <= j < |order| && order[j] == p;
    if j > 0 {
      assert order[0].creation_date >= order[j].creation_date;
    }
  }

  // findPost

  /** `findPost`: the stored record, or 404 "Post not found". */
  function FindPost(m: Store, id: Uuid): (r: Response)
    ensures r.status == 200 <==> id in m
    ensures id in m ==> r.body == PostJson(m[id])
    ensures id !in m ==> r == NotFound
  {
    if id in m then Response(200, PostJson(m[id])) else NotFound
  }

  // updatePost

  /** A partial update: supplied content fields replace the stored ones, and `now` becomes the update date. */
  function Patch(post: Post, body: Payload, now: Timestamp): Post {
    post.(
      title := body.title.GetOr(post.title),
      description := body.description.GetOr(post.description),
      post_type := body.post_type.GetOr(post.post_type),
      image_url := if body.image_url.Some? then body.image_url else post.image_url,
      update_date := now)
  }

  /**
   * `updatePost`: existence is decided first (404), then the `postUpdateSchema` result
   * (400, sent as bare text), then the patch is written and the new record returned.
   */
  function UpdateStep(m: Store, id: Uuid, body: Payload, now: Timestamp): Step {
    var error := Validate(PostUpdateSchema, body);
    if id !in m then Step(NotFound, m)
    else if error.Some? then Step(Response(400, Text(Message(error.value))), m)
    else
      var post := Patch(m[id], body, now);
      Step(Response(200, PostJson(post)), m[id := post])
  }

  /** An absent UUID gives 404 "Post not found" whatever the body, and changes nothing. */
  lemma UpdateAbsent(m: Store, id: Uuid, body: Payload, now: Timestamp)
    requires id !in m
    ensures UpdateStep(m, id, body, now) == Step(NotFound, m)
  {
  }

  /** A present UUID with an invalid body gives 400 with the violation's message as text, and changes nothing. */
  lemma UpdateInvalid(m: Store, id: Uuid, body: Payload, now: Timestamp)
    requires id in m && !Conforms(PostUpdateSchema, body)
    ensures var step := UpdateStep(m, id, body, now);
            && step.response == Response(400, Text(Message(Validate(PostUpdateSchema, body).value)))
            && step.store == m
  {
  }

  /**
   * A successful update keeps the UUID and creation date, replaces the supplied content
   * fields, keeps the unsupplied ones, and leaves every other record alone.
   */
  lemma UpdateValid(m: Store, id: Uuid, body: Payload, now: Timestamp)
    requires id in m && Conforms(PostUpdateSchema, body)
    ensures var step := UpdateStep(m, id, body, now);
            var before, after := m[id], step.store[id];
            && step.response == Response(200, PostJson(after))
            && step.store.Keys == m.Keys
            && after.uuid == before.uuid && after.creation_date == before.creation_date
            && after.update_date == now
            && after.title == (if body.title.Some? then body.title.value else before.title)
            && after.description == (if body.description.Some? then body.description.value else before.description)
            && after.post_type == (if body.post_type.Some? then body.post_type.value else before.post_type)
            && after.image_url == (if body.image_url.Some? then body.image_url else before.image_url)
            && OthersUnchanged(m, step.store, id)
  {
  }

  /** An update that supplies only a title changes the title and the update date and nothing else. */
  lemma UpdateTitleOnly(m: Store, id: Uuid, title: string, now: Timestamp)
    requires id in m && |title| <= 100
    ensures var step := UpdateStep(m, id, EmptyPayload.(title := Some(title)), now);
            && step.response.status == 200
            && step.store == m[id := m[id].(title := title, update_date := now)]
  {
  }

  /** The empty body leaves every content field of the record as it was. */
  lemma UpdateEmptyBody(m: Store, id: Uuid, now: Timestamp)
    requires id in m
    ensures var step := UpdateStep(m, id, EmptyPayload, now);
            && step.response.status == 200
            && step.store == m[id := m[id].(update_date := now)]
  {
    UpdateSchemaAcceptsEmpty();
  }

  // deletePost

  /** `deletePost`: 404 when absent; otherwise the key is removed and the record as it was is returned. */
  function DeleteStep(m: Store, id: Uuid): Step {
    if id !in m then Step(NotFound, m)
    else Step(Response(200, PostJson(m[id])), m - {id})
  }

  /**
   * Deleting answers 404 and changes nothing when the UUID is absent; otherwise it answers
   * the pre-deletion record, the key is gone, and every other record is unchanged.
   */
  lemma DeleteOutcome(m: Store, id: Uuid)
    ensures var step := DeleteStep(m, id);
            && (id !in m ==> step == Step(NotFound, m))
            && (id in m ==> && step.response == Response(200, PostJson(m[id]))
                            && id !in step.store
                            && step.store.Keys == m.Keys - {id}
                            && |step.store| == |m| - 1
                            && OthersUnchanged(m, step.store, id))
  {
    if id in m {
      assert (m - {id}).Keys == m.Keys - {id};
    }
  }

  /** Delete is terminal: a later get-one (or delete) of the same UUID answers 404. */
  lemma DeleteThenFind(m: Store, id: Uuid)
    ensures FindPost(DeleteStep(m, id).store, id) == NotFound
    ensures DeleteStep(DeleteStep(m, id).store, id).response == NotFound
  {
  }

  /** Get-one, update and delete agree on an absent UUID: 404 "Post not found", store unchanged. */
  lemma NotFoundSymmetry(m: Store, id: Uuid, body: Payload, now: Timestamp)
    requires id !in m
    ensures FindPost(m, id) == NotFound
    ensures UpdateStep(m, id, body, now) == Step(NotFound, m)
    ensures DeleteStep(m, id) == Step(NotFound, m)
  {
  }

  // The store invariant.

  /** Every handler that writes keeps each record under its own UUID. */
  lemma StepsKeepWellKeyed(m: Store, body: Payload, id: Uuid, now: Timestamp)
    requires WellKeyed(m)
    ensures WellKeyed(CreateStep(m, body, id, now).store)
    ensures WellKeyed(UpdateStep(m, id, body, now).store)
    ensures WellKeyed(DeleteStep(m, id).store)
  {
  }
}
