/**
 * The controller object over a live store: the three handlers that write to the
 * table change its `posts` field in place, and each is proved to do exactly what
 * the corresponding step of `Handlers` says. The read-only handlers are the
 * functions `FindPost`, `GetAllPosts` and `GetAllPostsPaginated` of `Handlers`,
 * applied to `posts`.
 */
module Controller {
  import opened Wrappers
  import opened Validation
  import opened Posts
  import opened Handlers

  class PostController {
    /** The post table the store holds. */
    var posts: Store

    ghost predicate Valid()
      reads this
    {
      WellKeyed(posts)
    }

    constructor ()
      ensures Valid() && posts == map[]
    {
      posts := map[];
    }

    /** `createPost`, with the UUID and the timestamp the store generates for the new record. */
    method CreatePost(body: Payload, generatedId: Uuid, now: Timestamp) returns (r: Response)
      requires Valid()
      modifies this
      ensures Valid()
      ensures Step(r, posts) == CreateStep(old(posts), body, generatedId, now)
    {
      var error := Validate(PostSchema, body);
      if error.Some? {
        return Response(400, ErrorJson(Message(error.value)));
      }
      if generatedId in posts {
        return Response(500, StoreErrorJson);
      }
      var post := Post(generatedId, body.title.value, body.description.value, body.post_type.value,
                       body.image_url, now, now);
      posts := posts[generatedId := post];
      return Response(201, PostJson(post));
    }

    /** `updatePost`, with the update date the store assigns. */
    method UpdatePost(id: Uuid, body: Payload, now: Timestamp) returns (r: Response)
      requires Valid()
      modifies this
      ensures Valid()
      ensures Step(r, posts) == UpdateStep(old(posts), id, body, now)
    {
      var error := Validate(PostUpdateSchema, body);
      if id !in posts {
        return NotFound;
      }
      if error.Some? {
        return Response(400, Text(Message(error.value)));
      }
      var post := Patch(posts[id], body, now);
      posts := posts[id := post];
      return Response(200, PostJson(post));
    }

    /** `deletePost`. */
    method DeletePost(id: Uuid) returns (r: Response)
      requires Valid()
      modifies this
      ensures Valid()
      ensures Step(r, posts) == DeleteStep(old(posts), id)
    {
      if id !in posts {
        return NotFound;
      }
      var post := posts[id];
      posts := posts - {id};
      return Response(200, PostJson(post));
    }
  }

  /** Create, then get-one, then delete, then get-one again, on a fresh controller. */
  method Lifecycle(body: Payload, id: Uuid, t0: Timestamp, t1: Timestamp)
    requires Conforms(PostSchema, body)
  {
    var c := new PostController();
    var created := c.CreatePost(body, id, t0);
    assert created.status == 201;
    assert FindPost(c.posts, id) == Response(200, created.body);
    var updated := c.UpdatePost(id, EmptyPayload, t1);
    assert updated.status == 200 by { UpdateSchemaAcceptsEmpty(); }
    var deleted := c.DeletePost(id);
    assert deleted == updated;
    assert FindPost(c.posts, id) == NotFound;
    assert c.posts == map[];
  }
}
