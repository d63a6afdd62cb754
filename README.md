# Post resource handlers — a Dafny model

This project models the request handlers of a small REST API for "posts"
(`createPost`, `getAllPosts`, `getAllPostsPaginated`, `findPost`, `updatePost`,
`deletePost` in `src/postController.js`) and the two Joi schemas that check request
bodies (`postSchema`, `postUpdateSchema` in `src/utils/validation.js`).

The persistent store (a Prisma table) is a map from UUID to a `Post` record. The three
handlers that write (create, update, delete) are pure steps from the store before the
request to a `Step`: a `Response` (an HTTP status and a body) and the store after it.
The three that only read (get-one, list, paginated list) are functions from the store to
a `Response`, so they leave the store unchanged by construction. The three handlers that write to the table are also methods
of a class `PostController` that holds the table in a field. Each method is proved to do
exactly what its step function says.

Files and modules:

- `wrappers.dfy` (`Wrappers`): `Option`, for absent JSON fields and unparsable query values.
- `validation.dfy` (`Validation`): the payload, the two schemas, and validation that
  returns the first violation. `FieldConforms` and `Conforms` are a declarative reference
  reading of the schemas, and `Validate` is proved to agree with them.
- `posts.dfy` (`Posts`): the `Post` record and the `Store` map. Also the store's
  enumeration of its records (`StoredPosts`, in an unspecified order), the newest-first
  ordering (an insertion sort on `creation_date`, proved sorted and a permutation) and
  the `skip`/`take` window.
- `handlers.dfy` (`Handlers`): the response bodies, one step function per handler
  (`CreateStep`, `GetAllPosts`, `GetAllPostsPaginated`/`PageResponse`, `FindPost`,
  `UpdateStep`, `DeleteStep`) and the lemmas about them.
- `controller.dfy` (`Controller`): `class PostController` with field `posts`, the methods
  `CreatePost`, `UpdatePost` and `DeletePost`, and a client method `Lifecycle` that runs
  create, get-one, update and delete on a fresh controller.

The parts of the environment that are not logic become parameters:

- the UUID the store generates (`generatedId`);
- the time it stamps (`now`);
- the parsed query values. `parseInt(x) || d` is modelled on an `Option<int>`, where
  `None` stands for a missing or unparsable value.

Both Joi and the store can fail. Two of the store's failures are kept, as a 500 with
`StoreErrorJson`:

- a generated UUID that is already a key;
- a negative `skip` or `take`.

The two 400 answers differ as they do in the source. Create sends `{ error: message }`
(`ErrorJson`). Update sends the bare message (`Text`).

## Model

| member | source | states |
|---|---|---|
| `Validation.CheckField` | src/utils/validation.js:3-15 | a field gives no violation exactly when it conforms (present if required, within its maximum length if present); a violation names that field, and it is `Missing` exactly when a required field is absent |
| `Validation.Violations` | src/utils/validation.js:3-15 | the list of violations over a field sequence is empty iff every listed field conforms; each entry is that field's violation; the first entry belongs to the first non-conforming field |
| `Validation.Validate` | src/utils/validation.js:3-15 | `schema.validate(body)` accepts iff the body conforms to the schema; otherwise it reports a genuine violation of the first offending field in declaration order |
| `Validation.PostSchemaRequiresFields` | src/utils/validation.js:4-6 | `postSchema` rejects a body that leaves out title, description or post_type |
| `Validation.PostSchemaAccepts` | src/utils/validation.js:3-8 | `postSchema` accepts title ≤ 100, description ≤ 1000, post_type ≤ 30 characters, with image_url absent or ≤ 255 |
| `Validation.TooLongRejected` | src/utils/validation.js:4-14 | in both schemas a present field longer than 100/1000/30/255 causes rejection |
| `Validation.UpdateSchemaAcceptsEmpty` | src/utils/validation.js:10-15 | `postUpdateSchema` accepts the empty body |
| `Validation.UpdateSchemaOnlyLimits` | src/utils/validation.js:10-15 | `postUpdateSchema` accepts a body iff every present field is within its limit |
| `Validation.CreateAcceptedImpliesUpdateAccepted` | src/utils/validation.js:3-15 | every body `postSchema` accepts, `postUpdateSchema` accepts too |
| `Validation.ImageUrlOptional` | src/utils/validation.js:7-14 | a missing image_url is never the reported violation, and dropping image_url from an accepted body keeps it accepted |
| `Validation.FirstViolationReported` | src/utils/validation.js:3-8 | the reported violation is that of title if title fails, else of description, else of post_type |
| `Posts.StoredPosts` | src/postController.js:32 | the store's enumeration holds each stored record, nothing else, one entry per key, and no UUID twice |
| `Posts.InsertByDate` | src/postController.js:54-56 | inserting into a newest-first sequence keeps it newest first and adds exactly that record |
| `Posts.SortByDateDesc` | src/postController.js:54-56 | the ordering by `creation_date` descending is newest first and a permutation of its input |
| `Posts.Window` | src/postController.js:52-53 | `skip`/`take` yields the records at positions [skip, skip + take) that exist, at most `take` |
| `Posts.WindowSlice` | src/postController.js:51-57 | a window starting inside the sequence is a contiguous slice of it and keeps newest-first order |
| `Posts.NewestOrder` | src/postController.js:51-57 | the order pagination reads is a newest-first arrangement of exactly the stored records |
| `Handlers.CreateInvalid` | src/postController.js:10-13 | an invalid create body gets 400 `{error}` with the first violation's message and the store is unchanged |
| `Handlers.CreateValid` | src/postController.js:15-24 | a valid body with a new UUID gets 201 and the new record; the record holds the body's content with equal creation and update dates; the store gains exactly that key and no other record changes |
| `Handlers.CreateStatus` | src/postController.js:7-27 | create answers 201 iff the body is valid and the UUID is new, 400 iff the body is invalid, and changes nothing unless it answers 201 |
| `Handlers.CreateThenFind` | src/postController.js:15-24 | after a successful create, get-one of the new UUID returns the created record |
| `Handlers.GetAllPosts` | src/postController.js:30-37 | list answers 200 with every stored record, one per key, and nothing else |
| `Handlers.PageDefault` | src/postController.js:41 | a missing, unparsable or zero page behaves as page 1, whatever the limit |
| `Handlers.LimitDefault` | src/postController.js:42 | a missing, unparsable or zero limit behaves as limit 10, whatever the page |
| `Handlers.PaginatedBadRequest` | src/postController.js:44-47 | the paginated list answers 400 "page and limit must be positive intergers." iff both parsed values are below 1 |
| `Handlers.PageWindow` | src/postController.js:49-67 | with page, limit ≥ 1 and offset = (page - 1) * limit below the record count, the answer is 200 with the slice [offset, offset + min(limit, n - offset)) of the newest-first order; it is newest first and made of stored records |
| `Handlers.PageNotFound` | src/postController.js:59-65 | with page and limit ≥ 1 the answer is 404 with the "exceeds the number of pages" message iff the offset is at or past the record count (so an empty store gives 404), else 200 |
| `Handlers.FirstPageSize` | src/postController.js:49-57 | page 1 of a store with n > 0 records holds min(n, limit) records |
| `Handlers.FirstPageStartsNewest` | src/postController.js:54-56 | the first record of page 1 is at least as new as every stored record |
| `Handlers.FindPost` | src/postController.js:73-84 | get-one answers 200 with the stored record iff the UUID is present, else 404 `{error: "Post not found"}` |
| `Handlers.UpdateAbsent` | src/postController.js:92-94 | update of an absent UUID answers 404 "Post not found" whatever the body, store unchanged |
| `Handlers.UpdateInvalid` | src/postController.js:95 | update of a present UUID with an invalid body answers 400 with the bare message text, store unchanged |
| `Handlers.UpdateValid` | src/postController.js:97-106 | a successful update keeps UUID and creation date, sets the update date, replaces supplied fields, keeps unsupplied ones, keeps the key set, and changes no other record |
| `Handlers.UpdateTitleOnly` | src/postController.js:97-106 | an update supplying only a title changes the title and update date and nothing else |
| `Handlers.UpdateEmptyBody` | src/postController.js:97-106 | an update with the empty body succeeds and changes only the update date |
| `Handlers.DeleteOutcome` | src/postController.js:112-121 | delete of an absent UUID answers 404 and changes nothing; otherwise it answers the pre-deletion record, removes exactly that key, and changes no other record |
| `Handlers.DeleteThenFind` | src/postController.js:115-119 | after delete, get-one and delete of the same UUID answer 404 |
| `Handlers.NotFoundSymmetry` | src/postController.js:73-121 | get-one, update and delete of an absent UUID all answer 404 "Post not found" and leave the store unchanged |
| `Handlers.StepsKeepWellKeyed` | src/postController.js:7-125 | create, update and delete keep every record stored under its own UUID |
| `Controller.PostController.CreatePost` | src/postController.js:7-28 | the in-place create returns the response and leaves the table `CreateStep` prescribes, keeping the table well keyed |
| `Controller.PostController.UpdatePost` | src/postController.js:86-110 | the in-place update returns the response and leaves the table `UpdateStep` prescribes, keeping the table well keyed |
| `Controller.PostController.DeletePost` | src/postController.js:112-125 | the in-place delete returns the response and leaves the table `DeleteStep` prescribes, keeping the table well keyed |

## Left out

- `Handlers.PageResponse`: the behaviour for a negative `skip` or `take` is not modelled. This happens when exactly one of page and limit is negative. The store's semantics for it is unknown, so the model answers 500 (`StoreErrorJson`). The guard that lets such requests through (`page < 1 && limit < 1`) is kept as written.
- Other store failures (connection loss, the catch-all `catch (error)` branches) beyond the two kept above. The 500 body wraps the store's error object; the model keeps only `StoreErrorJson`.
- Joi semantics other than required/optional and maximum length:
  - the rejection of unknown keys and of empty strings;
  - type checks and coercion (every field is taken to be a string or absent);
  - `max` counts UTF-16 code units, while the model counts `seq<char>` elements.
- The message text follows Joi's default templates (`"title" is required`, `"title" length must be less than or equal to 100 characters long`). Only which violation is reported is proved, not the text.
- Timestamps are opaque integers supplied by the store (`now`). The invariant that creation_date ≤ update_date needs a monotonic clock, which the model does not have, so it is not stated. The claim that an unchanged record has equal dates is proved at creation (`Handlers.CreateValid`).
- UUID generation is a parameter. Uniqueness is the store's job; the model answers 500 when a generated UUID is already a key.
- `getAllPosts` returns records in the store's native order. The model fixes no order: it is `Posts.StoredPosts`, an arbitrary enumeration. Records with equal `creation_date` are therefore paginated in an arbitrary but consistent order.
- Parsing of query strings (`parseInt` of text such as "2abc") is not modelled. The parsed value, or its absence, is the input.
- Express routing and the server (`src/server.js`, `src/Routes/routes.js`), the Prisma client, async/await and concurrency are not part of this model.
