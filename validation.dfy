/**
 * The two request-body schemas of the post resource: `postSchema` (used by create)
 * and `postUpdateSchema` (used by update). Each field is a string with a maximum
 * length; `postSchema` requires title, description and post_type, while
 * `postUpdateSchema` makes every field optional. Validation stops at the first
 * violation, and the handlers surface only that one.
 */
module Validation {
  import opened Wrappers

  /** The four content fields, in the order both schemas declare them. */
  datatype Field = Title | Description | PostType | ImageUrl

  /** A request body as the schemas see it: each field absent or a string. */
  datatype Payload = Payload(
    title: Option<string>,
    description: Option<string>,
    post_type: Option<string>,
    image_url: Option<string>)

  datatype Schema = PostSchema | PostUpdateSchema

  /** One field-level violation: a required field left out, or a string over its limit. */
  datatype Violation = Missing(field: Field) | TooLong(field: Field)

  const FieldOrder: seq<Field> := [Title, Description, PostType, ImageUrl]

  const EmptyPayload: Payload := Payload(None, None, None, None)

  function MaxLength(f: Field): nat {
    match f
    case Title => 100
    case Description => 1000
    case PostType => 30
    case ImageUrl => 255
  }

  predicate Required(s: Schema, f: Field) {
    s == PostSchema && f != ImageUrl
  }

  function Value(p: Payload, f: Field): Option<string> {
    match f
    case Title => p.title
    case Description => p.description
    case PostType => p.post_type
    case ImageUrl => p.image_url
  }

  /** Reference reading of one schema rule: present when required, and within the limit when present. */
  ghost predicate FieldConforms(s: Schema, p: Payload, f: Field) {
    && (Required(s, f) ==> Value(p, f).Some?)
    && (Value(p, f).Some? ==> |Value(p, f).value| <= MaxLength(f))
  }

  /** Reference reading of a whole schema: every field conforms. */
  ghost predicate Conforms(s: Schema, p: Payload) {
    && FieldConforms(s, p, Title)
    && FieldConforms(s, p, Description)
    && FieldConforms(s, p, PostType)
    && FieldConforms(s, p, ImageUrl)
  }

  /** The violation, if any, that field `f` of `p` commits under `s`. */
  function CheckField(s: Schema, p: Payload, f: Field): (r: Option<Violation>)
    ensures r.None? <==> FieldConforms(s, p, f)
    ensures r.Some? ==> r.value.field == f
    ensures r == Some(Missing(f)) <==> Required(s, f) && Value(p, f).None?
  {
    match Value(p, f)
    case None => if Required(s, f) then Some(Missing(f)) else None
    case Some(v) => if |v| > MaxLength(f) then Some(TooLong(f)) else None
  }

  /** All violations of `p` among the fields `fs`, in the order of `fs`. */
  function Violations(s: Schema, p: Payload, fs: seq<Field>): (r: seq<Violation>)
    ensures r == [] <==> forall i :: 0 <= i < |fs| ==> FieldConforms(s, p, fs[i])
    ensures forall i :: 0 <= i < |r| ==> r[i].field in fs && CheckField(s, p, r[i].field) == Some(r[i])
    ensures r != [] ==> exists i :: 0 <= i < |fs| && fs[i] == r[0].field &&
                                    forall j :: 0 <= j < i ==> FieldConforms(s, p, fs[j])
  {
    if fs == [] then []
    else
      match CheckField(s, p, fs[0])
      case Some(v) => [v] + Violations(s, p, fs[1..])
      case None =>
        var rest := Violations(s, p, fs[1..]);
        assert rest != [] ==> exists i :: 0 <= i < |fs| && fs[i] == rest[0].field &&
                                          forall j :: 0 <= j < i ==> FieldConforms(s, p, fs[j]) by {
          if rest != [] {
            var i :| 0 <= i < |fs[1..]| && fs[1..][i] == rest[0].field &&
                     forall j :: 0 <= j < i ==> FieldConforms(s, p, fs[1..][j]);
            assert forall j :: 0 <= j < i + 1 ==> FieldConforms(s, p, fs[j]) by {
              forall j | 0 <= j < i + 1 ensures FieldConforms(s, p, fs[j]) {
                if j > 0 { assert fs[j] == fs[1..][j - 1]; }
              }
            }
          }
        }
        rest
  }

  /**
   * `schema.validate(body)`: the first violation in declaration order, or
   * `None` when the body is accepted.
   */
  function Validate(s: Schema, p: Payload): (r: Option<Violation>)
    ensures r.None? <==> Conforms(s, p)
    ensures r.Some? ==> !FieldConforms(s, p, r.value.field) && CheckField(s, p, r.value.field) == r
    ensures r.Some? ==> exists i :: 0 <= i < |FieldOrder| && FieldOrder[i] == r.value.field &&
                                    forall j :: 0 <= j < i ==> FieldConforms(s, p, FieldOrder[j])
  {
    var vs := Violations(s, p, FieldOrder);
    assert Conforms(s, p) <==> forall i :: 0 <= i < |FieldOrder| ==> FieldConforms(s, p, FieldOrder[i]) by {
      assert FieldOrder[0] == Title && FieldOrder[1] == Description;
      assert FieldOrder[2] == PostType && FieldOrder[3] == ImageUrl;
    }
    if vs == [] then None else Some(vs[0])
  }

  function Label(f: Field): string {
    match f
    case Title => "\"title\""
    case Description => "\"description\""
    case PostType => "\"post_type\""
    case ImageUrl => "\"image_url\""
  }

  function DecimalText(n: nat): string {
    var digit := ['0', '1', '2', '3', '4', '5', '6', '7', '8', '9'][n % 10];
    if n < 10 then [digit] else DecimalText(n / 10) + [digit]
  }

  /** The human-readable message of a violation (`error.details[0].message`). */
  function Message(v: Violation): string {
    match v
    case Missing(f) => Label(f) + " is required"
    case TooLong(f) =>
      Label(f) + " length must be less than or equal to " + DecimalText(MaxLength(f)) + " characters long"
  }

  // Properties of the two schemas.

  /** `postSchema` rejects a body that leaves out title, description or post_type. */
  lemma PostSchemaRequiresFields(p: Payload, f: Field)
    requires f != ImageUrl && Value(p, f).None?
    ensures Validate(PostSchema, p).Some?
  {
    assert !FieldConforms(PostSchema, p, f);
  }

  /** `postSchema` accepts a body whose required fields are present and all fields within their limits. */
  lemma PostSchemaAccepts(p: Payload)
    requires p.title.Some? && |p.title.value| <= 100
    requires p.description.Some? && |p.description.value| <= 1000
    requires p.post_type.Some? && |p.post_type.value| <= 30
    requires p.image_url.None? || |p.image_url.value| <= 255
    ensures Validate(PostSchema, p) == None
  {
  }

  /** Both schemas reject a present field that is longer than its maximum, and the reported violation is a length one. */
  lemma TooLongRejected(s: Schema, p: Payload, f: Field)
    requires Value(p, f).Some? && |Value(p, f).value| > MaxLength(f)
    ensures Validate(s, p).Some?
    ensures Validate(s, p).value.TooLong? || Validate(s, p).value.field != f
  {
    assert !FieldConforms(s, p, f);
  }

  /** `postUpdateSchema` accepts the empty body: every field is optional. */
  lemma UpdateSchemaAcceptsEmpty()
    ensures Validate(PostUpdateSchema, EmptyPayload) == None
  {
  }

  /** `postUpdateSchema` accepts exactly the bodies whose present fields are within their limits. */
  lemma UpdateSchemaOnlyLimits(p: Payload)
    ensures Validate(PostUpdateSchema, p).None? <==>
            forall f :: Value(p, f).Some? ==> |Value(p, f).value| <= MaxLength(f)
  {
    if Validate(PostUpdateSchema, p).None? {
      forall f | Value(p, f).Some? ensures |Value(p, f).value| <= MaxLength(f) {
        assert FieldConforms(PostUpdateSchema, p, f);
      }
    }
  }

  /** Every body `postSchema` accepts is also accepted by `postUpdateSchema`. */
  lemma CreateAcceptedImpliesUpdateAccepted(p: Payload)
    requires Validate(PostSchema, p).None?
    ensures Validate(PostUpdateSchema, p).None?
  {
  }

  /** Leaving out image_url never causes a rejection, in either schema. */
  lemma ImageUrlOptional(s: Schema, p: Payload)
    ensures Validate(s, p) != Some(Missing(ImageUrl))
    ensures Validate(s, p).None? ==> Validate(s, p.(image_url := None)).None?
  {
  }

  /** The reported violation belongs to the first offending field in declaration order. */
  lemma FirstViolationReported(s: Schema, p: Payload)
    requires !Conforms(s, p)
    ensures Validate(s, p).Some?
    ensures !FieldConforms(s, p, Title) ==> Validate(s, p).value.field == Title
    ensures FieldConforms(s, p, Title) && !FieldConforms(s, p, Description) ==>
              Validate(s, p).value.field == Description
    ensures FieldConforms(s, p, Title) && FieldConforms(s, p, Description) && !FieldConforms(s, p, PostType) ==>
              Validate(s, p).value.field == PostType
  {
    var r := Validate(s, p);
    var i :| 0 <= i < |FieldOrder| && FieldOrder[i] == r.value.field &&
             forall j :: 0 <= j < i ==> FieldConforms(s, p, FieldOrder[j]);
    assert FieldOrder[0] == Title && FieldOrder[1] == Description && FieldOrder[2] == PostType;
  }
}
