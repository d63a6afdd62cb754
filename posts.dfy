/**
 * The post record and the store that owns it. The store is a table keyed by
 * UUID; UUIDs and timestamps are values the store supplies, so they are
 * opaque here apart from the ordering of timestamps, which pagination uses.
 */
module Posts {
  import opened Wrappers

  type Uuid = string

  type Timestamp = int

  datatype Post = Post(
    uuid: Uuid,
    title: string,
    description: string,
    post_type: string,
    image_url: Option<string>,
    creation_date: Timestamp,
    update_date: Timestamp)

  /** The persistent table of posts, keyed by UUID. */
  type Store = map<Uuid, Post>

  /** Every record sits under its own UUID. */
  ghost predicate WellKeyed(m: Store) {
    forall k :: k in m ==> m[k].uuid == k
  }

  /**
   * The records of the store in the store's own, unspecified order
   * (what `findMany()` returns without an `orderBy`).
   */
  ghost function StoredPosts(m: Store): (r: seq<Post>)
    ensures |r| == |m|
    ensures forall p :: p in r <==> p in m.Values
    ensures WellKeyed(m) ==> forall i, j :: 0 <= i < j < |r| ==> r[i].uuid != r[j].uuid
    decreases |m|
  {
    if |m| == 0 then []
    else
      var k :| k in m;
      var rest := m - {k};
      assert rest.Keys == m.Keys - {k};
      assert forall p :: p in m.Values <==> p == m[k] || p in rest.Values by {
        forall p | p in m.Values ensures p == m[k] || p in rest.Values {
          var k' :| k' in m && m[k'] == p;
          if k' != k { assert k' in rest; }
        }
      }
      var tail := StoredPosts(rest);
      assert WellKeyed(m) ==> forall p :: p in tail ==> p.uuid != k by {
        if WellKeyed(m) {
          forall p | p in tail ensures p.uuid != k {
            var k' :| k' in rest && rest[k'] == p;
          }
        }
      }
      [m[k]] + tail
  }

  /** Newest first: creation dates never increase along the sequence. */
  ghost predicate NewestFirst(s: seq<Post>) {
    forall i, j :: 0 <= i < j < |s| ==> s[i].creation_date >= s[j].creation_date
  }

  /** A record no older than the head of a newest-first sequence can go in front of it. */
  lemma {:induction false} PrependKeepsNewestFirst(x: Post, t: seq<Post>)
    requires NewestFirst(t)
    requires t == [] || x.creation_date >= t[0].creation_date
    ensures NewestFirst([x] + t)
  {
    var r := [x] + t;
    forall i, j | 0 <= i < j < |r| ensures r[i].creation_date >= r[j].creation_date {
      if i == 0 {
        assert r[j] == t[j - 1];
        if j > 1 { assert t[0].creation_date >= t[j - 1].creation_date; }
      } else {
        assert r[i] == t[i - 1] && r[j] == t[j - 1];
      }
    }
  }

  /** Places `p` into a newest-first sequence, ahead of every record no newer than it. */
  function InsertByDate(p: Post, s: seq<Post>): (r: seq<Post>)
    requires NewestFirst(s)
    ensures NewestFirst(r)
    ensures multiset(r) == multiset(s) + multiset{p}
    ensures |r| > 0 && (r[0] == p || (|s| > 0 && r[0] == s[0]))
  {
    if s == [] || p.creation_date >= s[0].creation_date then
      PrependKeepsNewestFirst(p, s);
      [p] + s
    else
      assert NewestFirst(s[1..]) by {
        forall i, j | 0 <= i < j < |s[1..]| ensures s[1..][i].creation_date >= s[1..][j].creation_date {
          assert s[1..][i] == s[i + 1] && s[1..][j] == s[j + 1];
        }
      }
      var tail := InsertByDate(p, s[1..]);
      assert |s| > 1 ==> s[0].creation_date >= s[1].creation_date;
      PrependKeepsNewestFirst(s[0], tail);
      assert s == [s[0]] + s[1..];
      [s[0]] + tail
  }

  /** Orders records by creation date, newest first (`orderBy: { creation_date: 'desc' }`). */
  function SortByDateDesc(s: seq<Post>): (r: seq<Post>)
    ensures NewestFirst(r)
    ensures multiset(r) == multiset(s)
  {
    if s == [] then []
    else
      assert s == [s[0]] + s[1..];
      InsertByDate(s[0], SortByDateDesc(s[1..]))
  }

  function Min(a: int, b: int): int {
    if a <= b then a else b
  }

  /** `skip` / `take`: the records at positions [skip, skip + take) of `s`, as many as exist. */
  function Window(s: seq<Post>, skip: nat, take: nat): (r: seq<Post>)
    ensures |r| <= take
    ensures |r| == if skip >= |s| then 0 else Min(take, |s| - skip)
    ensures forall i :: 0 <= i < |r| ==> r[i] == s[skip + i]
  {
    if skip >= |s| then [] else s[skip..skip + Min(take, |s| - skip)]
  }

  /** A window that starts inside `s` is a contiguous slice of `s`, and newest first when `s` is. */
  lemma WindowSlice(s: seq<Post>, skip: nat, take: nat)
    requires skip < |s|
    ensures var w := Window(s, skip, take);
            && skip + |w| <= |s|
            && w == s[skip .. skip + |w|]
            && (forall p :: p in w ==> p in s)
            && (NewestFirst(s) ==> NewestFirst(w))
  {
    var w := Window(s, skip, take);
    forall p | p in w ensures p in s {
      var i :| 0 <= i < |w| && w[i] == p;
      assert s[skip + i] == p;
    }
    if NewestFirst(s) {
      forall i, j | 0 <= i < j < |w| ensures w[i].creation_date >= w[j].creation_date {
        assert w[i] == s[skip + i] && w[j] == s[skip + j];
      }
    }
  }

  /** The store's records in the order pagination reads them: one newest-first arrangement of them. */
  ghost function NewestOrder(m: Store): (r: seq<Post>)
    ensures NewestFirst(r)
    ensures |r| == |m|
    ensures forall p :: p in r <==> p in m.Values
  {
    var s := StoredPosts(m);
    var r := SortByDateDesc(s);
    assert forall p :: p in r <==> p in s by {
      forall p ensures p in r <==> p in s {
        assert p in r <==> p in multiset(r);
        assert p in s <==> p in multiset(s);
      }
    }
    assert |r| == |multiset(r)| == |multiset(s)| == |s|;
    r
  }
}
