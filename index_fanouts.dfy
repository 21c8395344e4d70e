/** The RavenDB index `Posts_ByWebLogIdAndCategoryId`: one entry per (post, category id). */
module Posts_ByWebLogIdAndCategoryId {
  import opened Entities
  import Linq

  datatype Entry = Entry(webLogId: string, categoryId: string)

  /** The entries one post contributes: `from category in post.CategoryIds select new { post.WebLogId, CategoryId = category }`. */
  function EntriesOf(post: Post): seq<Entry>
  {
    Linq.Select(post.categoryIds, (category: string) => Entry(post.webLogId, category))
  }

  function CategoryIdsOf(post: Post): seq<string> { post.categoryIds }

  /** Number of category ids over all of `posts`. */
  function CategoryIdCount(posts: seq<Post>): nat
  {
    Linq.TotalLength(posts, CategoryIdsOf)
  }

  /** The `Map` of the index: `from post in posts from category in post.CategoryIds select ...`. */
  function Map(posts: seq<Post>): (entries: seq<Entry>)
    ensures |entries| == CategoryIdCount(posts)
  {
    var entries := Linq.SelectMany(posts, EntriesOf);
    Linq.TotalLengthCongruent(posts, EntriesOf, CategoryIdsOf);
    entries
  }

  /**
   * Post `i`'s entries sit, in the order of its CategoryIds, right after the
   * entries of the posts before it; each carries post `i`'s WebLogId.
   */
  lemma MapAt(posts: seq<Post>, i: nat, j: nat)
    requires i < |posts| && j < |posts[i].categoryIds|
    ensures CategoryIdCount(posts[..i]) + j < |Map(posts)|
    ensures Map(posts)[CategoryIdCount(posts[..i]) + j] == Entry(posts[i].webLogId, posts[i].categoryIds[j])
  {
    Linq.SelectManyAt(posts, EntriesOf, i, j);
    Linq.TotalLengthCongruent(posts[..i], EntriesOf, CategoryIdsOf);
  }

  /** Every entry was produced by some post: its WebLogId and one of its CategoryIds. */
  lemma MapOrigin(posts: seq<Post>, k: nat)
    requires k < |Map(posts)|
    ensures exists i :: 0 <= i < |posts| && Map(posts)[k].webLogId == posts[i].webLogId
                        && Map(posts)[k].categoryId in posts[i].categoryIds
  {
    Linq.SelectManyOrigin(posts, EntriesOf, k);
    var i, j :| 0 <= i < |posts| && 0 <= j < |EntriesOf(posts[i])| && Map(posts)[k] == EntriesOf(posts[i])[j];
    assert posts[i].categoryIds[j] in posts[i].categoryIds;
  }

  lemma MapAppend(a: seq<Post>, b: seq<Post>)
    ensures Map(a + b) == Map(a) + Map(b)
  {
    Linq.SelectManyAppend(a, b, EntriesOf);
  }

  /** A post without category ids contributes no entries, wherever it stands. */
  lemma MapSkipsUncategorized(a: seq<Post>, post: Post, b: seq<Post>)
    requires post.categoryIds == []
    ensures Map(a + [post] + b) == Map(a + b)
  {
    MapAppend(a + [post], b);
    MapAppend(a, [post]);
    MapAppend(a, b);
    assert Map([post]) == [] by {
      assert CategoryIdCount([post]) == 0 by {
        assert [post][1..] == [];
      }
    }
  }

  /** Only WebLogId and CategoryIds matter: posts that agree on them index alike. */
  lemma MapDependsOnlyOnWebLogIdAndCategoryIds(a: seq<Post>, b: seq<Post>)
    requires |a| == |b|
    requires forall i :: 0 <= i < |a| ==> a[i].webLogId == b[i].webLogId && a[i].categoryIds == b[i].categoryIds
    ensures Map(a) == Map(b)
  {
    forall i | 0 <= i < |a| ensures EntriesOf(a[i]) == EntriesOf(b[i]) {
    }
    Linq.SelectManyCongruent(a, b, EntriesOf, EntriesOf);
  }
}

/**
 * The RavenDB index `Posts_ByWebLogIdAndTag`: one entry per (post, tag). Despite
 * its name, each entry carries the post's Id, not its WebLogId.
 */
module Posts_ByWebLogIdAndTag {
  import opened Entities
  import Linq

  datatype Entry = Entry(id: string, tag: string)

  /** The entries one post contributes: `from tag in post.Tags select new { post.Id, Tag = tag }`. */
  function EntriesOf(post: Post): seq<Entry>
  {
    Linq.Select(post.tags, (tag: string) => Entry(post.id, tag))
  }

  function TagsOf(post: Post): seq<string> { post.tags }

  /** Number of tags over all of `posts`. */
  function TagCount(posts: seq<Post>): nat
  {
    Linq.TotalLength(posts, TagsOf)
  }

  /** The `Map` of the index: `from post in posts from tag in post.Tags select ...`. */
  function Map(posts: seq<Post>): (entries: seq<Entry>)
    ensures |entries| == TagCount(posts)
  {
    var entries := Linq.SelectMany(posts, EntriesOf);
    Linq.TotalLengthCongruent(posts, EntriesOf, TagsOf);
    entries
  }

  /**
   * Post `i`'s entries sit, in the order of its Tags, right after the entries
   * of the posts before it; each carries post `i`'s Id.
   */
  lemma MapAt(posts: seq<Post>, i: nat, j: nat)
    requires i < |posts| && j < |posts[i].tags|
    ensures TagCount(posts[..i]) + j < |Map(posts)|
    ensures Map(posts)[TagCount(posts[..i]) + j] == Entry(posts[i].id, posts[i].tags[j])
  {
    Linq.SelectManyAt(posts, EntriesOf, i, j);
    Linq.TotalLengthCongruent(posts[..i], EntriesOf, TagsOf);
  }

  /** Every entry was produced by some post: its Id and one of its Tags. */
  lemma MapOrigin(posts: seq<Post>, k: nat)
    requires k < |Map(posts)|
    ensures exists i :: 0 <= i < |posts| && Map(posts)[k].id == posts[i].id
                        && Map(posts)[k].tag in posts[i].tags
  {
    Linq.SelectManyOrigin(posts, EntriesOf, k);
    var i, j :| 0 <= i < |posts| && 0 <= j < |EntriesOf(posts[i])| && Map(posts)[k] == EntriesOf(posts[i])[j];
    assert posts[i].tags[j] in posts[i].tags;
  }

  lemma MapAppend(a: seq<Post>, b: seq<Post>)
    ensures Map(a + b) == Map(a) + Map(b)
  {
    Linq.SelectManyAppend(a, b, EntriesOf);
  }

  /** A post without tags contributes no entries, wherever it stands. */
  lemma MapSkipsUntagged(a: seq<Post>, post: Post, b: seq<Post>)
    requires post.tags == []
    ensures Map(a + [post] + b) == Map(a + b)
  {
    MapAppend(a + [post], b);
    MapAppend(a, [post]);
    MapAppend(a, b);
    assert Map([post]) == [] by {
      assert TagCount([post]) == 0 by {
        assert [post][1..] == [];
      }
    }
  }

  /** Only Id and Tags matter: posts that agree on them index alike. */
  lemma MapDependsOnlyOnIdAndTags(a: seq<Post>, b: seq<Post>)
    requires |a| == |b|
    requires forall i :: 0 <= i < |a| ==> a[i].id == b[i].id && a[i].tags == b[i].tags
    ensures Map(a) == Map(b)
  {
    forall i | 0 <= i < |a| ensures EntriesOf(a[i]) == EntriesOf(b[i]) {
    }
    Linq.SelectManyCongruent(a, b, EntriesOf, EntriesOf);
  }
}
