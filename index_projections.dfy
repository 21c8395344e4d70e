/** The RavenDB index `Categories_ByWebLogIdAndSlug`: one entry per category. */
module Categories_ByWebLogIdAndSlug {
  import opened Entities
  import Linq

  datatype Entry = Entry(webLogId: string, slug: string)

  /** The projection of one category. */
  function KeyOf(category: Category): Entry { Entry(category.webLogId, category.slug) }

  /** The `Map` of the index: `from category in categories select new { category.WebLogId, category.Slug }`. */
  function Map(categories: seq<Category>): (entries: seq<Entry>)
    ensures |entries| == |categories|
    ensures forall i :: 0 <= i < |categories| ==> entries[i] == Entry(categories[i].webLogId, categories[i].slug)
  {
    Linq.Select(categories, KeyOf)
  }

  lemma MapAppend(a: seq<Category>, b: seq<Category>)
    ensures Map(a + b) == Map(a) + Map(b)
  {
    Linq.SelectAppend(a, b, KeyOf);
  }

  /** The output ignores Name, Description, ParentId and Children. */
  lemma MapDependsOnlyOnWebLogIdAndSlug(a: seq<Category>, b: seq<Category>)
    requires |a| == |b|
    requires forall i :: 0 <= i < |a| ==> a[i].webLogId == b[i].webLogId && a[i].slug == b[i].slug
    ensures Map(a) == Map(b)
  {
  }
}

/** The RavenDB index `Pages_ByWebLogIdAndPermalink`: one entry per page. */
module Pages_ByWebLogIdAndPermalink {
  import opened Entities
  import Linq

  datatype Entry = Entry(webLogId: string, permalink: string)

  /** The projection of one page. */
  function KeyOf(page: Page): Entry { Entry(page.webLogId, page.permalink) }

  /** The `Map` of the index: `from page in pages select new { page.WebLogId, page.Permalink }`. */
  function Map(pages: seq<Page>): (entries: seq<Entry>)
    ensures |entries| == |pages|
    ensures forall i :: 0 <= i < |pages| ==> entries[i] == Entry(pages[i].webLogId, pages[i].permalink)
  {
    Linq.Select(pages, KeyOf)
  }

  lemma MapAppend(a: seq<Page>, b: seq<Page>)
    ensures Map(a + b) == Map(a) + Map(b)
  {
    Linq.SelectAppend(a, b, KeyOf);
  }

  /** The output ignores Title, Text, Revisions and the other fields. */
  lemma MapDependsOnlyOnWebLogIdAndPermalink(a: seq<Page>, b: seq<Page>)
    requires |a| == |b|
    requires forall i :: 0 <= i < |a| ==> a[i].webLogId == b[i].webLogId && a[i].permalink == b[i].permalink
    ensures Map(a) == Map(b)
  {
  }
}

/** The RavenDB index `Posts_ByWebLogIdAndPermalink`: one entry per post. */
module Posts_ByWebLogIdAndPermalink {
  import opened Entities
  import Linq

  datatype Entry = Entry(webLogId: string, permalink: string)

  /** The projection of one post. */
  function KeyOf(post: Post): Entry { Entry(post.webLogId, post.permalink) }

  /** The `Map` of the index: `from post in posts select new { post.WebLogId, post.Permalink }`; no fan-out over CategoryIds or Tags. */
  function Map(posts: seq<Post>): (entries: seq<Entry>)
    ensures |entries| == |posts|
    ensures forall i :: 0 <= i < |posts| ==> entries[i] == Entry(posts[i].webLogId, posts[i].permalink)
  {
    Linq.Select(posts, KeyOf)
  }

  lemma MapAppend(a: seq<Post>, b: seq<Post>)
    ensures Map(a + b) == Map(a) + Map(b)
  {
    Linq.SelectAppend(a, b, KeyOf);
  }

  /** The output ignores CategoryIds, Tags and the other fields. */
  lemma MapDependsOnlyOnWebLogIdAndPermalink(a: seq<Post>, b: seq<Post>)
    requires |a| == |b|
    requires forall i :: 0 <= i < |a| ==> a[i].webLogId == b[i].webLogId && a[i].permalink == b[i].permalink
    ensures Map(a) == Map(b)
  {
  }
}

/** The RavenDB index `Users_ByEmailAddressAndPasswordHash`: one entry per user. */
module Users_ByEmailAddressAndPasswordHash {
  import opened Entities
  import Linq

  datatype Entry = Entry(emailAddress: string, passwordHash: string)

  /** The projection of one user. */
  function KeyOf(user: User): Entry { Entry(user.emailAddress, user.passwordHash) }

  /** The `Map` of the index: `from user in users select new { user.EmailAddress, user.PasswordHash }`; both are compared as opaque strings. */
  function Map(users: seq<User>): (entries: seq<Entry>)
    ensures |entries| == |users|
    ensures forall i :: 0 <= i < |users| ==> entries[i] == Entry(users[i].emailAddress, users[i].passwordHash)
  {
    Linq.Select(users, KeyOf)
  }

  lemma MapAppend(a: seq<User>, b: seq<User>)
    ensures Map(a + b) == Map(a) + Map(b)
  {
    Linq.SelectAppend(a, b, KeyOf);
  }

  /** The output ignores the names, Url and Authorizations. */
  lemma MapDependsOnlyOnEmailAddressAndPasswordHash(a: seq<User>, b: seq<User>)
    requires |a| == |b|
    requires forall i :: 0 <= i < |a| ==> a[i].emailAddress == b[i].emailAddress && a[i].passwordHash == b[i].passwordHash
    ensures Map(a) == Map(b)
  {
  }
}

/** The RavenDB index `Comments_ByPostId`: one entry per comment. */
module Comments_ByPostId {
  import opened Entities
  import Linq

  datatype Entry = Entry(postId: string)

  /** The projection of one comment. */
  function KeyOf(comment: Comment): Entry { Entry(comment.postId) }

  /** The `Map` of the index: `from comment in comments select new { comment.PostId }`. */
  function Map(comments: seq<Comment>): (entries: seq<Entry>)
    ensures |entries| == |comments|
    ensures forall i :: 0 <= i < |comments| ==> entries[i] == Entry(comments[i].postId)
  {
    Linq.Select(comments, KeyOf)
  }

  lemma MapAppend(a: seq<Comment>, b: seq<Comment>)
    ensures Map(a + b) == Map(a) + Map(b)
  {
    Linq.SelectAppend(a, b, KeyOf);
  }

  /** The output ignores InReplyToId, Status, Text and the other fields. */
  lemma MapDependsOnlyOnPostId(a: seq<Comment>, b: seq<Comment>)
    requires |a| == |b|
    requires forall i :: 0 <= i < |a| ==> a[i].postId == b[i].postId
    ensures Map(a) == Map(b)
  {
  }
}

/** The RavenDB index `Categories_ByWebLogId`: one bare WebLogId value per category. */
module Categories_ByWebLogId {
  import opened Entities
  import Linq

  function WebLogIdOf(category: Category): string { category.webLogId }

  /** The `Map` of the index: `from category in categories select category.WebLogId`, a value, not a record. */
  function Map(categories: seq<Category>): (entries: seq<string>)
    ensures |entries| == |categories|
    ensures forall i :: 0 <= i < |categories| ==> entries[i] == categories[i].webLogId
  {
    Linq.Select(categories, WebLogIdOf)
  }

  lemma MapAppend(a: seq<Category>, b: seq<Category>)
    ensures Map(a + b) == Map(a) + Map(b)
  {
    Linq.SelectAppend(a, b, WebLogIdOf);
  }

  /** The output depends on WebLogId alone. */
  lemma MapDependsOnlyOnWebLogId(a: seq<Category>, b: seq<Category>)
    requires |a| == |b|
    requires forall i :: 0 <= i < |a| ==> a[i].webLogId == b[i].webLogId
    ensures Map(a) == Map(b)
  {
  }
}
