/**
 * Document identifiers `"{collection}/{guid}"`: the collection names,
 * `IdFor` and `FromId`.
 */
module Collection {
  import opened Wrappers
  import opened Guids

  const Category := "Categories"
  const Comment := "Comments"
  const Page := "Pages"
  const Post := "Posts"
  const User := "Users"
  const WebLog := "WebLogs"

  const Names := [Category, Comment, Page, Post, User, WebLog]

  /** `IdFor(collection, id)`: the collection name, a slash, and the GUID's text form. */
  function IdFor(collection: string, id: Guid): (r: string)
    ensures multiset(r)['/'] == multiset(collection)['/'] + 1
  {
    GuidTextHasNoSlash(id);
    assert multiset(GuidText(id))['/'] == 0;
    collection + "/" + GuidText(id)
  }

  /** Position of the first `sep` in `s`. */
  function IndexOf(s: string, sep: char): (i: nat)
    requires sep in s
    ensures i < |s| && s[i] == sep && sep !in s[..i]
  {
    if s[0] == sep then 0 else 1 + IndexOf(s[1..], sep)
  }

  /**
   * `s.Split(sep)`: the pieces between separators, empty pieces kept, so
   * there is always one more piece than there are separators.
   */
  function Split(s: string, sep: char): (parts: seq<string>)
    ensures |parts| == multiset(s)[sep] + 1
    ensures forall k :: 0 <= k < |parts| ==> sep !in parts[k]
    decreases |s|
  {
    if sep !in s then
      assert multiset(s)[sep] == 0;
      [s]
    else
      var i := IndexOf(s, sep);
      assert s == s[..i] + [sep] + s[i + 1..];
      assert multiset(s) == multiset(s[..i]) + multiset{sep} + multiset(s[i + 1..]);
      assert multiset(s[..i])[sep] == 0;
      [s[..i]] + Split(s[i + 1..], sep)
  }

  /** The pair returned for anything that is not a well-formed identifier. */
  const Failed: (string, Guid) := ("", Empty)

  /**
   * `FromId(documentId)`: a null identifier reads as ""; it must split on
   * '/' into exactly two parts, the second a GUID, and otherwise (the
   * FormatException included) the result is `Failed`. Never fails.
   */
  function FromId(documentId: Option<string>): (r: (string, Guid))
    ensures r == Failed || ('/' !in r.0 && documentId.Some?)
  {
    var parts := Split(documentId.GetOr(""), '/');
    if |parts| == 2 then
      match ParseGuid(parts[1])
      case Some(id) => (parts[0], id)
      case None => Failed
    else
      Failed
  }

  /** Splitting a string that has one separator after a separator-free prefix. */
  lemma SplitAt(c: string, t: string, sep: char)
    requires sep !in c
    ensures Split(c + [sep] + t, sep) == [c] + Split(t, sep)
  {
    var s := c + [sep] + t;
    assert s[|c|] == sep;
    var i := IndexOf(s, sep);
    assert i == |c|;
    assert s[..i] == c && s[i + 1..] == t;
  }

  lemma SplitNoSeparator(t: string, sep: char)
    requires sep !in t
    ensures Split(t, sep) == [t]
  {
  }

  lemma GuidTextHasNoSlash(id: Guid)
    ensures '/' !in GuidText(id)
  {
    var t := GuidText(id);
    GuidTextShape(id);
    assert '/' !in LowerHexDigits;
    forall i | 0 <= i < 36 ensures t[i] != '/' {
      if i !in {8, 13, 18, 23} { assert t[i] in LowerHexDigits; }
    }
  }

  /** Formatting then parsing gives back the collection and the GUID, for any collection name without '/'. */
  lemma FromIdIdFor(collection: string, id: Guid)
    requires '/' !in collection
    ensures FromId(Some(IdFor(collection, id))) == (collection, id)
  {
    var t := GuidText(id);
    GuidTextHasNoSlash(id);
    SplitAt(collection, t, '/');
    SplitNoSeparator(t, '/');
    assert IdFor(collection, id) == collection + ['/'] + t;
    ParseGuidText(id);
  }

  /**
   * The GUID part is read case-insensitively: a collection name without '/',
   * a slash, and any spelling of a GUID's text form in upper, lower or mixed
   * case parse to that collection name and that GUID.
   */
  lemma FromIdComplete(c: string, t: string, id: Guid)
    requires '/' !in c
    requires LowerCase(t) == GuidText(id)
    ensures FromId(Some(c + "/" + t)) == (c, id)
  {
    ParseGuidComplete(t, id);
    GuidTextHasNoSlash(id);
    forall i | 0 <= i < |t| ensures t[i] != '/' {
      assert ToLower(t[i]) == GuidText(id)[i];
    }
    SplitAt(c, t, '/');
    SplitNoSeparator(t, '/');
    assert c + "/" + t == c + ['/'] + t;
  }

  /** The six collection names are distinct and free of '/', so every one of them round-trips. */
  lemma CollectionNamesRoundTrip(id: Guid)
    ensures forall i, j :: 0 <= i < j < |Names| ==> Names[i] != Names[j]
    ensures forall c :: c in Names ==> FromId(Some(IdFor(c, id))) == (c, id)
  {
    forall c | c in Names ensures FromId(Some(IdFor(c, id))) == (c, id) {
      FromIdIdFor(c, id);
    }
  }

  /** A null identifier gives `Failed`. */
  lemma FromIdNull()
    ensures FromId(None) == Failed
  {
    assert multiset("")['/'] == 0;
  }

  /** Anything but exactly one '/' gives `Failed`: "", no slash, or two and more. */
  lemma FromIdSlashCount(s: string)
    requires multiset(s)['/'] != 1
    ensures FromId(Some(s)) == Failed
  {
  }

  /** One slash, but a second part that is no GUID (empty, for one) gives `Failed`. */
  lemma FromIdBadGuid(c: string, t: string)
    requires '/' !in c && '/' !in t
    requires ParseGuid(t).None?
    ensures FromId(Some(c + "/" + t)) == Failed
  {
    SplitAt(c, t, '/');
    assert c + "/" + t == c + ['/'] + t;
  }

  /**
   * The first part is not checked: "/" followed by a GUID parses to an empty
   * collection name (so the identifier of the empty GUID in the empty
   * collection parses to exactly `Failed`).
   */
  lemma FromIdEmptyCollection(id: Guid)
    ensures FromId(Some("/" + GuidText(id))) == ("", id)
  {
    FromIdIdFor("", id);
    assert "" + "/" == "/";
  }

  /**
   * Whatever does not come out as `Failed` was read from a well-formed
   * identifier: the collection name, one '/', and a text form of the GUID.
   */
  lemma FromIdSound(s: string)
    ensures var (c, id) := FromId(Some(s));
            (c, id) == Failed ||
            (|c| < |s| && s[..|c|] == c && s[|c|] == '/' && '/' !in c && ParseGuid(s[|c| + 1..]) == Some(id))
  {
    var parts := Split(s, '/');
    if |parts| == 2 && ParseGuid(parts[1]).Some? {
      var i := IndexOf(s, '/');
      var rest := s[i + 1..];
      assert parts == [s[..i]] + Split(rest, '/');
      assert multiset(rest)['/'] == 0;
      SplitNoSeparator(rest, '/');
    }
  }
}
