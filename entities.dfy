/**
 * The document shapes the index maps read. Every entity is a top-level
 * document of its own collection; references between them are identifier
 * strings, and nothing is nested. C# `long` timestamps become `int`.
 */
module Entities {

  /** A page or post revision; its fields are not part of this model. */
  type Revision(==)

  /** A user's role grant; its fields are not part of this model. */
  type Authorization(==)

  datatype WebLog = WebLog(
    id: string,
    name: string,
    subtitle: string,
    defaultPage: string,
    themePath: string,
    urlBase: string,
    timeZone: string)

  datatype Category = Category(
    id: string,
    webLogId: string,
    name: string,
    slug: string,
    description: string,
    parentId: string,
    children: seq<string>)

  datatype Page = Page(
    id: string,
    webLogId: string,
    authorId: string,
    title: string,
    permalink: string,
    publishedOn: int,
    updatedOn: int,
    showInPageList: bool,
    text: string,
    revisions: seq<Revision>)

  datatype Post = Post(
    id: string,
    webLogId: string,
    authorId: string,
    status: string,
    title: string,
    permalink: string,
    postedOn: int,
    updatedOn: int,
    text: string,
    categoryIds: seq<string>,
    tags: seq<string>,
    revisions: seq<Revision>)

  datatype Comment = Comment(
    id: string,
    postId: string,
    inReplyToId: string,
    name: string,
    emailAddress: string,
    url: string,
    status: string,
    postedOn: int,
    text: string)

  datatype User = User(
    id: string,
    emailAddress: string,
    passwordHash: string,
    firstName: string,
    lastName: string,
    preferredName: string,
    url: string,
    authorizations: seq<Authorization>)
}
