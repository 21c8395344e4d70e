# FromObjectsToFunctions data layer, modelled in Dafny

The two C# web applications in this repository, "Uno" (ASP.NET Core over
RethinkDB) and "Dos" (Nancy over RavenDB), have four small pieces of
deterministic logic under their web scaffolding. This project models
them and proves what they promise.

- **The environment reconciler.** `EnvironmentExtensions.EstablishEnvironment`
  brings a RethinkDB server to a declared shape: the database when one is
  named, six tables, and the secondary indexes of five of them. It does
  this only by listing what exists and creating what is missing.
  - The server is the class `RethinkStore.Store`. Its fields are the
    databases, the tables, the per-table index map (name to key rule), and
    an append-only log of the create calls it received.
  - The reconciler's methods (`EnvironmentExtensions.*`) update a `Store`
    step by step, as the C# does.
  - Each method is proved against two specification functions: the state
    it leaves (`AfterDatabase`, `AfterTables`, `AfterIndexCheck`,
    `AfterIndexes`, `Target`) and the create calls it issues
    (`DatabasePlan`, `TablePlan`, `IndexPlan`, `IndexesPlan`, `Plan`).
  - `EnvironmentProperties` proves what those functions mean:
    - replaying the calls gives the state;
    - the final state in closed form;
    - completeness;
    - nothing is removed or redefined;
    - exactly the missing objects are created;
    - idempotence.
- **Document identifiers.** `Collection.IdFor` writes `"{collection}/{guid}"`
  with the GUID in .NET's lower-case "D" form (8-4-4-4-12). `Collection.FromId`
  splits on every '/' and parses the GUID case-insensitively. Every failure
  gives `("", Guid.Empty)`. The GUID text form and its parser are in `Guids`.
- **Connection options.** Both `DataConfig.CreateConnection` variants are
  modelled, and proved to build the same builder:
  - the Dos one (`DosDataConfig`) is a left fold of five builder-to-builder
    blocks over the default builder;
  - the Uno one (`UnoDataConfig`) is a method with five sequential `if`s.
  Null strings and the number 0 mean "not set".
- **RavenDB index maps.** Each `AbstractIndexCreationTask` `Map` becomes a
  module with a `Map` function:
  - the fan-outs (`from post in posts from x in post.Xs select …`) are
    `Linq.SelectMany`;
  - the projections are `Linq.Select`.
  The Uno and Dos copies of each index have identical `Map` lines, so one
  module models both. In the table below, rows for the same index cite
  the two copies in turn. `Categories_ByWebLogId` exists only in the Uno
  application.

The entity records (`Entities`) take their fields from the C# entity
classes. Their strings and lists are never null, and their `long`
timestamps are unbounded `int`s. In the connection settings a null string
is `Option.None` and C# `int` is the `int32` newtype. The identifier passed
to `FromId` may be null (`Option.None`).

## Model

| member | source | states |
|---|---|---|
| Linq.Select | src/2-Nancy-CSharp/Data/Indexes/Comments_ByPostId.cs:11 | a `select` yields one result per input, in input order, each the selector applied to the input at that position |
| Linq.SelectAppend | src/1-AspNetCore-CSharp/Data/Indexes/Comments_ByPostId.cs:11 | `select` over a concatenation is the concatenation of the two `select`s |
| Linq.SelectMany | src/2-Nancy-CSharp/Data/Indexes/Posts_ByWebLogIdAndTag.cs:11-13 | a nested `from … from … select` yields as many results as the inner sequences hold in total |
| Linq.TotalLengthCongruent | src/1-AspNetCore-CSharp/Data/Indexes/Posts_ByWebLogIdAndTag.cs:11-13 | the total is unchanged when each inner sequence is swapped for one of the same length |
| Linq.SelectManyAppend | src/1-AspNetCore-CSharp/Data/Indexes/Posts_ByWebLogIdAndCategoryId.cs:11-13 | the flattening of a concatenation is the concatenation of the flattenings |
| Linq.SelectManyAt | src/2-Nancy-CSharp/Data/Indexes/Posts_ByWebLogIdAndCategoryId.cs:11-13 | the j-th inner element of input i sits at position (total of the inputs before i) + j of the output |
| Linq.SelectManyOrigin | src/1-AspNetCore-CSharp/Data/Indexes/Posts_ByWebLogIdAndCategoryId.cs:11-13 | every output element is some inner element of some input |
| Linq.SelectManyCongruent | src/2-Nancy-CSharp/Data/Indexes/Posts_ByWebLogIdAndTag.cs:11-13 | inputs whose inner sequences agree position by position give the same output |
| Linq.Aggregate | src/2-Nancy-CSharp/Data/DataConfig.cs:36 | `Aggregate` (the left fold from the first element on) equals the reference fold `FoldLast`, which combines the last element onto the fold of everything before it; `AggregateAppend` completes its contract |
| Linq.FoldLastCons | src/2-Nancy-CSharp/Data/DataConfig.cs:36 | folding `[x] + xs` from the end is folding `xs` from `step(seed, x)`: the step that ties the two fold orders together |
| Linq.AggregateAppend | src/2-Nancy-CSharp/Data/DataConfig.cs:36 | a left fold over a concatenation folds the second part starting from the result of the first |
| Posts_ByWebLogIdAndCategoryId.Map | src/1-AspNetCore-CSharp/Data/Indexes/Posts_ByWebLogIdAndCategoryId.cs:11-17 | the number of entries is the sum over the posts of their CategoryIds counts |
| Posts_ByWebLogIdAndCategoryId.MapAt | src/2-Nancy-CSharp/Data/Indexes/Posts_ByWebLogIdAndCategoryId.cs:11-17 | post i's j-th category id gives the entry (post i's WebLogId, that category id), placed after the entries of the posts before it, so each post's entries carry its CategoryIds in order |
| Posts_ByWebLogIdAndCategoryId.MapOrigin | src/1-AspNetCore-CSharp/Data/Indexes/Posts_ByWebLogIdAndCategoryId.cs:11-15 | every entry's WebLogId is the WebLogId of an input post |
| Posts_ByWebLogIdAndCategoryId.MapAppend | src/2-Nancy-CSharp/Data/Indexes/Posts_ByWebLogIdAndCategoryId.cs:11-12 | Map(a + b) == Map(a) + Map(b) |
| Posts_ByWebLogIdAndCategoryId.MapSkipsUncategorized | src/1-AspNetCore-CSharp/Data/Indexes/Posts_ByWebLogIdAndCategoryId.cs:12 | a post without categories contributes no entry, wherever it stands |
| Posts_ByWebLogIdAndCategoryId.MapDependsOnlyOnWebLogIdAndCategoryIds | src/2-Nancy-CSharp/Data/Indexes/Posts_ByWebLogIdAndCategoryId.cs:13-17 | post lists that agree on WebLogId and CategoryIds position by position give the same entries |
| Posts_ByWebLogIdAndTag.Map | src/2-Nancy-CSharp/Data/Indexes/Posts_ByWebLogIdAndTag.cs:11-17 | the number of entries is the sum over the posts of their Tags counts |
| Posts_ByWebLogIdAndTag.MapAt | src/1-AspNetCore-CSharp/Data/Indexes/Posts_ByWebLogIdAndTag.cs:11-17 | post i's j-th tag gives the entry (post i's Id, that tag), placed after the entries of the posts before it; the entry holds the post's Id, not its WebLogId |
| Posts_ByWebLogIdAndTag.MapOrigin | src/2-Nancy-CSharp/Data/Indexes/Posts_ByWebLogIdAndTag.cs:11-15 | every entry's Id is the Id of an input post |
| Posts_ByWebLogIdAndTag.MapAppend | src/1-AspNetCore-CSharp/Data/Indexes/Posts_ByWebLogIdAndTag.cs:11-12 | Map(a + b) == Map(a) + Map(b) |
| Posts_ByWebLogIdAndTag.MapSkipsUntagged | src/2-Nancy-CSharp/Data/Indexes/Posts_ByWebLogIdAndTag.cs:12 | a post without tags contributes no entry, wherever it stands |
| Posts_ByWebLogIdAndTag.MapDependsOnlyOnIdAndTags | src/1-AspNetCore-CSharp/Data/Indexes/Posts_ByWebLogIdAndTag.cs:13-17 | post lists that agree on Id and Tags position by position give the same entries |
| Categories_ByWebLogIdAndSlug.Map | src/1-AspNetCore-CSharp/Data/Indexes/Categories_ByWebLogIdAndSlug.cs:11-16 | one entry per category, in input order; entry i is (WebLogId, Slug) of category i |
| Categories_ByWebLogIdAndSlug.MapAppend | src/2-Nancy-CSharp/Data/Indexes/Categories_ByWebLogIdAndSlug.cs:11 | Map(a + b) == Map(a) + Map(b) |
| Categories_ByWebLogIdAndSlug.MapDependsOnlyOnWebLogIdAndSlug | src/2-Nancy-CSharp/Data/Indexes/Categories_ByWebLogIdAndSlug.cs:12-16 | Name, Description, ParentId and Children do not affect the entries |
| Pages_ByWebLogIdAndPermalink.Map | src/2-Nancy-CSharp/Data/Indexes/Pages_ByWebLogIdAndPermalink.cs:11-16 | one entry per page, in input order; entry i is (WebLogId, Permalink) of page i |
| Pages_ByWebLogIdAndPermalink.MapAppend | src/1-AspNetCore-CSharp/Data/Indexes/Pages_ByWebLogIdAndPermalink.cs:11 | Map(a + b) == Map(a) + Map(b) |
| Pages_ByWebLogIdAndPermalink.MapDependsOnlyOnWebLogIdAndPermalink | src/1-AspNetCore-CSharp/Data/Indexes/Pages_ByWebLogIdAndPermalink.cs:12-16 | no page field other than WebLogId and Permalink affects the entries |
| Posts_ByWebLogIdAndPermalink.Map | src/1-AspNetCore-CSharp/Data/Indexes/Posts_ByWebLogIdAndPermalink.cs:11-16 | one entry per post (no fan-out), in input order; entry i is (WebLogId, Permalink) of post i |
| Posts_ByWebLogIdAndPermalink.MapAppend | src/2-Nancy-CSharp/Data/Indexes/Posts_ByWebLogIdAndPermalink.cs:11 | Map(a + b) == Map(a) + Map(b) |
| Posts_ByWebLogIdAndPermalink.MapDependsOnlyOnWebLogIdAndPermalink | src/2-Nancy-CSharp/Data/Indexes/Posts_ByWebLogIdAndPermalink.cs:12-16 | no post field other than WebLogId and Permalink affects the entries |
| Users_ByEmailAddressAndPasswordHash.Map | src/2-Nancy-CSharp/Data/Indexes/Users_ByEmailAddressAndPasswordHash.cs:11-16 | one entry per user, in input order; entry i is (EmailAddress, PasswordHash) of user i |
| Users_ByEmailAddressAndPasswordHash.MapAppend | src/1-AspNetCore-CSharp/Data/Indexes/Users_ByEmailAddressAndPasswordHash.cs:11 | Map(a + b) == Map(a) + Map(b) |
| Users_ByEmailAddressAndPasswordHash.MapDependsOnlyOnEmailAddressAndPasswordHash | src/1-AspNetCore-CSharp/Data/Indexes/Users_ByEmailAddressAndPasswordHash.cs:12-16 | names, Url and Authorizations do not affect the entries |
| Comments_ByPostId.Map | src/1-AspNetCore-CSharp/Data/Indexes/Comments_ByPostId.cs:11 | one entry per comment, in input order; entry i is the record {PostId} of comment i |
| Comments_ByPostId.MapAppend | src/2-Nancy-CSharp/Data/Indexes/Comments_ByPostId.cs:11 | Map(a + b) == Map(a) + Map(b) |
| Comments_ByPostId.MapDependsOnlyOnPostId | src/2-Nancy-CSharp/Data/Indexes/Comments_ByPostId.cs:11 | no comment field other than PostId affects the entries |
| Categories_ByWebLogId.Map | src/1-AspNetCore-CSharp/Data/Indexes/Categories_ByWebLogId.cs:11 | one entry per category, in input order; entry i is the bare WebLogId of category i |
| Categories_ByWebLogId.MapAppend | src/1-AspNetCore-CSharp/Data/Indexes/Categories_ByWebLogId.cs:11 | Map(a + b) == Map(a) + Map(b) |
| Categories_ByWebLogId.MapDependsOnlyOnWebLogId | src/1-AspNetCore-CSharp/Data/Indexes/Categories_ByWebLogId.cs:11 | no category field other than WebLogId affects the entries |
| Guids.LowerCase | src/2-Nancy-CSharp/Data/Collection.cs:26 | the case-insensitive comparison `Guid.Parse` makes: the lowered text keeps its length and is already lower case, so lowering it again changes nothing |
| Guids.LowerCaseOfHex | src/2-Nancy-CSharp/Data/Collection.cs:19 | hex text as `Guid.ToString()` prints it is its own lower-cased form |
| Guids.HexValue | src/2-Nancy-CSharp/Data/Collection.cs:26 | a character is a hex digit exactly when its lower-case form is one of 0-9a-f, and then its value's digit is that lower-case form |
| Guids.ParseHex | src/2-Nancy-CSharp/Data/Collection.cs:26 | the digit string parses exactly when every character is a hex digit, and the nibbles it gives print back as the lower-cased input |
| Guids.GuidText | src/2-Nancy-CSharp/Data/Collection.cs:19 | `Guid.ToString()` gives 36 characters with hyphens at 8, 13, 18 and 23; `GuidTextShape`, `GuidTextInjective` and `ParseGuidText` carry the rest of its contract |
| Guids.ParseGuid | src/2-Nancy-CSharp/Data/Collection.cs:26 | `Guid.Parse` in the "D" form: it succeeds exactly when the hyphens are in place and the other 32 characters are hex digits, and then the GUID's digits are the lower-cased input digits; `ParseGuidExactly`, `ParseGuidSound` and `ParseGuidComplete` carry the rest of its contract |
| Guids.GuidTextShape | src/2-Nancy-CSharp/Data/Collection.cs:19 | `Guid.ToString()` is 36 characters: hyphens at 8, 13, 18 and 23, lower-case hex digits everywhere else, spelling the 32 nibbles in order |
| Guids.HexInjective | src/2-Nancy-CSharp/Data/Collection.cs:19 | different nibble sequences have different lower-case hex spellings |
| Guids.GuidTextInjective | src/2-Nancy-CSharp/Data/Collection.cs:19 | different GUIDs have different text forms |
| Guids.ParseGuidText | src/2-Nancy-CSharp/Data/Collection.cs:19-26 | `Guid.Parse` reads back what `ToString()` printed |
| Guids.ParseGuidSound | src/2-Nancy-CSharp/Data/Collection.cs:26 | whatever `Guid.Parse` accepts is, lower-cased, the text form of the GUID it returns |
| Guids.ParseGuidComplete | src/2-Nancy-CSharp/Data/Collection.cs:26 | every spelling of a GUID's text form, in any letter case, parses to that GUID |
| Guids.ParseGuidExactly | src/2-Nancy-CSharp/Data/Collection.cs:26 | parsing gives g if and only if the input, lower-cased, is g's text form |
| Collection.IdFor | src/2-Nancy-CSharp/Data/Collection.cs:19 | the identifier holds one more '/' than the collection name; `FromIdIdFor` and `CollectionNamesRoundTrip` carry its round trip through `FromId` |
| Collection.FromId | src/2-Nancy-CSharp/Data/Collection.cs:21-32 | the result is either the failure pair `("", Guid.Empty)` or a collection name without '/' read from a non-null identifier; `FromIdIdFor`, `FromIdComplete`, `FromIdSound`, `FromIdNull`, `FromIdSlashCount`, `FromIdBadGuid` and `FromIdEmptyCollection` carry the rest of its contract |
| Collection.Split | src/2-Nancy-CSharp/Data/Collection.cs:25 | `Split('/')` keeps empty pieces: one more piece than there are separators, and no piece contains one |
| Collection.SplitAt | src/2-Nancy-CSharp/Data/Collection.cs:25 | splitting "c/t" with no separator in c gives c followed by the pieces of t |
| Collection.SplitNoSeparator | src/2-Nancy-CSharp/Data/Collection.cs:25 | a string without the separator splits into itself alone |
| Collection.GuidTextHasNoSlash | src/2-Nancy-CSharp/Data/Collection.cs:19 | a GUID's text form contains no '/' |
| Collection.FromIdIdFor | src/2-Nancy-CSharp/Data/Collection.cs:19-26 | for a collection name without '/', `FromId(IdFor(c, g)) == (c, g)` |
| Collection.CollectionNamesRoundTrip | src/2-Nancy-CSharp/Data/Collection.cs:7-19 | the six collection names are pairwise distinct and each one round-trips through `IdFor`/`FromId` |
| Collection.FromIdNull | src/2-Nancy-CSharp/Data/Collection.cs:25-26 | a null identifier gives `("", Guid.Empty)` |
| Collection.FromIdSlashCount | src/2-Nancy-CSharp/Data/Collection.cs:26 | an identifier without exactly one '/' (including "") gives `("", Guid.Empty)` |
| Collection.FromIdBadGuid | src/2-Nancy-CSharp/Data/Collection.cs:26-31 | one '/' followed by something that is not a GUID (including "") gives `("", Guid.Empty)`; the FormatException does not escape |
| Collection.FromIdEmptyCollection | src/2-Nancy-CSharp/Data/Collection.cs:26 | the collection part is not checked: "/" and a GUID's text parse to ("", that GUID), so the empty GUID there is indistinguishable from failure |
| Collection.FromIdComplete | src/2-Nancy-CSharp/Data/Collection.cs:25-26 | the GUID part is read case-insensitively, as `Guid.Parse` does: a collection name without '/', one '/', and any upper-, lower- or mixed-case spelling of g's text form give `(c, g)`; with `FromIdSound` this makes `FromId` succeed exactly on such identifiers |
| Collection.FromIdSound | src/2-Nancy-CSharp/Data/Collection.cs:21-32 | any result other than the failure pair came from an identifier made of that collection name (no '/'), one '/', and a parsable text form of that GUID |
| RethinkConnection.ConfiguredFromUnset | src/1-AspNetCore-CSharp/Data/DataConfig.cs:20-26 | with every setting unset (null strings, zero numbers) the configured builder is the default `R.Connection()` |
| DosDataConfig.CreateConnection | src/2-Nancy-CSharp/Data/DataConfig.cs:23-36 | the folded builder carries the configured value exactly for the non-null strings (an empty one included) and the non-zero numbers (negative ones included), and the driver default for every other setting |
| DosDataConfig.Blocks | src/2-Nancy-CSharp/Data/DataConfig.cs:23-33 | there are five blocks, in the order Hostname, Port, AuthKey, Database, Timeout; each changes only its own setting; it sets that setting to the configured value when the value is set (a non-null string, a non-zero number), and otherwise leaves the builder as it is |
| UnoDataConfig.CreateConnection | src/1-AspNetCore-CSharp/Data/DataConfig.cs:18-27 | the sequential `if`s give the same overrides as the fold, and the same builder as the Dos application for equal settings |
| RethinkStore.ApplyAllAppend | src/1-AspNetCore-CSharp/Data/EnvironmentExtensions.cs:13-15 | carrying out two call sequences one after the other is carrying out their concatenation |
| RethinkStore.Store.constructor | src/1-AspNetCore-CSharp/Data/EnvironmentExtensions.cs:11 | the connection starts at a given consistent server state with an empty call log |
| RethinkStore.Store.DbList | src/1-AspNetCore-CSharp/Data/EnvironmentExtensions.cs:20 | `DbList()` returns the databases |
| RethinkStore.Store.DbCreate | src/1-AspNetCore-CSharp/Data/EnvironmentExtensions.cs:22 | `DbCreate` on an absent name adds that database, changes nothing else, and logs the call |
| RethinkStore.Store.TableList | src/1-AspNetCore-CSharp/Data/EnvironmentExtensions.cs:28 | `TableList()` returns the tables |
| RethinkStore.Store.TableCreate | src/1-AspNetCore-CSharp/Data/EnvironmentExtensions.cs:35 | `TableCreate` on an absent name adds that table with no indexes, changes nothing else, and logs the call |
| RethinkStore.Store.IndexList | src/1-AspNetCore-CSharp/Data/EnvironmentExtensions.cs:107-108 | `IndexList()` on an existing table returns its index names |
| RethinkStore.Store.IndexCreate | src/1-AspNetCore-CSharp/Data/EnvironmentExtensions.cs:53-58 | `IndexCreate` on an existing table and an absent index name adds that index with its rule, changes nothing else, and logs the call |
| EnvironmentExtensions.EstablishEnvironment | src/1-AspNetCore-CSharp/Data/EnvironmentExtensions.cs:11-16 | the whole run leaves the server in `Target` and has issued exactly `Plan`, database then tables then indexes; every create call is made on an absent object, and every index is created on a table that is present |
| EnvironmentExtensions.CheckDatabase | src/1-AspNetCore-CSharp/Data/EnvironmentExtensions.cs:18-24 | one `DbCreate` exactly when the name is neither null nor empty and not listed; the name is a database afterwards |
| EnvironmentExtensions.CheckTables | src/1-AspNetCore-CSharp/Data/EnvironmentExtensions.cs:26-37 | one `TableCreate` per table missing from the list taken at the start, in the order Category, Comment, Page, Post, User, WebLog; all six are tables afterwards |
| EnvironmentExtensions.CheckIndexes | src/1-AspNetCore-CSharp/Data/EnvironmentExtensions.cs:39-46 | the five table checks in order: the issued calls and final state are those of the five in sequence |
| EnvironmentExtensions.IndexesFor | src/1-AspNetCore-CSharp/Data/EnvironmentExtensions.cs:107-108 | returns the index names of the table |
| EnvironmentExtensions.CheckCategoryIndexes | src/1-AspNetCore-CSharp/Data/EnvironmentExtensions.cs:48-61 | creates `WebLogId` (simple) and `WebLogAndSlug` (compound [WebLogId, Slug]) on Category, each only if absent from the list taken at the start |
| EnvironmentExtensions.CheckCommentIndexes | src/1-AspNetCore-CSharp/Data/EnvironmentExtensions.cs:63-69 | creates `PostId` (simple) on Comment only if absent |
| EnvironmentExtensions.CheckPageIndexes | src/1-AspNetCore-CSharp/Data/EnvironmentExtensions.cs:71-84 | creates `WebLogId` (simple) and `WebLogAndPermalink` (compound [WebLogId, Permalink]) on Page, each only if absent from the list taken at the start |
| EnvironmentExtensions.CheckPostIndexes | src/1-AspNetCore-CSharp/Data/EnvironmentExtensions.cs:86-97 | creates `WebLogId` (simple) and `Tags` (multi) on Post, each only if absent from the list taken at the start |
| EnvironmentExtensions.CheckUserIndexes | src/1-AspNetCore-CSharp/Data/EnvironmentExtensions.cs:99-105 | creates `EmailAddress` (simple) on User only if absent |
| EnvironmentExtensions.AfterTablesHasIndexedTables | src/1-AspNetCore-CSharp/Data/EnvironmentExtensions.cs:14-15 | after the table check every table the index check visits exists |
| EnvironmentExtensions.ChainedChecks | src/1-AspNetCore-CSharp/Data/EnvironmentExtensions.cs:39-46 | the five checks in sequence, each listing its own table afresh, amount to `AfterIndexes` and `IndexesPlan` of the state before the first (a check does not touch the other tables) |
| EnvironmentExtensions.OtherTablesKept | src/1-AspNetCore-CSharp/Data/EnvironmentExtensions.cs:48-105 | one table's index check leaves every other table's indexes as they were |
| EnvironmentExtensions.TableNamesDistinct | src/1-AspNetCore-CSharp/Data/EnvironmentExtensions.cs:31 | the six table names are pairwise distinct |
| EnvironmentProperties.RulesOfKeys | src/1-AspNetCore-CSharp/Data/EnvironmentExtensions.cs:48-105 | a table's catalog names exactly the indexes its check declares |
| EnvironmentProperties.CatalogContents | src/1-AspNetCore-CSharp/Data/EnvironmentExtensions.cs:53-103 | the declared indexes and rules: Category {WebLogId: simple, WebLogAndSlug: [WebLogId, Slug]}, Comment {PostId}, Page {WebLogId, WebLogAndPermalink: [WebLogId, Permalink]}, Post {WebLogId, Tags: multi}, User {EmailAddress}, WebLog none |
| EnvironmentProperties.TablePlanMembers | src/1-AspNetCore-CSharp/Data/EnvironmentExtensions.cs:33-36 | the table loop creates a table if and only if it is in the list and missing from the snapshot |
| EnvironmentProperties.TablePlanEmpty | src/1-AspNetCore-CSharp/Data/EnvironmentExtensions.cs:33-36 | with every table present the loop creates nothing |
| EnvironmentProperties.CreateMissingMembers | src/1-AspNetCore-CSharp/Data/EnvironmentExtensions.cs:50-59 | an index check creates an index if and only if it is declared and its name is missing from the list taken at the start, with the declared rule |
| EnvironmentProperties.CreateMissingEmpty | src/1-AspNetCore-CSharp/Data/EnvironmentExtensions.cs:50-59 | with every declared name listed, an index check creates nothing |
| EnvironmentProperties.ReplayTablePlan | src/1-AspNetCore-CSharp/Data/EnvironmentExtensions.cs:28-36 | carrying out the table creations gives the state with the listed tables added, each new one without indexes |
| EnvironmentProperties.ReplayCreateMissing | src/1-AspNetCore-CSharp/Data/EnvironmentExtensions.cs:50-59 | carrying out a table's index creations gives that table its declared indexes, an existing index keeping its rule |
| EnvironmentProperties.ReplayIndexPlan | src/1-AspNetCore-CSharp/Data/EnvironmentExtensions.cs:48-105 | carrying out one table's index creations gives `AfterIndexCheck` |
| EnvironmentProperties.IndexesPlanIsPlans | src/1-AspNetCore-CSharp/Data/EnvironmentExtensions.cs:41-45 | proof helper: unfolds `IndexesPlan` into the generic five-table `Plans` form, listing the tables in the order Category, Comment, Page, Post, User that the C# calls them in |
| EnvironmentProperties.PlansMembers | src/1-AspNetCore-CSharp/Data/EnvironmentExtensions.cs:41-45 | an index creation is among the five checks' calls if and only if it is among one table's calls |
| EnvironmentProperties.PlansEmpty | src/1-AspNetCore-CSharp/Data/EnvironmentExtensions.cs:41-45 | with every declared index present, the five checks create nothing |
| EnvironmentProperties.ReplayChecks | src/1-AspNetCore-CSharp/Data/EnvironmentExtensions.cs:41-45 | carrying out the five checks' calls on distinct tables gives the five checks' state |
| EnvironmentProperties.ReplayIndexesPlan | src/1-AspNetCore-CSharp/Data/EnvironmentExtensions.cs:39-46 | carrying out `CheckIndexes`' calls gives `AfterIndexes` |
| EnvironmentProperties.ReplayDatabasePlan | src/1-AspNetCore-CSharp/Data/EnvironmentExtensions.cs:18-24 | carrying out `CheckDatabase`'s call gives `AfterDatabase` |
| EnvironmentProperties.ReplayTablesAndIndexes | src/1-AspNetCore-CSharp/Data/EnvironmentExtensions.cs:14-15 | carrying out the table then index calls gives the state after both checks |
| EnvironmentProperties.ReplayPlan | src/1-AspNetCore-CSharp/Data/EnvironmentExtensions.cs:11-16 | carrying out the whole run's calls on the starting state gives `Target`: the log alone determines the outcome |
| EnvironmentProperties.CatalogOutside | src/1-AspNetCore-CSharp/Data/EnvironmentExtensions.cs:39-46 | a table other than the five indexed ones (WebLog, or one the code does not know) has no declared index |
| EnvironmentProperties.AfterIndexCheckAt | src/1-AspNetCore-CSharp/Data/EnvironmentExtensions.cs:48-105 | one table's check adds that table's catalog under its existing indexes and touches nothing else |
| EnvironmentProperties.ChecksAt | src/1-AspNetCore-CSharp/Data/EnvironmentExtensions.cs:41-45 | after five checks on distinct tables each of them has its catalog added and every other table is unchanged |
| EnvironmentProperties.AfterIndexesIsChecks | src/1-AspNetCore-CSharp/Data/EnvironmentExtensions.cs:41-45 | proof helper: unfolds `AfterIndexes` into the generic five-table `Checks` form, on Category, Comment, Page, Post, User in the C# order |
| EnvironmentProperties.AfterIndexesAt | src/1-AspNetCore-CSharp/Data/EnvironmentExtensions.cs:39-46 | after the index check every table holds its catalog under its own earlier indexes, and databases and tables are unchanged |
| EnvironmentProperties.CatalogOutsideMerge | src/1-AspNetCore-CSharp/Data/EnvironmentExtensions.cs:39-46 | a table with no declared index keeps its index map |
| EnvironmentProperties.TargetClosedForm | src/1-AspNetCore-CSharp/Data/EnvironmentExtensions.cs:11-108 | after the run: the named database is added, the six tables are added, and each table's indexes are its catalog plus whatever it had before (an existing name keeping its rule) |
| EnvironmentProperties.TargetHoldsCatalog | src/1-AspNetCore-CSharp/Data/EnvironmentExtensions.cs:48-105 | after the run every table holds its declared index names, and a newly created one carries the declared rule |
| EnvironmentProperties.TargetEstablished | src/1-AspNetCore-CSharp/Data/EnvironmentExtensions.cs:11-108 | completeness: after the run the database, the six tables and every declared index exist, and the created indexes have the declared rules |
| EnvironmentProperties.TargetNonDestructive | src/1-AspNetCore-CSharp/Data/EnvironmentExtensions.cs:22-103 | nothing is removed or redefined: every database, table and index present before, declared or not, is still there with the same rule |
| EnvironmentProperties.DeclaredOutside | src/1-AspNetCore-CSharp/Data/EnvironmentExtensions.cs:39-46 | a table outside the five indexed ones declares no index |
| EnvironmentProperties.IndexesPlanMembers | src/1-AspNetCore-CSharp/Data/EnvironmentExtensions.cs:39-105 | after the table check, the index check creates an index if and only if the table is one of the five, the name is declared for it and missing, with the declared rule |
| EnvironmentProperties.PlanCreatesExactlyMissing | src/1-AspNetCore-CSharp/Data/EnvironmentExtensions.cs:11-105 | the run creates a database, table or index if and only if it is declared and missing beforehand, with the declared rule |
| EnvironmentProperties.TablesPresent | src/1-AspNetCore-CSharp/Data/EnvironmentExtensions.cs:26-37 | with the six tables present the table check creates nothing and changes nothing |
| EnvironmentProperties.EstablishedPlanEmpty | src/1-AspNetCore-CSharp/Data/EnvironmentExtensions.cs:11-105 | on a server that already holds everything declared, the run creates nothing |
| EnvironmentProperties.EstablishedIff | src/1-AspNetCore-CSharp/Data/EnvironmentExtensions.cs:11-105 | the run creates nothing, and equally leaves the server unchanged, if and only if the server already holds everything declared |
| EnvironmentProperties.Idempotent | src/1-AspNetCore-CSharp/Data/EnvironmentExtensions.cs:11-105 | a second run on the result issues no create call and leaves the server as it is |
| EnvironmentProperties.MissingTagsIndexRun | src/1-AspNetCore-CSharp/Data/EnvironmentExtensions.cs:86-97 | on a server that lacks only Post's `Tags` index, the run issues exactly one call, the multi-valued `Tags` creation on Post |

## Left out

- Network and asynchrony: `Connect()`, `RunResult`/`RunResultAsync` and the
  `await`s are not modelled. The driver's list and create calls are the
  methods of `RethinkStore.Store`, run one after another.
- Create failures: a create call in the C# fails on a server where the
  object already exists; here the create methods require absence, which
  the preceding list discharges. Concurrent runs, "already exists"
  tolerance and retries do not exist in the code and are not modelled.
- The `Table` class of the Uno application is not part of this model.
  Its six names are placeholders whose only modelled property is that
  they are distinct.
- Tables are not scoped per database: the C# creates tables and indexes on
  the connection's default database, which is not necessarily the one it
  checks. The model keeps a single table namespace.
- The reconciler's indexes are modelled as written. Post gets `WebLogId`
  and the multi-valued `Tags`, which differs from the RavenDB index
  classes. Index functions are reduced to their key rule; the server-side
  lambda is not evaluated.
- Guids.ParseGuid: only the "D" form (8-4-4-4-12 hex digits with hyphens,
  any letter case) is accepted. .NET's `Guid.Parse` also accepts other
  inputs, which give the failure pair here instead of a GUID:
  - the N, B, P and X forms;
  - surrounding white space;
  - inside the "D" form, a component that starts with "+" and/or
    "0x"/"0X" and keeps its length. For example, .NET reads
    "+0000000-0000-0000-0000-000000000000" as the empty GUID, so
    `FromId` of "Posts/" followed by that text gives ("Posts",
    Guid.Empty) in C# and the failure pair here.
- The driver's default settings are not visible. The default builder
  leaves every setting unset, and the configured builder is compared
  against that.
- `int32` values (port, timeout) are only passed through; no arithmetic
  is done on them.
- `DataConfig.FromJson` and JSON attributes are not modelled. Missing JSON
  fields are the null and zero defaults of `DataConfig`.
- RavenDB's compilation, deployment and querying of the index classes are
  not modelled; only the meaning of each `Map` comprehension is.
- The entity classes contribute only their field shapes. `Revision` and
  `Authorization` are abstract types.
- Null entity fields are not modelled. Entity strings (the optional
  references `Category.ParentId` and `Comment.InReplyToId` included) and
  the lists `CategoryIds`, `Tags` and `Children` are never null here. An
  index entry built from a null field is therefore not covered.
- Collection.IdFor: the collection name is never null here. C#
  interpolation turns a null name into "", which is the same as passing
  "".
- Hosting, dependency injection, configuration loading and the HTTP
  modules are not part of this model.
