# Route tree model

A Dafny model of `RouteNode` from `src/lib/route-node.ts`: a static tree of URL
path segments from which absolute, relative and parameterised URLs are built.

Each RouteNode object is a `Node` record in an arena (`RouteNodes.RouteTree.nodes`)
and is named by its index there. A node's children are passed to its
constructor, so they are created before it. A parent therefore always has a
larger index than its children (`ParentsAbove`), and every upward walk ends.
`WellFormed` also says that the `parent` links are exactly the inverse of the
`children` maps. `CacheValid` says that every truthy `_absoluteUrl` cache holds
the node's absolute URL. `NewRouteNode`, `AbsoluteUrl` and the methods built
on it (`AbsoluteUrlWithoutLeading`, `GetAbsoluteUrlWithParams`,
`GetAbsoluteUrlWithQuery`, `AbsoluteUrlTwice`) keep both. `SetParent` and
`SetParentOfChildren` are the steps inside the constructor: they state their
exact effect, and `AttachKeepsWellFormed` and `AttachKeepsCachesValid`
restore the invariant once every child has been wired.

The pure parts are functions with lemmas about them:

- `Segments`: the two ways segments are joined.
  - The upward walk of `getRelativeWithParents` (`JoinNonEmpty`) is the plain
    "/"-join of the non-empty segments.
  - `absoluteUrl` (`Prefixed`) puts "/" in front of every non-empty segment.
- `Placeholders`: the tokens that the global pattern `:[^/]*` matches, and the
  construction-time check that each token is declared.
- `Substitution`: `indexOf` and first-occurrence `replace`, and the ordered
  substitution that `getAbsoluteUrlWithParams` performs.

The imperative parts are methods of `RouteTree`:

- the constructor's loop that sets each child's `parent`;
- the memoising `absoluteUrl` getter, which writes `_absoluteUrl`;
- the `while` loop of `getRelativeWithParents`;
- the `for` loop of `getAbsoluteUrlWithParams`.

Each method is proved against those functions.

The constructor takes `(relativeUrl, children, { params, queryParams })`
(route-node.ts:10-17). The error for a missing declaration lists the tokens
with their leading ':' (route-node.ts:111, 116, 119).

## Model

| member | source | states |
|---|---|---|
| `RouteNodes.RouteTree.NewRouteNode` | src/lib/route-node.ts:10-29 | The new node stores its segment, children, params and queryParams, and has no parent. Exactly its children get it as their parent; nothing else changes. Construction fails exactly when `ValidateParamsInUrl` reports missing tokens. The error carries the node's URL at that moment ("/" + segment) and the missing tokens. The children stay wired even on failure. Arena validity and cache validity are kept. |
| `RouteNodes.RouteTree.SetParentOfChildren` | src/lib/route-node.ts:22-26 | After the loop, every node in the children set has the new node as parent. Every other node is unchanged. |
| `RouteNodes.RouteTree.SetParent` | src/lib/route-node.ts:106-108 | Only the child's `parent` field changes. |
| `RouteNodes.AttachKeepsWellFormed` | src/lib/route-node.ts:22-26 | Wiring root children to a new node keeps parent links acyclic and inverse to the children maps. |
| `RouteNodes.AttachKeepsOtherUrls` | src/lib/route-node.ts:22-26 | Attaching subtrees does not change the absolute URL of any node outside them. |
| `RouteNodes.AttachKeepsCachesValid` | src/lib/route-node.ts:47-55 | If no URL in the attached subtrees was read before, every cached URL is still correct after attaching. |
| `Placeholders.RunLengthIsMaximal` | src/lib/route-node.ts:111 | The `[^/]*` part of a token is '/'-free and stops at a '/' or at the end of the string. |
| `Placeholders.Tokens` | src/lib/route-node.ts:111 | The global match returns no more tokens than the segment has characters. Their shape and position are fixed by `TokensAreTokens`, `TokenOfSegment` and `TokensAcrossSlash`. |
| `Placeholders.TokensAreTokens` | src/lib/route-node.ts:111 | Every match is a ':' followed by characters other than '/'. |
| `Placeholders.TokensEmptyIff` | src/lib/route-node.ts:111-113 | There are tokens exactly when the segment contains a ':'. |
| `Placeholders.TokensAcrossSlash` | src/lib/route-node.ts:111 | Tokens never cross a '/'. The tokens of `a + "/" + b` are the tokens of `a` followed by those of `b`. |
| `Placeholders.TokenOfSegment` | src/lib/route-node.ts:111 | In a '/'-free part, the only token runs from the first ':' to the end. Together with `TokensAcrossSlash`, this fixes every token of a segment. |
| `Placeholders.DeclaredTokens` | src/lib/route-node.ts:114 | The set of declared tokens is exactly ":" + v for each declared value v. |
| `Placeholders.Missing` | src/lib/route-node.ts:116 | The filter keeps exactly the tokens that are not declared. |
| `Placeholders.ValidateParamsInUrl` | src/lib/route-node.ts:110-122 | A token is reported exactly when it is not declared. The report is empty exactly when every token is declared. There is never a report when the segment has no ':'. |
| `Placeholders.ValidateParamsOverDeclaration` | src/lib/route-node.ts:114-118 | Declaring more names never adds a missing token. Unused declarations never cause failure. |
| `Placeholders.TokensOfTrailingPlaceholder` | src/lib/route-node.ts:111 | A colon-free segment followed by "/:name" has exactly the token ":name". |
| `Placeholders.TrailingPlaceholderValidation` | src/lib/route-node.ts:110-122 | "users/:id" reports [":id"] unless some declared param value is "id". When one does, it reports nothing. |
| `RouteNodes.AbsUrl` | src/lib/route-node.ts:46-56 | The absolute URL is empty or starts with "/". |
| `RouteNodes.AbsUrlIsPrefixedChain` | src/lib/route-node.ts:46-56 | The absolute URL is "/" + segment for each non-empty segment from the root down to the node, concatenated. An all-empty chain gives "". |
| `RouteNodes.AbsUrlIgnoresCaches` | src/lib/route-node.ts:46-56 | The absolute URL depends only on segments and parent links. Rewriting caches never changes it, so repeated reads agree. |
| `RouteNodes.CacheWriteKeepsValid` | src/lib/route-node.ts:47-53 | Storing the computed URL in `_absoluteUrl` changes only that cache and keeps the arena valid. |
| `RouteNodes.RouteTree.AbsoluteUrl` | src/lib/route-node.ts:46-56 | The getter returns `AbsUrl` of the node, and afterwards the node's cache holds that value. It changes only caches, and only those on the node's own parent chain, each to that node's URL. It keeps the arena valid. |
| `Segments.DropLeading` | src/lib/route-node.ts:59 | `slice(1)` gives "" for "" and otherwise the string without its first character. |
| `RouteNodes.RouteTree.AbsoluteUrlWithoutLeading` | src/lib/route-node.ts:58-60 | The result is the absolute URL without its first character. Whenever the absolute URL is non-empty, it equals "/" + the result. Only the caches on the node's parent chain change, each to its own URL. |
| `RouteNodes.AncestorSegments` | src/lib/route-node.ts:71-83 | The walk inspects min(n, number of ancestors) ancestors, and none when n <= 0. Empty ancestors still use up a level. |
| `RouteNodes.RelativeWithParents` | src/lib/route-node.ts:66-86 | When n <= 0 or the node has no parent, the result is the node's own segment. |
| `Segments.JoinNonEmptyIsJoin` | src/lib/route-node.ts:76-83 | The walk's result is the "/"-join of the non-empty segments in root-to-leaf order. If the node's own segment is empty, the nearest non-empty ancestor segment comes last. |
| `Segments.JoinNonEmptySkipsEmpty` | src/lib/route-node.ts:77-78 | An empty segment anywhere adds nothing. |
| `Segments.PrefixedIsSlashJoin` | src/lib/route-node.ts:49-51 | "/" before every non-empty segment equals "/" before their join, or "" when all segments are empty. |
| `RouteNodes.WalkStep` | src/lib/route-node.ts:76-83 | One iteration moves one ancestor's segment from the part still to visit to the part already visited. |
| `RouteNodes.RouteTree.GetRelativeWithParents` | src/lib/route-node.ts:66-86 | It fails with `TooHighNumberOfParents` exactly when n > 1000. Otherwise the loop returns `RelativeWithParents(n)`. |
| `RouteNodes.AncestorSegmentsSaturate` | src/lib/route-node.ts:76 | Once n reaches the number of ancestors, larger n changes nothing. |
| `RouteNodes.RelativeWithAllParents` | src/lib/route-node.ts:66-86 | With at least as many levels as ancestors, the non-throwing result `RelativeWithParents` equals `absoluteUrlWithoutLeading`. For n > 1000 the method throws instead, as `GetRelativeWithParents` states. |
| `RouteNodes.RelativeWithOneParent` | src/lib/route-node.ts:62-64 | One level is the parent's segment and the node's own. They are joined by "/" when both are non-empty; otherwise the result is whichever one is non-empty. |
| `RouteNodes.RouteTree.RelativeUrlWithParent` | src/lib/route-node.ts:62-64 | The getter is `getRelativeWithParents(1)` and never fails. It gives the node's segment for a root. Otherwise it gives the one-level join above. |
| `Substitution.IndexOf` | src/lib/route-node.ts:92 | The index found is the first occurrence of the pattern. None means the pattern occurs nowhere. |
| `Substitution.ReplaceFirst` | src/lib/route-node.ts:92 | With no occurrence, the string is unchanged. Otherwise exactly the first occurrence is replaced by the value. |
| `Substitution.ReplacePlaceholderAfterColonFree` | src/lib/route-node.ts:91-93 | A placeholder preceded by no ':' is the one replaced. |
| `Substitution.SubstituteParams` | src/lib/route-node.ts:91-93 | The entries are substituted one after another, each with the first-occurrence replacement of `ReplaceFirst`. A URL without ':' is unchanged when no value contains ':'. |
| `Substitution.UsersIdExample` | src/lib/route-node.ts:88-100 | "/users/:id" with id = "42" gives "/users/42". |
| `Substitution.ShorterNameHitsLongerPlaceholder` | src/lib/route-node.ts:91-93 | Replacement is textual. A name that is a prefix of an earlier, longer placeholder replaces that placeholder's start: "/:identifier/:id" with id = "5" gives "/5entifier/:id". |
| `RouteNodes.RouteTree.GetAbsoluteUrlWithParams` | src/lib/route-node.ts:88-100 | The result is `SubstituteParams` of the absolute URL. When a query is given, that URL is then passed through the query merge, and the call fails with `InvalidUrl` exactly when the merge throws. Only the caches on the node's parent chain change, each to its own URL. |
| `RouteNodes.RouteTree.GetAbsoluteUrlWithQuery` | src/lib/route-node.ts:102-104 | The result is the query merge applied to the absolute URL, or `InvalidUrl` exactly when the merge throws. Only the caches on the node's parent chain change, each to its own URL. |
| `RouteNodes.RouteTree.AbsoluteUrlTwice` | src/lib/route-node.ts:46-56 | Two successive reads of the getter return the same URL, `AbsUrl` of the node, although the first read fills caches. |

## Left out

- `UrlUtils.addQueryToUrl` (src/lib/url.utils.ts) wraps the WHATWG URL parser and serialiser, which are not part of this model. `GetAbsoluteUrlWithParams` and `GetAbsoluteUrlWithQuery` take it as a function parameter of type `QueryMerge`, which returns None where `new URL(...)` throws (for example on "//api", the absolute URL of a root segment "/api"). Which inputs throw, and what a successful merge returns, is left to that parameter.
- Replacement patterns such as `$&` and `$$` in `String.prototype.replace` are not modelled. The value is inserted literally.
- Token extraction is a function over characters, not a regular-expression engine.
- The error message text is not modelled. `MissingParamDefinition` carries the URL and the list of missing tokens that the message shows.
- TypeScript generics and symbol-keyed children are not modelled. `Object.values` skips symbol keys, so the constructor never wires a child stored under one. Children are a `map<string, nat>` of arena indices, which models exactly the string-keyed children the constructor wires. The `_` alias getter is not modelled. The `relativeUrl` getter is the `relativeUrl` field of `Node`. `queryParams` is stored and never read, as in the source.
- Query and parameter objects are sequences of entries in `Object.entries` order. A sequence may repeat a name, which a JavaScript object cannot.
- `numberOfParents` is an integer. Fractional values, `NaN` and infinities of a JavaScript number are not modelled.
- NewRouteNode: requires its children to be roots, and no node in their subtrees to hold a truthy cached URL. The source does not check this. Giving a node a second parent leaves the old parent's `children` naming it, which breaks the inverse link of `WellFormed`. Reading a URL in a subtree before it is attached leaves a stale cache. The model rules out both kinds of misuse.
- `RouteNodes.RouteTree.GetRelativeWithParents` and `RouteNodes.RouteTree.RelativeUrlWithParent` require only acyclic parent links, not the whole arena invariant, because they read no cache.
- Concurrency and object identity beyond arena indices are not modelled. Garbage collection of nodes whose construction failed is not modelled either: such a node stays in the arena, as it stays reachable from its children's `parent` fields.
