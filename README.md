# CloudHive feature idea portal: the idea repository, modelled in Dafny

The portal lets employees submit feature ideas, search and page through
them sorted by upvotes, vote on them and delete them. All of that goes
through the server actions of `lib/actions/idea-actions.ts`. Each action
reads the whole idea collection from a JSON document, computes, and
(create, delete, vote) writes the whole collection back. This project models
those actions and the two display helpers of `lib/utils.ts`, and proves
what they promise.

Layout:

- `types.dfy` (module `IdeaTypes`): the records `Idea`, `Employee`,
  `IdeaFormData` and `PaginatedIdeas`, the priority levels and vote kinds,
  and `Option`/`Result`.
- `js.dfy` (module `Js`): the ECMAScript built-ins that decide the edge
  cases. These are `toLowerCase`, `includes`, `slice` with negative and
  out-of-range indices, and `Math.ceil` of a quotient.
- `idea_query.dfy` (module `IdeaQuery`): each action's computation as
  functions on the collection (a `seq<Idea>`), with the lemmas about them:
  - the search filter
  - the stable descending sort by upvotes (`Array.prototype.sort` has been
    stable since ES2019)
  - paging
  - look-up, removal and vote by id
  - the new record built by `createIdea`
- `idea_actions.dfy` (module `IdeaActions`): the class `IdeaStore`. Its
  field `ideas` stands for the persisted document. Its methods are the five
  actions, each proved against the functions of `IdeaQuery`.
- `utils.dfy` (module `Utils`): `truncateString` and
  `getPriorityBadgeColor`.

The employee list, the fresh uuid and the creation timestamp are
parameters of `CreateIdea`.

Main results:

- The listing is the unique stable sort of the matches: see
  `SortByUpvotesStable` and `SortByUpvotesIsTheStableSort`. Each listed page
  is sorted, holds at most `limit` ideas, and holds only matching ideas of
  the collection.
- `totalPages` is the least number of pages that holds every match.
- Pages `1..totalPages` put together give back the whole sorted list, and
  every later page is empty.
- `deleteIdea`'s length test is exactly "the id was present". With unique
  ids, it removes exactly one idea.
- Unique ids are preserved by create (given a fresh id), delete and vote.
  A vote changes one counter of one idea and nothing else.

## Model

| member | source | states |
|---|---|---|
| Js.LowerChar | lib/actions/idea-actions.ts:65-66 | `toLowerCase` on one character: A-Z move to a-z, every other character is unchanged |
| Js.ToLowerCase | lib/actions/idea-actions.ts:65-66 | lower-casing keeps the length, maps every character by `LowerChar`, and leaves no upper-case ASCII letter |
| Js.ToLowerCaseIdempotent | lib/actions/idea-actions.ts:65-66 | lower-casing an already lower-cased string changes nothing |
| Js.OccursInTail | lib/actions/idea-actions.ts:65-66 | when `t` is not at index 0 of `s`, then `t` occurs in `s` exactly when it occurs in `s[1..]` |
| Js.Includes | lib/actions/idea-actions.ts:65-66 | `includes` is true exactly when the term occurs at some index as a contiguous substring |
| Js.RelativeIndex | lib/actions/idea-actions.ts:78 | a `slice` index is clamped to `0..len`, and a negative one counts from the end |
| Js.Slice | lib/actions/idea-actions.ts:78 | a slice is never longer than its input; for `0 <= start <= end` it is the clamped sub-range |
| Js.CeilDiv | lib/actions/idea-actions.ts:74 | `Math.ceil(n / d)` is the least `q` with `q * d >= n`; it is 0 exactly when `n` is 0 |
| IdeaQuery.MatchesSearch | lib/actions/idea-actions.ts:64-66 | an idea matches when its summary or its description contains the term, case-insensitively |
| IdeaQuery.KeepMatching | lib/actions/idea-actions.ts:63-67 | the filter keeps exactly the matching ideas and never grows the list |
| IdeaQuery.FilterBySearch | lib/actions/idea-actions.ts:62-68 | an empty search keeps the collection as it is; otherwise the result holds exactly the matching ideas |
| IdeaQuery.KeepMatchingAppend | lib/actions/idea-actions.ts:63-67 | filtering keeps the collection's order: it distributes over concatenation |
| IdeaQuery.KeepMatchingCount | lib/actions/idea-actions.ts:63-67 | every copy of a matching idea is kept, and no copy of any other idea |
| IdeaQuery.SortedCons | lib/actions/idea-actions.ts:71 | an idea with at least as many upvotes as every idea of a sorted list can go in front of it |
| IdeaQuery.InsertByUpvotes | lib/actions/idea-actions.ts:71 | inserting adds exactly that idea to the multiset of ideas |
| IdeaQuery.InsertByUpvotesSorted | lib/actions/idea-actions.ts:71 | inserting into a list sorted by descending upvotes keeps it sorted |
| IdeaQuery.SortByUpvotes | lib/actions/idea-actions.ts:71 | the comparator `b.upvotes - a.upvotes` sorts by descending upvotes, and the result is a permutation of the input |
| IdeaQuery.WithUpvotesMember | lib/actions/idea-actions.ts:71 | an idea is in the group of upvote count `v` exactly when it is in the list and has `v` upvotes |
| IdeaQuery.WithUpvotesCons | lib/actions/idea-actions.ts:71 | the group of `v` of a list with head `h` is `h` (when `h` has `v` upvotes) followed by the group of the tail |
| IdeaQuery.InsertByUpvotesStable | lib/actions/idea-actions.ts:71 | inserting an idea puts it before every old idea with the same upvote count |
| IdeaQuery.SortByUpvotesStable | lib/actions/idea-actions.ts:71 | the sort is stable: the ideas with any given upvote count keep their input order |
| IdeaQuery.FirstHasMostUpvotes | lib/actions/idea-actions.ts:71 | the first idea of a sorted list has the most upvotes |
| IdeaQuery.FirstOpensItsGroup | lib/actions/idea-actions.ts:71 | the first idea of any non-empty list opens the group of its own upvote count |
| IdeaQuery.SameFirstIdea | lib/actions/idea-actions.ts:71 | two sorted lists with the same groups start with the same idea |
| IdeaQuery.SameGroupsAfterFirst | lib/actions/idea-actions.ts:71 | two non-empty lists with the same groups and the same first idea have the same groups after it |
| IdeaQuery.SortedStableUnique | lib/actions/idea-actions.ts:71 | a list sorted by upvotes is determined by its groups: two such lists with equal groups are equal |
| IdeaQuery.SortByUpvotesIsTheStableSort | lib/actions/idea-actions.ts:71 | any sorted list that has the input's groups is the model's sort of the input, so the stable sort's output is determined |
| IdeaQuery.PageOf | lib/actions/idea-actions.ts:75-78 | page `p >= 1` is the range starting at `(p-1)*limit` of at most `limit` ideas, empty past the end; page 0 is empty |
| IdeaQuery.NegativePageCountsFromEnd | lib/actions/idea-actions.ts:75-78 | a negative page is not rejected: slice reads its indices from the end of the list |
| IdeaQuery.SliceOfSorted | lib/actions/idea-actions.ts:78 | any slice of a sorted list is sorted and holds only ideas of the list |
| IdeaQuery.PageOfSorted | lib/actions/idea-actions.ts:75-78 | any page of a sorted list is sorted and holds only ideas of the list |
| IdeaQuery.GetIdeas | lib/actions/idea-actions.ts:54-86 | `currentPage` echoes the request; `totalIdeas` counts the matches, never more than the collection |
| IdeaQuery.ListedPageIsSortedMatches | lib/actions/idea-actions.ts:62-85 | every listed page is sorted by upvotes, has at most `limit` ideas when `page >= 1`, and holds only matching ideas of the collection |
| IdeaQuery.TotalPagesIsCeiling | lib/actions/idea-actions.ts:73-74 | `totalPages` pages of `limit` ideas hold every match and one page fewer would not; an empty collection has 0 pages |
| IdeaQuery.PrefixThenPage | lib/actions/idea-actions.ts:75-78 | a clamped prefix of length `a` followed by the slice `[a, a+limit)` is the clamped prefix of length `a+limit` |
| IdeaQuery.StartOfNextPage | lib/actions/idea-actions.ts:75-76 | page `k+1` starts where page `k` ends |
| IdeaQuery.PagesUpToPrefix | lib/actions/idea-actions.ts:75-78 | pages 1 to `k`, one after the other, are exactly the first `k*limit` ideas: consecutive, contiguous and disjoint |
| IdeaQuery.ListedPageIsRange | lib/actions/idea-actions.ts:71-81 | for `page >= 1` the listed ideas are the filtered, sorted list from index `(page-1)*limit` up to `limit` ideas later or the end of the list, and none once that start is past the end |
| IdeaQuery.PagesTile | lib/actions/idea-actions.ts:71-83 | pages 1 to `totalPages` together are the whole sorted list of matches, `totalIdeas` ideas in all |
| IdeaQuery.StartPastPage | lib/actions/idea-actions.ts:75 | a page after page `q` starts at or beyond `q*limit` |
| IdeaQuery.PagePastLastIsEmpty | lib/actions/idea-actions.ts:74-78 | every page after the last is empty |
| IdeaQuery.SortPairExample | lib/actions/idea-actions.ts:71 | ideas with 5 and 10 upvotes are listed 10 first |
| IdeaQuery.InsertExample | lib/actions/idea-actions.ts:71 | an idea with 5 upvotes goes behind one with 10 and in front of a later one with 5 |
| IdeaQuery.SortExample | lib/actions/idea-actions.ts:71 | ideas with 5, 5 and 10 upvotes are listed third, first, second: tied ideas keep their order |
| IdeaQuery.PageOfThree | lib/actions/idea-actions.ts:75-78 | on a three-idea list, page 1 of 20 is the whole list and page 2 of 1 is the middle idea |
| IdeaQuery.FirstPageExample | lib/actions/idea-actions.ts:54-86 | with the default page 1 and limit 20, those three ideas come back in the order of `SortExample` |
| IdeaQuery.SecondPageExample | lib/actions/idea-actions.ts:54-86 | with one idea to a page, page 2 holds the second-ranked idea |
| IdeaQuery.PageCountExample | lib/actions/idea-actions.ts:73-74 | with one idea to a page, three ideas make three pages |
| IdeaQuery.FindIndex | lib/actions/idea-actions.ts:146-150 | `findIndex` is `None` (for -1) exactly when no idea has the id; otherwise it is the first index holding the id |
| IdeaQuery.FindById | lib/actions/idea-actions.ts:89-92 | `find ... \|\| null` is `None` exactly when no idea has the id; otherwise it is the first idea with that id |
| IdeaQuery.FindEmployee | lib/actions/idea-actions.ts:100-102 | the employee look-up is `None` exactly when no employee has the id; otherwise it is the first employee with that id |
| IdeaQuery.RemoveById | lib/actions/idea-actions.ts:130 | the filter keeps exactly the ideas with another id; the length is unchanged exactly when no idea had the id |
| IdeaQuery.RemoveByIdCons | lib/actions/idea-actions.ts:130 | removing from a list with head `h` drops `h` exactly when it carries the id, and removes from the tail |
| IdeaQuery.RemoveByIdAppend | lib/actions/idea-actions.ts:130 | removal distributes over concatenation, keeping the order |
| IdeaQuery.RemoveByIdAbsent | lib/actions/idea-actions.ts:130-134 | removing an id that is absent changes nothing |
| IdeaQuery.UniqueIdsCons | lib/actions/idea-actions.ts:121 | prepending keeps ids unique exactly when the new id is not in the list and the list has unique ids |
| IdeaQuery.RemoveByIdKeepsUnique | lib/actions/idea-actions.ts:130 | removal keeps ids unique |
| IdeaQuery.RemoveByIdDeletesOne | lib/actions/idea-actions.ts:128-137 | with unique ids, deleting a present id deletes just the idea at its index and keeps the others in order |
| IdeaQuery.RemovedIsNotFound | lib/actions/idea-actions.ts:128-137 | after removal, looking the id up finds nothing |
| IdeaQuery.ApplyVote | lib/actions/idea-actions.ts:152-158 | an upvote raises `upvotes` by one, a downvote raises `downvotes` by one, and no other field changes |
| IdeaQuery.NewIdea | lib/actions/idea-actions.ts:108-119 | the new record takes its id and creation time from the parameters, summary, description and employee id from the form, name and image from the employee, the form's priority or "Low" when it is unset, and no votes |
| IdeaQuery.NewIdeaFirstAmongUnvoted | lib/actions/idea-actions.ts:108-121 | a new idea is listed before every other idea with no upvotes, since it is prepended and the sort is stable |
| IdeaQuery.FirstIdeaWithIdUnique | lib/actions/idea-actions.ts:146 | only one index can be the first holding a given id |
| IdeaQuery.VotedIsFound | lib/actions/idea-actions.ts:146-160 | after a vote, looking the id up returns the voted idea |
| IdeaActions.IdeaStore.constructor | lib/actions/idea-actions.ts:19-27 | the store starts from the given collection |
| IdeaActions.IdeaStore.GetIdeas | lib/actions/idea-actions.ts:54-86 | the action returns the listing of the current collection and changes nothing |
| IdeaActions.IdeaStore.GetIdeaById | lib/actions/idea-actions.ts:89-92 | the action returns the first idea with the id, or `None` exactly when there is none |
| IdeaActions.IdeaStore.CreateIdea | lib/actions/idea-actions.ts:95-125 | fails (collection unchanged) exactly when no employee has the form's id; otherwise prepends the new idea, with every field stated, and keeps ids unique when the new id is fresh |
| IdeaActions.IdeaStore.DeleteIdea | lib/actions/idea-actions.ts:128-138 | reports `true` exactly when the id was present; then the collection is the filtered one, otherwise unchanged; keeps ids unique, and with unique ids shrinks by one |
| IdeaActions.IdeaStore.VoteIdea | lib/actions/idea-actions.ts:141-164 | `None` (unchanged) exactly when the id is absent; otherwise replaces the idea at the first index with that id by the voted copy and returns it; length, ids and uniqueness are kept |
| IdeaTypes.PriorityName | lib/types.ts:11 | each priority level is spelled "High", "Medium" or "Low", and each spelling belongs to exactly one level |
| Utils.TruncateString | lib/utils.ts:50-53 | a string no longer than the limit is returned as is; a longer one is cut to the limit (counted from the end for a negative limit) and gets "..." appended |
| Utils.TruncatedShape | lib/utils.ts:50-53 | for a limit `n >= 0` below the length, the result has length `n + 3`: the first `n` characters, then "..." |
| Utils.TruncateIdempotent | lib/utils.ts:50-53 | for a limit `n >= 0`, truncating twice is the same as truncating once |
| Utils.TruncateLengthBound | lib/utils.ts:50-53 | for a limit `n >= 0`, the result's length lies between `min(len, n)` and `max(len, n + 3)` |
| Utils.BadgesDistinct | lib/utils.ts:34-40 | the four badge class strings are pairwise different |
| Utils.PriorityBadgeColor | lib/utils.ts:31-42 | "High", "Medium" and "Low" each get their own badge, and only they do; every other string gets the gray default |
| Utils.PriorityBadgesDistinct | lib/utils.ts:31-42 | every priority level gets a coloured badge, and different levels get different badges |

## Left out

- File I/O (`readIdeasFile`, `writeIdeasFile`, `readEmployeesFile`, lib/actions/idea-actions.ts:19-51) is left out. The document becomes the field `IdeaStore.ideas`, and the employee file becomes the `employees` parameter of `CreateIdea`. A missing or unreadable file, which the source reads as `[]`, is not modelled separately: it is the store built from `[]`.
- The JSON encoding is left out. The fields are taken to hold values of the declared types.
- `uuidv4()` and `new Date().toISOString()` are left out: they are the parameters `newId` and `createdAt`. The uuid is not assumed to be fresh, so `CreateIdea` keeps ids unique only under the stated condition that `newId` is not already used.
- Concurrency is not modelled. Each action runs as one atomic step; interleaved read-modify-write of the file by concurrent requests, which can lose updates, is out of scope.
- The `throw new Error("Employee not found")` of `createIdea` is returned as `Err(EmployeeNotFound)`.
- The default arguments of `getIdeas` (`page = 1`, `limit = 20`, `search = ""`) are left out. The caller, the route at app/api/ideas/route.ts:8-13, always passes all three (with its own fallbacks, page 2 and limit 20).
- The HTTP routes, the React components, the hooks, zod validation, `cn` and `formatDate` are not part of this model.
- IdeaQuery.GetIdeas: `limit >= 1` (as in IdeaActions.IdeaStore.GetIdeas) is required. The route passes `parseInt` of the query unchecked (app/api/ideas/route.ts:9). With `limit == 0`, `Math.ceil(totalIdeas / limit)` gives `Infinity` or `NaN` pages. With a negative limit, `totalPages` is negative (or -0), and the `slice` bounds are read from the end of the list; page 1 with limit -1 is `slice(0, -1)`, every idea but the last. Non-integer pages and limits, and numbers beyond 2^53, are not modelled either, because JavaScript numbers are floating point.
- Js.ToLowerCase: lower-casing is modelled for ASCII letters only. Non-ASCII case mappings of `toLowerCase` are not modelled.
- Utils.TruncateString: `length` and `slice` are taken over Dafny characters (Unicode scalar values), whereas JavaScript counts UTF-16 code units. The two differ on characters outside the Basic Multilingual Plane.
- `IdeaFormData.priority` is declared required in lib/types.ts:28-33, but `createIdea` falls back to "Low" (lib/actions/idea-actions.ts:115). The model therefore carries it as an `Option<Priority>`.
- `voteIdea`'s implicit third case, a vote kind that is neither "upvote" nor "downvote", which would change nothing, is excluded by the two-value `VoteType`.
- The counters `upvotes` and `downvotes` are unbounded naturals: JavaScript number precision is not modelled.
