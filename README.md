# Football match board: a Dafny model of its data-shaping core

The system lists today's football fixtures from a third-party provider. It caches the
provider's replies for an hour and shows them in a browser, grouped by competition, with a
page per match. This project models the parts of it that compute something:

- **Squad ordering** (`sortSquad`): a team's roster sorted by position rank
  (Goalkeeper, Defender, Midfielder, Forward, then any other label) and then by name.
  Like the stable `Array.prototype.sort`, it keeps players equal in both in their input order.
- **Competition grouping** (the `groups` computation of the match list): one pass over the
  matches that builds one group per competition, in first-seen order.
- **Response cache** (`getCached` / `setCached`): a keyed upsert store with a one-hour
  freshness window. Store failures turn into a miss or a no-op.
- **The two store slices** (match page and match list): three- and five-field states and their
  pending / fulfilled / rejected (and clear) reducers, with each slice's error fallback.
- **Upstream projection** (`mapMatch` and the reply handling of `fetchMatches`): raw provider
  records projected onto the internal record types, with defaults for absent top-level fields.

One module per source file: `MatchTypes` (the record types), `JsOperators` (the `||` and `??`
fallbacks), `SquadOrder`, `CompetitionGroups`, `Cache`, `MatchDetailSlice`, `MatchesSlice` and
`FootballApi`, plus `Wrappers` (Option and Result).

Where the source mutates state, the model is imperative:

- The grouping loop is the method `GroupByCompetition`, proved equal to the declarative `Grouped`.
- The cache is the class `CacheStore`, with its documents held in a `map` field.
- Each slice is a class with the state's fields and one method per reducer.

The squad sort and the upstream projection are pure in the source, so they are functions.

Inputs the source gets from its environment become parameters: `Date.now()` is `now`, the
database's availability is `backendUp`, and the provider's reply is an `UpstreamResponse` value.

Two behaviours of the code shape the model:

- The list endpoint does not use the cache: backend/src/routes/matches.ts:6-8 calls
  `fetchMatches` directly, so the cache is modelled as its own two operations.
- A record missing a nested object makes `mapMatch` throw a `TypeError`. The model fails the
  whole list with `MalformedUpstreamData` and skips no record.

## Model

| member | source | states |
|---|---|---|
| SquadOrder.PositionRank | frontend/src/components/MatchDetail.tsx:39-49 | the four table labels rank 0 to 3; every other label ranks `Number.MAX_SAFE_INTEGER`, above all four |
| SquadOrder.LexCompare | frontend/src/components/MatchDetail.tsx:55 | the name comparison returns -1, 0 or 1, as a three-way comparator |
| SquadOrder.LexCompareFlip | frontend/src/components/MatchDetail.tsx:55 | swapping the two names negates the name comparison |
| SquadOrder.LexCompareZero | frontend/src/components/MatchDetail.tsx:55 | the name comparison is zero exactly on equal names |
| SquadOrder.LexCompareTransitive | frontend/src/components/MatchDetail.tsx:55 | the name order is transitive |
| SquadOrder.Compare | frontend/src/components/MatchDetail.tsx:47-56 | a lower rank sorts first and a higher rank last; on equal ranks the names decide |
| SquadOrder.CompareMeaning | frontend/src/components/MatchDetail.tsx:48-55 | the comparator orders by the key (rank, name) lexicographically; zero exactly on equal rank and equal name |
| SquadOrder.CompareFlip | frontend/src/components/MatchDetail.tsx:51-55 | the comparator is antisymmetric: swapping the players negates it |
| SquadOrder.CompareTransitive | frontend/src/components/MatchDetail.tsx:48-55 | the comparator is transitive, so it is a consistent comparator for `sort` |
| SquadOrder.Insert | frontend/src/components/MatchDetail.tsx:47 | one insertion step adds exactly the new player to the multiset of players |
| SquadOrder.InsertSorted | frontend/src/components/MatchDetail.tsx:47-56 | inserting into a sorted roster keeps it sorted under the comparator |
| SquadOrder.SortSquad | frontend/src/components/MatchDetail.tsx:46-57 | the result has the input's length and multiset of players and is sorted under the comparator; the input, a value, is not changed |
| SquadOrder.SortSquadOrder | frontend/src/components/MatchDetail.tsx:39-55 | ranks never decrease along the result; equal ranks have ascending names; every known-position player comes before every other player |
| SquadOrder.SortSquadKeepsPlayers | frontend/src/components/MatchDetail.tsx:46-47 | a player is in the result exactly when it is in the input |
| SquadOrder.CompareStrictTransitive | frontend/src/components/MatchDetail.tsx:48-55 | a player strictly below a second one is strictly below everything the second is at most equal to |
| SquadOrder.NoKeyAbove | frontend/src/components/MatchDetail.tsx:48-55 | in a sorted roster whose first player is strictly above `p`, no player has `p`'s rank and name |
| SquadOrder.InsertStable | frontend/src/components/MatchDetail.tsx:47-56 | an insertion step places the new player after every player with the same rank and name |
| SquadOrder.SortSquadStable | frontend/src/components/MatchDetail.tsx:46-57 | the sort is stable: for every (rank, name) key, the players with that key keep their input order |
| SquadOrder.DisplayedSquad | frontend/src/components/MatchDetail.tsx:90-91 | with no match loaded the displayed squad is empty; otherwise it is a sorted permutation of the chosen team's squad |
| CompetitionGroups.NewGroup | frontend/src/components/MatchesList.tsx:35-42 | a new group has the match's competition id, name and emblem and its area's name and flag |
| CompetitionGroups.CompetitionIdsDistinct | frontend/src/components/MatchesList.tsx:30-35 | the competition ids the grouping lists are pairwise distinct |
| CompetitionGroups.CompetitionIdsCover | frontend/src/components/MatchesList.tsx:32-43 | an id is listed exactly when some input match belongs to that competition |
| CompetitionGroups.InCompetitionMembers | frontend/src/components/MatchesList.tsx:44 | a match is in its competition's list exactly when it occurs in the input with that id |
| CompetitionGroups.FirstInIsFirst | frontend/src/components/MatchesList.tsx:34-42 | the match a group's header is taken from is the earliest input match of that competition |
| CompetitionGroups.GroupedAppendSeen | frontend/src/components/MatchesList.tsx:44 | a match of an already-seen competition is appended to that group only |
| CompetitionGroups.GroupedAppendUnseen | frontend/src/components/MatchesList.tsx:34-44 | the first match of a new competition adds one group, at the end, holding just that match |
| CompetitionGroups.GroupByCompetition | frontend/src/components/MatchesList.tsx:29-48 | the loop over a map from id to group returns exactly the declarative grouping `Grouped` |
| CompetitionGroups.GroupIdsDistinct | frontend/src/components/MatchesList.tsx:30-34 | no two groups share a competition id |
| CompetitionGroups.EveryMatchInItsGroup | frontend/src/components/MatchesList.tsx:32-44 | every match lies in the group of its competition and in no other; each group holds its competition's matches, in input order |
| CompetitionGroups.GroupsInFirstSeenOrder | frontend/src/components/MatchesList.tsx:34-47 | for two groups in list order, the first group's competition occurs in the input before any match of the second |
| CompetitionGroups.GroupHeaderFromFirstMatch | frontend/src/components/MatchesList.tsx:35-42 | a group's name, emblem, area name and flag are those of the first input match of its competition |
| CompetitionGroups.TotalMatchesGrowOne | frontend/src/components/MatchesList.tsx:44 | pushing onto one group adds one to the total number of grouped matches |
| CompetitionGroups.GroupedCountsEveryMatch | frontend/src/components/MatchesList.tsx:32-47 | group sizes add up to the input length; there are no groups exactly when there are no matches |
| Cache.Lookup | backend/src/services/cacheService.ts:11-15 | a hit exactly when the key is stored and its age is under one hour, and then the stored data |
| Cache.CacheStore.GetCached | backend/src/services/cacheService.ts:9-20 | against a working store the result is the lookup; against a failing store it is always a miss |
| Cache.CacheStore.SetCached | backend/src/services/cacheService.ts:26-36 | against a working store the key's entry is replaced by the new data stamped with `now` and every other key is unchanged; against a failing store nothing changes |
| Cache.MissingKeyMisses | backend/src/services/cacheService.ts:12 | a key with no entry is a miss |
| Cache.FreshnessBoundary | backend/src/services/cacheService.ts:13-14 | an entry exactly one hour old is stale; one a millisecond younger is fresh |
| Cache.SetThenGet | backend/src/services/cacheService.ts:28-31 | data set at `t` reads back at every `now` before `t` plus one hour and at no later time |
| Cache.SetLeavesOtherKeys | backend/src/services/cacheService.ts:28-31 | an upsert changes no other key's lookup |
| Cache.SetTwiceKeepsLatest | backend/src/models/cache.ts:10 | entries are unique per key: a second set replaces the first, data and time |
| Cache.RoundTrip | backend/src/services/cacheService.ts:9-32 | through the store object, a set followed within the hour by a get returns the data set |
| JsOperators.LogicalOr | frontend/src/store/matchDetailSlice.ts:55 | `||` keeps a non-empty string and replaces an absent or empty one by the fallback |
| JsOperators.NullishCoalesce | frontend/src/store/matchesSlice.ts:46 | `??` keeps any present string, the empty one included, and replaces only an absent one |
| JsOperators.OrDiffersFromNullishOnlyOnEmpty | frontend/src/store/matchDetailSlice.ts:55 | the two fallbacks disagree exactly on a present empty string with a non-empty fallback |
| MatchDetailSlice.RejectionMessage | frontend/src/store/matchDetailSlice.ts:24-28 | the thunk rejects with the first non-empty of the response message and the error message, else 'Failed to fetch match details'; never empty |
| MatchDetailSlice.RejectedError | frontend/src/store/matchDetailSlice.ts:53-56 | the stored error is the payload when non-empty, else 'Something went wrong' |
| MatchDetailSlice.ThunkRejectionIsShown | frontend/src/store/matchDetailSlice.ts:25-55 | a rejection produced by the thunk reaches the state unchanged |
| MatchDetailSlice.MatchDetailSlice.constructor | frontend/src/store/matchDetailSlice.ts:11-15 | the initial state: no match, not loading, no error |
| MatchDetailSlice.MatchDetailSlice.ClearMatchDetail | frontend/src/store/matchDetailSlice.ts:37-41 | from any state, the initial state |
| MatchDetailSlice.MatchDetailSlice.Pending | frontend/src/store/matchDetailSlice.ts:45-48 | loading, error cleared, match kept |
| MatchDetailSlice.MatchDetailSlice.Fulfilled | frontend/src/store/matchDetailSlice.ts:49-52 | not loading, match set to the payload, error kept |
| MatchDetailSlice.MatchDetailSlice.Rejected | frontend/src/store/matchDetailSlice.ts:53-56 | not loading, error set by the `||` fallback, match kept |
| MatchDetailSlice.ClearIsIdempotent | frontend/src/store/matchDetailSlice.ts:37-41 | clearing twice ends in the initial state, as clearing once does |
| MatchDetailSlice.SucceededRequest | frontend/src/store/matchDetailSlice.ts:45-52 | pending then fulfilled shows the payload with no error |
| MatchDetailSlice.FailedRequest | frontend/src/store/matchDetailSlice.ts:45-56 | pending then rejected with the thunk's message stores that message and keeps the earlier match |
| MatchesSlice.RejectedError | frontend/src/store/matchesSlice.ts:46 | the stored error is the message when present, even empty, else 'Failed to fetch matches' |
| MatchesSlice.EmptyErrorOnlyFromEmptyMessage | frontend/src/store/matchesSlice.ts:46 | the stored error is empty exactly when the message is the empty string, which `??` keeps |
| MatchesSlice.MatchesSlice.constructor | frontend/src/store/matchesSlice.ts:13-19 | the initial state: no matches, empty filters and result set, not loading, no error |
| MatchesSlice.MatchesSlice.Pending | frontend/src/store/matchesSlice.ts:34-37 | loading, error cleared, matches, filters and result set kept |
| MatchesSlice.MatchesSlice.Fulfilled | frontend/src/store/matchesSlice.ts:38-43 | not loading; matches, filters and result set replaced by the payload's; error kept |
| MatchesSlice.MatchesSlice.Rejected | frontend/src/store/matchesSlice.ts:44-47 | not loading, error set by the `??` fallback, loaded data kept |
| MatchesSlice.FailedRefresh | frontend/src/store/matchesSlice.ts:34-47 | a failed refresh keeps the list already shown and reports the error |
| FootballApi.MapMatch | backend/src/services/footballApiService.ts:7-36 | succeeds exactly when all four nested objects are present; copies id and date; builds the home team only from the raw home team and the away team only from the raw away team; projects area and competition field by field |
| FootballApi.MapMatchRecoversEmbedded | backend/src/services/footballApiService.ts:7-36 | a raw record carrying a match's fields, plus any extra fields, maps back to exactly that match |
| FootballApi.MapAll | backend/src/services/footballApiService.ts:56 | succeeds exactly when every raw record is complete, and then has the same length and order, element i being the mapping of raw record i |
| FootballApi.FetchMatches | backend/src/services/footballApiService.ts:38-58 | a non-2xx reply fails with its status and body text (or status text) and maps nothing; unparsable JSON fails; the call succeeds exactly when the reply is ok, parses and every record is complete, and then absent filters and result set default to empty and the matches are the mapped list; it fails as malformed exactly when some record is incomplete |
| FootballApi.IsOk | backend/src/services/footballApiService.ts:45 | `response.ok` holds exactly for a 2xx status |
| FootballApi.ErrorBody | backend/src/services/footballApiService.ts:46 | the error text is the body when it can be read, else the status text |
| FootballApi.AbsentMatchesGiveEmptyList | backend/src/services/footballApiService.ts:54-56 | an ok reply without `matches` gives an empty list, not an error |
| FootballApi.Decimal | backend/src/services/footballApiService.ts:47 | the status is printed as a non-empty string of decimal digits with no leading zero |
| FootballApi.DecimalValue | backend/src/services/footballApiService.ts:47 | the printed digits denote the status again |
| FootballApi.ErrorMessage | backend/src/services/footballApiService.ts:47 | the error message starts with 'External API responded with ' and ends with the body text, its length being the prefix, the digits, ': ' and the body |
| FootballApi.ErrorMessageCarriesStatus | backend/src/services/footballApiService.ts:47 | the digits after the prefix and before the colon denote the status |

## Left out

- SquadOrder.LexCompare: `localeCompare` is locale-aware. The model compares names by character code, which is an abstraction of it.
- SquadOrder.PositionRank: `positionOrder` is a plain object. A position naming a member of `Object.prototype`, such as "toString", would look up a function rather than `undefined`. The model ranks every label outside the table as `Number.MAX_SAFE_INTEGER`.
- SquadOrder.SortSquad: the source sorts a spread copy in place. The model works on sequence values, so the caller's roster cannot change by construction; aliasing is not modelled.
- FootballApi.FetchMatches: the JSON body is taken to be an object and `matches` an array of objects. A `null` body, a `null` element or a non-array `matches` throws a `TypeError` in the source; that is not modelled.
- FootballApi.MapMatch: raw scalar fields (ids, names, dates) are taken as present. An absent one would be copied through as `undefined`, and that is not modelled.
- The `filters` and `resultSet` fields are `Record<string, unknown>`; their values are abstracted to strings.
- MatchDetailSlice.RejectionMessage: the response message is taken to be a string or absent. A non-string truthy value would be passed through unchanged; that is not modelled.
- HTTP and database I/O are not modelled: the `fetch` and `axios` calls, the auth header, the Express routes and their 502 mapping, the mongoose connection and its schema validation. Configuration loading and the `createAsyncThunk` async plumbing are left out too. Replies, store failures and the clock are inputs instead.
- Concurrent requests against the cache are not modelled; each store operation is a single atomic step.
- Date formatting (`Intl.DateTimeFormat`) and match-id validation (`Number`, `Number.isFinite`) are not modelled. The first is locale behaviour and the second is float parsing.
- JSX rendering, styling, `App.tsx`, `theme.ts` and `store/index.ts` are not modelled; they hold no logic.
- Median, score prediction, squad mapping and match-detail aggregation are not modelled: none of the source files this model covers contains them.
