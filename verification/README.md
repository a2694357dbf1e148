# bingo-map: a Dafny model of the auth gate, the viewer read model and the client logic

bingo-map is a small Next.js application. Users register and log in, look at a map of
Brazil, and attach named "viewers" to states. A ranking lists the ten states with the most
viewers. This project models the logic of that application that can be stated precisely,
and proves properties of it:

- **Bearer extraction and token verification** (`AuthToken`). This covers
  `getTokenFromRequest` and `verifyToken`. JavaScript's `split(' ')` is modelled exactly
  (`Text.Split`, with `Text.Join` as its inverse), so the token is the second
  space-separated segment of the header, as in the code.
- **The API routes as decision trees over oracles** (`ViewersRoute`, `VerifyRoute`,
  `LoginRoute`). The JWT verifier and signer, bcrypt and the database are function-typed
  parameters. Each call returns a value or throws (`Wrappers.Outcome`). Responses are
  `Http.Response` values: a status code and a JSON body.
- **The GET aggregation** (`ViewersRoute.GroupByState`). It is a loop over the rows with a
  map from state code to group position, mirroring the insertion-ordered JavaScript `Map`.
  Its postcondition is the predicate `GroupedByFirstSeen`: one group per distinct code, in
  first-seen order, each holding exactly that code's viewers in input order. Lemmas derive
  the following from it: partition, distinct codes, non-empty groups, first-occurrence
  order, and the total count.
- **The client read model** (`Ranking`, `StateNames`, `BrazilMap`, `MapPage`).
  - The ranking is a stable descending sort by viewer count, cut to ten. Its
    specification is "non-increasing, and for every count the groups with that count
    appear in input order". `Ranking.StableSortIsUnique` proves that this determines the
    result, so the model agrees with any stable sort.
  - Also modelled: the state-name tables, the colour buckets and the hover colours, state
    selection, and the redirect rule.
- **Optimistic edits in the modal** (`ViewerModal`). These cover add with rollback and
  remove with snapshot restore. Each is a transition with a pending state, the call made,
  and a settled state.
- **The register and login form handlers** (`RegisterPage`, `LoginPage`). These are
  ordered checks followed by a call to the auth context.

Points where the code departs from the Bearer form of RFC 6750, or from what a reader might
assume, and which the model follows as written:

- The header must start with exactly `Bearer ` (case-sensitive).
- A header such as `Bearer a b` is accepted, with token `a`, rather than rejected as
  malformed.
- `getTokenFromRequest` returns an empty token for `Bearer `. Only the routes reject an
  empty token.
- The JavaScript `.length` used by the register page's six-character minimum counts
  UTF-16 code units. The model counts them the same way (`Text.Utf16Length`).

## Model

| member | source | states |
|---|---|---|
| Text.Split | src/lib/auth.ts:11 | `split(' ')` yields one more segment than there are separators. No segment contains the separator. The first segment is the text up to the first separator, or the whole string |
| Text.JoinSplit | src/lib/auth.ts:11 | Joining the segments with the separator gives back the original string |
| Text.SplitJoin | src/lib/auth.ts:11 | Splitting a join of separator-free segments gives back those segments |
| Text.Trim | src/components/ViewerModal.tsx:74-83 | `trim()` removes only ECMAScript whitespace and line terminators, and only at the ends. The result is empty exactly when the input is all whitespace |
| Text.TrimIdempotent | src/components/ViewerModal.tsx:74-83 | Trimming a trimmed name changes nothing |
| Text.UpperIdempotent | src/app/mapa/page.tsx:46 | Upper-casing is idempotent and leaves no lower-case ASCII letter |
| Text.Utf16Length | src/app/register/page.tsx:35 | JavaScript `.length` counts code units. It is at least the number of code points and at most twice that |
| Domain.FindIndex | src/app/mapa/page.tsx:87 | `find` with `===`: the first group whose code is exactly the given one, and none exists exactly when no group has that code |
| AuthToken.TokenFromHeader | src/lib/auth.ts:4-12 | Null for a missing header or one not starting with the case-sensitive `Bearer `. Otherwise the text after the prefix, up to the next space or the end. That text never contains a space |
| AuthToken.BearerRoundTrip | src/lib/auth.ts:7-11 | `Bearer ` + t yields t back exactly when t has no space. In particular `Bearer ` yields the empty token, not null |
| AuthToken.TokenStopsAtSecondSpace | src/lib/auth.ts:11 | Content after a second space is dropped: `Bearer a b` yields `a` |
| AuthToken.LowerCaseSchemeRefused | src/lib/auth.ts:7-9 | A lower-case `bearer` scheme yields null |
| AuthToken.VerifyToken | src/lib/auth.ts:14-25 | The decoded claims when the verifier accepts, null when it throws; the failure never escapes |
| ViewersRoute.VerifyAuth | src/app/api/viewers/route.ts:7-33 | True exactly when the header starts with `Bearer `, the character after the prefix exists and is not a space, and the verifier accepts the extracted token |
| ViewersRoute.VerifyAuthRefusesWithoutVerifier | src/app/api/viewers/route.ts:12-22 | A missing header, a wrong scheme or an empty token is refused with any verifier. The verifier is not consulted |
| ViewersRoute.EmptyTokenRefused | src/app/api/viewers/route.ts:17-22 | `Bearer ` and `Bearer  x` are refused |
| ViewersRoute.Post | src/app/api/viewers/route.ts:71-105 | Only 201, 400, 401 or 500. 401 exactly when unauthenticated, before the body is read. 400 exactly when authenticated and a field is missing or empty. 201 appends exactly one row holding both values verbatim. Any other outcome leaves the store unchanged |
| ViewersRoute.PostChecksAuthFirst | src/app/api/viewers/route.ts:73-81 | When unauthenticated, the response and the unchanged store do not depend on the body or on the database |
| ViewersRoute.GroupByState | src/app/api/viewers/route.ts:43-59 | The Map-based single pass yields one group per distinct code in first-seen order. Each group holds exactly that code's viewers in input order |
| ViewersRoute.Get | src/app/api/viewers/route.ts:35-69 | 200 with the grouped read model when the query returns, 500 with the generic error when it throws |
| ViewersRoute.GroupsDistinctAndNonEmpty | src/app/api/viewers/route.ts:46-56 | Group codes are pairwise distinct and every group has at least one viewer |
| ViewersRoute.RowInExactlyOneGroup | src/app/api/viewers/route.ts:45-57 | Every row's viewer is in the group whose code equals its own, and that group is the only one with that code |
| ViewersRoute.GroupsInFirstSeenOrder | src/app/api/viewers/route.ts:43-59 | For two groups, some row of the earlier group comes before every row of the later group |
| ViewersRoute.GroupingPreservesCount | src/app/api/viewers/route.ts:45-57 | The groups hold as many viewers in total as there are rows |
| VerifyRoute.Get | src/app/api/auth/verify/route.ts:5-44 | Only 200 or 401. A missing header, wrong scheme or empty token gives `Unauthorized` regardless of the verifier. A verifier failure gives `Invalid token`. 200 carries the decoded id and email. 200 exactly when the viewers route's gate accepts the same header |
| VerifyRoute.GetAgreesWithVerifyToken | src/lib/auth.ts:14-25 | For a non-empty extracted token, the verify route answers 200 exactly when `verifyToken` returns claims, and then carries those claims' id and email |
| VerifyRoute.LoginThenVerify | src/app/api/auth/login/route.ts:37-49 | When the verifier gives back the claims of every token the signer issues, presenting the token from a successful login to the verify route yields 200 with the id and email the login returned |
| LoginRoute.Post | src/app/api/auth/login/route.ts:6-57 | Only 200, 400, 401 or 500. 400 exactly on a missing or empty field. 401 exactly on an unknown email or a wrong password, with the same body in both cases. 200 exactly when the user is found, the password matches and signing succeeds, carrying a token signed over the stored id and email with lifetime `24h`. Anything thrown gives 500 |
| LoginRoute.MissingFieldsSkipServices | src/app/api/auth/login/route.ts:10-15 | A body with a missing field gets the same response whatever the store, the hasher and the signer do |
| LoginRoute.UnknownEmailSkipsCompare | src/app/api/auth/login/route.ts:17-30 | For an unknown email the response does not depend on the password comparison. The comparison happens only after a user is found |
| LoginRoute.NoAccountEnumeration | src/app/api/auth/login/route.ts:17-35 | An unknown email and a wrong password give identical 401 responses |
| Ranking.SortByCount | src/app/mapa/page.tsx:144-145 | The sorted copy is non-increasing in viewer count and a permutation of the input. For every count, the groups with that count keep their input order (the sort is stable) |
| Ranking.StableSortIsUnique | src/app/mapa/page.tsx:144-145 | Two non-increasing sequences with the same per-count order are equal. So every stable descending sort gives the same result |
| Ranking.Rank | src/app/mapa/page.tsx:144-146 | The ranking has length min(10, n), is non-increasing, and draws every entry from the states. For each count, its groups are a prefix of that count's groups in input order |
| Ranking.RankHoldsLargest | src/app/mapa/page.tsx:144-146 | A state left out of the ranking has no more viewers than the last ranked one |
| Ranking.RankOfOrderedIsIdentity | src/app/mapa/page.tsx:144-146 | At most ten states that are already in order, ties included, rank exactly as given |
| MapPage.RankingKeepsTies | src/app/mapa/page.tsx:144-146 | Counts 5, 5, 3 rank in input order, so the tie keeps its first-seen order |
| StateNames.NameOf | src/app/mapa/page.tsx:16-46 | Lookup in the 27-entry table: missing exactly when no entry has the key, and otherwise a listed name for that key |
| StateNames.StateName | src/app/mapa/page.tsx:15-47 | The page's and the map's name for a code is the code itself when the upper-cased code is not a key, and otherwise the listed name for the upper-cased code |
| StateNames.ModalStateName | src/components/ViewerModal.tsx:19-51 | The modal's name for a code is the code itself when the code is not a key as written, and otherwise the listed name for that exact code |
| StateNames.TableShape | src/app/mapa/page.tsx:16-44 | The table has 27 entries. Every key is two upper-case letters and every name is non-empty, so `\|\|` falls back only on a miss |
| StateNames.StateNameIgnoresCase | src/components/BrazilMap.tsx:72 | The page and map lookup upper-cases the code. Codes that upper-case alike get the same name, and an unknown code is returned unchanged |
| StateNames.LowerCaseNotListed | src/components/ViewerModal.tsx:20-50 | A code that is not two upper-case letters matches no key of the modal's table |
| StateNames.ModalAgreesOnUpperCase | src/components/ViewerModal.tsx:50 | On codes without lower-case letters, the modal's lookup agrees with the page's |
| StateNames.ModalFallsBackOnLowerCase | src/components/ViewerModal.tsx:50 | When a code differs from a table key but upper-cases to it, the modal shows the code itself while the page and the map show the state's name, which differs from the code |
| BrazilMap.StateColor | src/components/BrazilMap.tsx:16-23 | Counts 0, 1-2, 3-5, 6-9, 10-14 and 15 or more map to palette entries 0 to 5. For a count of 0 or more, that entry's index is the number of thresholds {1,3,6,10,15} the count reaches |
| BrazilMap.StateColorMonotone | src/components/BrazilMap.tsx:16-23 | A larger count never maps to an earlier colour |
| BrazilMap.HoverColor | src/components/BrazilMap.tsx:25-35 | A palette colour always hovers to a different colour. Anything else hovers to `#2563EB` |
| BrazilMap.HoverColorShape | src/components/BrazilMap.tsx:25-35 | Distinct palette colours hover to distinct colours. The 3-5, 6-9 and 10-14 buckets hover to the next bucket's fill |
| BrazilMap.RegionCount | src/components/BrazilMap.tsx:123-125 | The viewer count of the first group whose code exactly equals the region id, or 0 when there is none |
| BrazilMap.RegionCountCountsRows | src/components/BrazilMap.tsx:123-125 | On the read model, a region's count is the number of viewer rows whose code is exactly the region's id |
| BrazilMap.RegionFill | src/components/BrazilMap.tsx:124-134 | A region that is not hovered is filled with a palette colour |
| BrazilMap.RegionFillFollowsRows | src/components/BrazilMap.tsx:123-134 | On the read model, an unhovered region's fill is the bucket colour of the number of rows whose code is exactly its id, and a hovered region's fill is that colour's hover colour |
| BrazilMap.HoverChangesFill | src/components/BrazilMap.tsx:126-134 | Hovering always changes a region's fill |
| BrazilMap.TooltipFor | src/components/BrazilMap.tsx:86-98 | The tooltip badge is the id upper-cased. The name is the page's case-insensitive lookup of the id, which is the id itself or the table's name for the upper-cased id. The count is that of the first group with exactly that id, or 0 |
| BrazilMap.TooltipCountsRows | src/components/BrazilMap.tsx:87-88 | On the read model, the tooltip's count is the number of viewer rows whose code is exactly the hovered id |
| MapPage.AuthorizationHeader | src/app/mapa/page.tsx:102-108 | The client's header is `Bearer ` followed by the stored token. A missing token is sent as exactly `Bearer null` |
| MapPage.StoredTokenReachesServer | src/app/mapa/page.tsx:102-108 | A non-empty stored token of visible ASCII characters, which every JWT is, reaches the server's extraction unchanged. With no stored token the server sees `null` |
| MapPage.OnAuthChange | src/app/mapa/page.tsx:57-66 | Redirect to `/login` exactly when loading is over and there is no user. Load the states exactly when there is a user. Otherwise wait |
| MapPage.SelectState | src/app/mapa/page.tsx:86-93 | The selected state always has the clicked code. It is the first group with exactly that code, or an empty group when there is none |
| MapPage.MutationOutcome | src/app/mapa/page.tsx:100-142 | True exactly on a 2xx response, and the states are reloaded exactly then. A network exception gives false |
| MapPage.AddViewerSucceeds | src/app/mapa/page.tsx:100-121 | With a stored token of visible ASCII characters that the verifier accepts and non-empty fields, the route creates exactly the requested row and the page reports success |
| MapPage.AddViewerWithoutTokenFails | src/app/mapa/page.tsx:100-121 | With no stored token the request carries `Bearer null`. If `null` is not a valid token, the result is 401, nothing is stored and the page reports failure |
| ViewerModal.Without | src/components/ViewerModal.tsx:107 | The filter keeps exactly the entries whose id differs, and is never longer than the input |
| ViewerModal.WithoutCounts | src/components/ViewerModal.tsx:91 | The filter keeps every copy of an entry whose id differs and drops every copy of the others |
| ViewerModal.WithoutKeepsOrder | src/components/ViewerModal.tsx:107 | The remaining entries keep their relative order |
| ViewerModal.WithoutFresh | src/components/ViewerModal.tsx:91-96 | Filtering out an appended entry whose id was fresh gives back the list as it was |
| ViewerModal.AddViewer | src/components/ViewerModal.tsx:71-102 | A name that trims to nothing sets the error, makes no call and changes nothing else. Otherwise: one `{tempId, trimmed}` entry is appended, the field is cleared, and the call gets the code as given and the trimmed name. On false or a throw, the temp entry is filtered out, the field gets the name back, and the matching error is shown |
| ViewerModal.AddAcceptedAppends | src/components/ViewerModal.tsx:82-90 | An accepted add leaves the old list plus exactly one `{tempId, trimmed}` entry at the end |
| ViewerModal.AddRollsBack | src/components/ViewerModal.tsx:82-98 | A refused or failed add with a fresh temp id restores the old list exactly, and puts the trimmed name back in the field |
| ViewerModal.RemoveViewer | src/components/ViewerModal.tsx:104-128 | While the call is pending the list is the snapshot filtered by id (`Without`: order and every other copy kept). On failure or a throw, the snapshot is restored exactly and an error names the viewer. Success keeps the filtered list and leaves the error line unchanged |
| ViewerModal.CanRemove | src/components/ViewerModal.tsx:229 | The remove button is enabled exactly when no call is pending and the id does not start with `temp-` |
| ViewerModal.TempEntryNotRemovable | src/components/ViewerModal.tsx:82-84 | The optimistic `temp-` entry is in the list while the add is pending, and after an accepted add, but its remove button is disabled in both states |
| ViewerModal.HeaderFor | src/components/ViewerModal.tsx:64-65 | The badge is the code upper-cased: same length, no lower-case ASCII letter, other characters kept, an upper-case code shown as is. The title is the modal's lookup of the code as written: the code itself or the modal table's name for exactly that code |
| RegisterPage.Submit | src/app/register/page.tsx:18-57 | The checks run in the order emptiness, match, length, and only the first failure reports. `register` is called exactly when all three pass. True shows success and leads to `/login` without signing in. False gives the email-in-use message. A throw gives the generic error. The spinner is off on every exit |
| RegisterPage.RefusedFormSkipsRegister | src/app/register/page.tsx:23-39 | A refused form's outcome does not depend on `register`, and its error is one of the three validation messages |
| RegisterPage.LengthBoundary | src/app/register/page.tsx:35-39 | A six-character password passes the length check and a five-character one fails it |
| LoginPage.Submit | src/app/login/page.tsx:16-40 | Empty fields give the required error without calling `login`. True navigates to `/mapa`. False gives `Email ou senha incorretos` and no navigation. A throw gives the generic error. The spinner is off on every exit |
| LoginPage.NavigatesOnlyOnSuccess | src/app/login/page.tsx:28-33 | The page navigates exactly when no error is shown |

## Left out

- HTTP plumbing and storage are not modelled. This covers `fetch`, `localStorage`,
  `headers()`, `NextResponse` and the Prisma queries. They appear only as inputs and
  outputs: the header, the parsed body, the rows, the id the database assigns, and
  whether a call threw. The `createdAt desc` order of the rows is taken as given input
  order. It is not proved.
- `jwt.verify`, `jwt.sign` and `bcrypt.compare` are oracles. Their internals are not
  visible, so JWT encoding, signatures, expiry arithmetic and the `JWT_SECRET` fallback
  are out of scope.
- MapPage.StoredTokenReachesServer: the header normalisation `fetch` applies is not modelled, so the
  lemma, like MapPage.AddViewerSucceeds, is stated only for non-empty visible-ASCII tokens. For
  other values `fetch` changes or refuses the header. An empty stored token arrives as `Bearer`,
  which yields null rather than `""`. Trailing tabs are stripped. CR, LF, NUL or characters
  above U+00FF make `fetch` throw, and the page then reports failure.
- VerifyRoute.Get: the verifier oracle returns `{userId, email}`. A payload that lacks
  these fields, which the route would turn into `undefined`, is not modelled.
- ViewersRoute.VerifyAuth: a throw from `headers()` itself, which the code also turns into
  `false`, is not modelled. `headers()` is I/O.
- ViewersRoute.Post: body fields are strings or absent. Non-string JSON values such as
  numbers or booleans, which JavaScript truthiness would treat differently, are not
  modelled.
- LoginRoute.Post: the same holds for the `email` and `password` fields.
- Text.Upper: only ASCII letters are upper-cased. JavaScript also maps some non-ASCII
  characters, for example U+0131 and U+017F to `I` and `S`. Such characters could turn a
  non-ASCII code into a table key.
- StateNames.ModalStateName: the modal looks codes up on a plain object. A code that names
  an inherited `Object.prototype` member, such as `constructor`, returns that member in
  JavaScript. The model returns the code.
- The DELETE route (`src/app/api/viewers/[id]/route.ts`) and the auth context module are
  not part of this model. `register`, `login` and `onRemoveViewer` are oracles whose
  result is an `Outcome<bool>`.
- `getTooltipPosition` (src/components/BrazilMap.tsx:75-85) is pixel positioning from
  mouse coordinates and window size.
- Timing and concurrency are not modelled: the 2-second `setTimeout` before the register
  page's redirect (recorded only as the next page), the modal's error-clearing timer,
  React effect re-runs, the effect that copies `stateInfo.viewers` into the local list,
  and interleaved edits or concurrent clients. Each handler is modelled as running alone
  from one state.
- `Date.now()` temp-id generation: the temp id is a parameter. The rollback property
  requires it to be fresh in the list.
- `fetchStates`, `closeModal`, logout, the landing page `src/app/page.tsx`, all markup and
  console logging carry no modelled behaviour.
