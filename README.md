# IT service-request store and approval workflow

This is a Dafny model of the request store and approval workflow of an internal IT service-request web
application (`server.js`). Employees submit a request through a form. The server appends a record to
its list of requests, with status `Pending Manager Approval` and a random approval token. It then
mails the department's manager an approve link and a disapprove link that carry the token. The
first approve moves the record to `Approved, Pending IT` and notifies the IT mailbox. The first
disapprove moves it to `Disapproved`. Once a record is no longer pending, any further use of its
token reports "not found or already actioned". An administrator can list the requests ordered by
`sort_order`, delete a request by id, or clear the store. A delete re-sorts the remaining records
and renumbers their `sort_order` to 1..N.

Files and modules:

- `requests.dfy` (`Requests`): the request record, the submission form, the three statuses and
  the text stored for each, the rank used for ordering (`sort_order || 0`), and first-match search.
  It also holds the store invariants (unique ids, unique tokens, dense sort orders).
- `ranking.dfy` (`Ranking`): `Math.max`, the next sort order, and the listing order. The listing
  order is `Array.prototype.sort` with the rank comparator, modelled as a stable insertion sort
  and proved sorted, a permutation and stable. This file also holds the dense renumbering.
- `submission.dfy` (`Submission`): the next id and the record that `/submit` appends.
- `approval.dfy` (`Approval`): the token-gated transitions of `/approve/:token` and
  `/disapprove/:token`, and their outcome.
- `deletion.dfy` (`Deletion`): `/delete/:id`, which splices out the record, re-sorts the rest and
  renumbers them.
- `recipients.dfy` (`Recipients`): the department→manager-address switch with its fallbacks, and
  the IT address.
- `store.dfy` (`Store`): class `RequestStore`, whose field `requests` is the list the handlers
  mutate. It has one method per handler, each tied to the store function above. `Valid()` is the
  invariant every method keeps: unique ids and sort orders 1..N in list order.
- `scenarios.dfy` (`Scenarios`): short runs of the handlers. They cover clear-then-submit,
  approve-twice, and submit A and B then delete A.

Three properties of `server.js` that shape the model:

- **Ids can be reused.** `server.js:152` recomputes each new id as the largest current id plus 1.
  Deleting the newest request therefore hands its id to the next submission. This is proved in
  `Deletion.DeletingNewestLetsItsIdBeReused`.
- **Tokens are never checked against the store.** A token is 20 random bytes
  (`server.js:166`), and nothing compares it with the tokens already stored. Where a property
  needs unique tokens, the model takes `TokensUnique` as a hypothesis. Submitting with a fresh
  token, acting, and deleting each keep that hypothesis.
- **Every delete that finds its id renumbers.** `server.js:369-373` sorts the remaining records and
  rewrites their `sort_order` to 1..N. An unknown id returns at `server.js:363-365`, before the
  sort, and leaves the store as it was.

Inputs that the code takes from its surroundings are parameters of the model:

- the approval token;
- the submission timestamp;
- the environment, as a map from variable name to value.

## Model

| member | source | states |
|---|---|---|
| Requests.FindIndex | server.js:361 | the result is the first index whose record satisfies the predicate; None exactly when no record satisfies it (`find`/`findIndex`) |
| Ranking.Max | server.js:148 | `Math.max` over a non-empty list: no element exceeds it, and some element equals it |
| Ranking.NextSortOrder | server.js:148-153 | a new sort order is the largest existing rank (missing counted as 0) plus 1: above every stored rank, one more than some stored rank, and 1 on an empty store |
| Submission.NextId | server.js:152 | a new id is 1 on an empty store, otherwise one more than some stored id and greater than every stored id, so it is distinct from all ids stored now |
| Submission.Submitted | server.js:142-169 | the store after a submission: the old records unchanged, plus one appended record. That record is pending, carries the caller's token, timestamp and form fields, uses empty-string defaults for absent assetID/softwareName/otherTopic, has the fresh id, and has a rank above every existing rank |
| Submission.NextSortOrderOfDense | server.js:148-153 | in a store numbered 1..N the next sort order is N+1 |
| Submission.SubmitPreservesInvariant | server.js:148-169 | submission keeps ids unique and sort orders dense |
| Submission.SubmitPreservesTokensUnique | server.js:166-169 | a token not already stored keeps tokens unique |
| Approval.FindPending | server.js:300 | the first record that has the token and is still pending; None exactly when no pending record has the token |
| Approval.Act | server.js:300-306 | approve/disapprove with a token. With a pending match, that record gets the target status, no other field of it changes, and every other record is unchanged. With no pending match, the store is unchanged |
| Approval.ActOutcome | server.js:300-304 | the outcome is Done exactly when some pending record has the token, and not-found otherwise; its id is that of the first pending record with the token, the record `find` returns and `Act` changes |
| Approval.ActMovesOnlyPending | server.js:300-306 | a record changes only from pending with this token to the target status; a non-pending record is never changed |
| Approval.ActedRecordIsFinal | server.js:343-349 | after a transition the record holds the target status, and no later approve or disapprove, with any token, changes it again (at most one transition per request) |
| Approval.SecondActionFails | server.js:300-303 | with unique tokens, a second approve or disapprove with the same token yields not-found and leaves the store unchanged |
| Approval.ActPreservesInvariants | server.js:306 | a transition keeps unique ids, dense sort orders and unique tokens |
| Requests.PermutationKeepsTokensUnique | server.js:369 | reordering the records keeps tokens unique |
| Requests.StatusTextDistinguishes | server.js:300 | the three status strings the handlers store (lines 165, 306 and 349) are pairwise different, and a record is pending exactly when its status string is 'Pending Manager Approval', the test both handlers make |
| Ranking.SortByRank | server.js:292 | the stable sort by `sort_order`, a missing one counted as 0, modelled as an insertion sort; its own contract is only the length, and the order is fixed by SortByRankSorted, SortByRankStable and SortByRankKeepsUnranked |
| Ranking.SortByRankSorted | server.js:292 | the listing is ordered by rank and is a permutation of the store |
| Ranking.SortByRankStable | server.js:369 | for every rank, the records with that rank appear in the sorted list in their stored order (stability) |
| Ranking.SortByRankKeepsUnranked | server.js:369 | sorting adds, drops and alters no record |
| Ranking.SortedIsFixed | server.js:292 | a list already in rank order is listed as it is |
| Ranking.Renumbered | server.js:371-373 | the record at position k gets sort order k+1, and every other field of every record is unchanged |
| Deletion.FindById | server.js:361 | the first index holding the id; None exactly when no record has it |
| Deletion.RemoveAt | server.js:367 | `splice(i, 1)`: the elements before i are kept, the ones after shift down by one, and the multiset loses exactly the element at i |
| Deletion.Deleted | server.js:361-373 | an unknown id leaves the store unchanged; a known id leaves one record fewer, renumbered 1..N |
| Deletion.DeleteIsStableRenumbering | server.js:367-373 | the result renumbers a list that is sorted by rank, holds exactly the remaining records, and keeps equal-rank records in stored order |
| Deletion.DeleteRemovesExactlyOne | server.js:361-367 | ignoring sort orders, the records left are the store's records minus the one deleted record, as a multiset |
| Deletion.DeletePreservesOtherTokens | server.js:361-373 | for any token the deleted record does not carry, a pending record with that token exists after the delete exactly when one existed before |
| Deletion.DeleteKeepsTokensUnique | server.js:361-373 | on any store, a delete keeps tokens unique, so a second approve or disapprove still fails after later deletes |
| Deletion.DeleteRemovesId | server.js:361-367 | with unique ids, no record with the deleted id remains |
| Deletion.DeleteOnValidStore | server.js:367-373 | on a valid store the delete keeps the remaining records in their positions, renumbered, and the store stays valid |
| Deletion.NextIdOfSameRecords | server.js:152 | the next id depends only on which records are stored, not on their order or sort orders |
| Deletion.DeletingNewestLetsItsIdBeReused | server.js:152 | deleting the newest request lets the next submission receive the same id again |
| Recipients.ManagerRecipient | server.js:173-244 | a listed department gets its configured address; any other department gets MANAGER_EMAIL_DEFAULT; an unset or empty value falls back to default.manager@example.com; the result is never empty |
| Recipients.ManagerVariableAsWritten | server.js:174-238 | the variable each case of the switch reads: a variable exactly for the 19 listed codes, the table's XX_MANAGER_EMAIL for each but FN_dep, FN_MANAGER_EMAI for FN_dep, and None (the default branch) for any other code |
| Recipients.ManagerRecipientAsWritten | server.js:174-244 | the recipient as the switch is written: never empty; for FN_dep, FN_MANAGER_EMAI when it is set and non-empty and default.manager@example.com otherwise; for every other department, the same recipient as the corrected table |
| Recipients.SwitchIsTableExceptFN | server.js:174-231 | the switch agrees with the 19-entry department table, and gives the same recipient, for every department except FN_dep, whose case reads FN_MANAGER_EMAI |
| Recipients.FNManagerIsNeverReached | server.js:187-189 | for every environment in which FN_MANAGER_EMAI is unset or empty, the written switch mails default.manager@example.com for FN_dep, whatever FN_MANAGER_EMAIL and MANAGER_EMAIL_DEFAULT hold (that fallback ignores MANAGER_EMAIL_DEFAULT); the corrected table mails FN_MANAGER_EMAIL when it is set |
| Recipients.FNManagerWitness | server.js:187-189 | with only FN_MANAGER_EMAIL set, the written switch and the corrected table give different recipients for FN_dep |
| Recipients.ITRecipient | server.js:310 | IT_EMAIL when set and non-empty, otherwise it.department@example.com |
| Store.RequestStore.constructor | server.js:58 | the store starts empty and valid |
| Store.RequestStore.Submit | server.js:142-170 | the new store is `Submitted` of the old one; returns the appended record and the corrected manager recipient, which equals the written switch's for every department but FN_dep; keeps `Valid()`, and keeps tokens unique for a fresh token |
| Store.RequestStore.Status | server.js:290-294 | the listing is sorted by rank, a permutation of the store, and stable; the store is not changed; on a valid store the listing is the store itself |
| Store.RequestStore.Approve | server.js:297-337 | the new store is `Act(old, token, ApprovedPendingIT)`; returns the outcome, and the IT address exactly when a request was approved; keeps `Valid()` and unique tokens |
| Store.RequestStore.Disapprove | server.js:340-352 | the new store is `Act(old, token, Disapproved)`; returns the outcome; keeps `Valid()` and unique tokens |
| Store.RequestStore.Delete | server.js:357-377 | the new store is `Deleted(old, id)`; keeps `Valid()` and unique tokens |
| Store.RequestStore.Renumber | server.js:371-373 | the `forEach` loop: the new list is `Renumbered` of the old one |
| Store.RequestStore.ClearAll | server.js:379-383 | the store is empty and valid |
| Scenarios.ClearThenSubmit | server.js:148-153 | after clear-all the listing is empty, and the next submission gets id 1, sort order 1 and the pending status |
| Scenarios.ApproveTwice | server.js:297-307 | the first approve succeeds with id 1 and sets ApprovedPendingIT; a second approve or a disapprove with the same token reports not-found and changes nothing |
| Scenarios.DeleteFirstOfTwo | server.js:357-373 | after submitting A then B and deleting A, only B remains, unchanged except that its sort order is now 1 |

## Findings

| source | as written | input that shows it | evidently intended | confidence | as-written member | corrected member |
|---|---|---|---|---|---|---|
| server.js:187-189 | the `FN_dep` case reads `process.env.FN_MANAGER_EMAI` | department `FN_dep`, with `FN_MANAGER_EMAIL` set to an address and `FN_MANAGER_EMAI` unset: the approval mail goes to default.manager@example.com | read `FN_MANAGER_EMAIL`, like the other 18 cases read `XX_MANAGER_EMAIL` | high; not executed | Recipients.FNManagerIsNeverReached and Recipients.FNManagerWitness (on Recipients.ManagerRecipientAsWritten) | Recipients.ManagerRecipient (used by Store.RequestStore.Submit) |

## Left out

- Routing and pages: Express routing, EJS rendering, redirects and HTTP status codes are not modelled. This includes the 404 from approve and the 440 from disapprove. The model keeps only the outcome: the id that was acted on, or not-found.
- Authentication: sessions, `requireAdmin`, and the login and logout handlers are not modelled. They are authentication through foreign libraries.
- File I/O: the JSON file is not modelled; the store is held in memory. Each handler rereads the file. An unreadable file reads as an empty store, which is the constructor. The status page sorts its copy in place but never writes it back, so `Status` changes nothing.
- Mail: transporter setup and `sendMail` are not modelled; they are network I/O with fire-and-forget callbacks. The mail subjects, bodies and the approve and disapprove links are presentation only. The model returns the address a mail would go to.
- Tokens: `crypto.randomBytes` tokens are not generated; the token is a parameter of `Submit`. Token uniqueness is only probable, so it appears as the `TokensUnique` hypothesis.
- Timestamps: the `toLocaleString` timestamp is a parameter of `Submit`.
- Store.RequestStore.Submit: returns the corrected manager recipient (see Findings), not the written switch's. For department FN_dep the source mails default.manager@example.com unless FN_MANAGER_EMAI is set, as `Recipients.FNManagerIsNeverReached` states; the method's contract states agreement with the written switch only for the other departments.
- Store.RequestStore.Delete: its `id` is the result of `parseInt(req.params.id, 10)`. Parsing is not modelled: a segment such as "7abc" parses to 7 and deletes id 7. A segment with no leading digits parses to NaN, which equals no stored id, so it is the unknown-id case.
- Logging: the `console.warn`, `console.error` and `console.log` calls (server.js:235, 242, 280-284, 333-334) are not modelled. They write diagnostics and change no state.
- Number width: ids and sort orders are unbounded integers. JavaScript's loss of precision above 2^53 is not modelled. Non-numeric ids or statuses in a hand-edited database file are not modelled either.
- Missing form fields: a required form field that is missing (undefined) is modelled as a string.
- In-place updates: records are objects updated in place in the source. Here they are values in a sequence, replaced at their index. No two handlers share a record, so aliasing plays no part.
- Concurrency: not modelled. Each handler runs to completion with synchronous file access before the next one starts.
- `hash-password.js`: not part of this model. It is a prompt wrapped around a bcrypt call.
