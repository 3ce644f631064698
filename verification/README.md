# Binary-tree placement and counting for the MLM backend

This project models the member-registration engine of the MLM backend
(`backend/index.js`). Each new member is hung into a binary tree below a
sponsor. If the requested side of the sponsor is taken, a "spillover" search
runs down that side. Each member keeps a left and a right counter, and these
are raised by a walk along the referral chain (`sponsor_code`), not along the
tree links.

The SQLite `members` table is an immutable `seq<Member>`, and the member
with id `k` is element `k - 1`: ids are modelled as dense positions starting
at 1 (see "## Left out"). Each handler becomes a pure function over that
table:

| file | module | models |
|---|---|---|
| `wrappers.dfy` | `Wrappers` | `Option`, `Result` |
| `members.dfy` | `Members` | the row, the table, lookup by `member_code`, link and counter updates |
| `requests.dfy` | `Requests` | the request body, the error kinds, field and position validation |
| `placement.dfy` | `Placement` | `findPlacement` and the shapes of table it may run on |
| `counts.dfy` | `Counts` | `updateCounts`: one hop, and the whole walk |
| `downline.dfy` | `Downline` | the one-level downline read |
| `registration.dfy` | `Registration` | the register handler as one atomic step |
| `invariants.dfy` | `Invariants` | what registrations preserve, and what that means for spillover |
| `scenarios.dfy` | `Scenarios` | concrete registrations starting from a one-member table |

Modelling choices:
- JavaScript truthiness becomes `Truthy`: a field is present when it is not absent and not `""`. Ids start at 1, so a falsy id is exactly `None`.
- `position.toLowerCase()` becomes ASCII lower-casing. The only characters that lower-case to a single letter of `left` or `right` are those letters and their ASCII capitals, so the accept/reject decision is unchanged. `Requests.ParseSideIgnoresCase` states the decision as "spells `left` or `right` in any mix of case".
- `findPlacement` never ends on some tables, so it takes a `fuel` argument. Running out of fuel gives `Spinning`, which stands for the request that never gets a response. `updateCounts` also takes fuel. `Registration.Register` passes the table size, and `Counts.UpdateCounts` proves that this is always enough when every referral points to an earlier row.
- Two reads may find no row and then dereference `undefined`: the search's read at line 112 and the walk's first read at line 132. The walk's later reads are of a sponsor id that the lookup at line 134 has just returned, so they always find a row. The search's case is the `Missing` result of `Placement.FindPlacement`, which `Registration.Register` reports as `Crashed`. The walk's case is the `MissingRow` stop of `Counts.UpdateCounts`. `Invariants.RegisterNeverCrashes` shows a registration cannot reach `Crashed` while every link names an existing row, and `Counts.UpdateCounts` shows a walk that starts at an existing row never stops with `MissingRow`.
- The INSERT at lines 83-85 writes the placement id into the new row's own same-side link. `Registration.Register` takes an `InsertMode`: `AsWritten` keeps that write and `Intended` drops it. Validation, lookup, placement, propagation and the downline are the same functions in both modes. See "## Findings".

Three things the code does that a reader might not expect:
- There is no conditional "attach only if empty" and no retry. Registration is one atomic step.
- There is no "no available position" case except a storage error, which is not modelled.
- Propagation starts at the placement node (line 95), not at the new member. So when a member is placed directly under its sponsor, that sponsor's counter does not go up for it. `Scenarios.FirstJoinTakesFreeSlot` shows this.

## Model

| member | source | states |
|---|---|---|
| `Members.FindByCode` | backend/index.js:68 | the result is the first row whose `member_code` equals the code; it is None exactly when no row has that code |
| `Requests.ParseSideIgnoresCase` | backend/index.js:62-64 | a position selects a side exactly when it spells `left` or `right` in any mix of upper and lower case, and it is rejected exactly when it spells neither |
| `Requests.Validate` | backend/index.js:58-64 | the result is `MissingField` exactly when one of the six fields is absent or empty; otherwise it is `BadPosition` exactly when the position spells neither side; on success every field is present and the side is the one the position spells |
| `Registration.Register` | backend/index.js:55-104 | every refusal leaves the table unchanged; a validation failure returns the same error whatever the table holds, so the table is not consulted; an unknown sponsor code gives `InvalidSponsor`; with a valid request and a known sponsor, the result is `Hangs` exactly when the search from the sponsor spins, `Crashed` exactly when it reads a missing row, `CreateFailed` exactly when it finds a slot but the code or email is taken, and success exactly when it finds a slot and neither is taken; a success appends one row hung under the very node the search returned, whose slot on the requested side was free, and the counters then change exactly by a propagation that starts at that placement node, not at the new member |
| `Registration.Commit` | backend/index.js:83-97 | the INSERT fails with `CreateFailed` exactly when the code or email is already taken; on success the placement node's side link names the new id; the new row's same-side link holds the placement id under the source's insert and is empty otherwise; its other link is empty; its code is the generated one, its name, email and mobile are the request's and its password is the stored hash; its sponsor code is the requester's sponsor, not the placement node's code; no other link of an old row changes; the counters change exactly by a propagation that starts at the placement node, not at the new member: each counter rises by the number of increments naming it, and the increments climb the referral chain from the placement node |
| `Placement.FindPlacement` | backend/index.js:107-127 | a found slot is always on the requested side and is free; when the start row exists and there is fuel, the result is the start itself exactly when its slot on that side is free; a `Missing` result names an id with no row |
| `Placement.FoundOnSpine` | backend/index.js:111-123 | the node found is reached from the start by following only links on the requested side, its own slot is free, and every node above it on that path has its slot taken: it is the first free slot on the same-side spine |
| `Placement.SpineSlotFound` | backend/index.js:111-123 | conversely, when the first free slot on the same-side spine lies fewer links down than the fuel, the search returns exactly that node |
| `Placement.SearchSeesOneSide` | backend/index.js:111-125 | two tables with the same links on one side give the same search result on that side, so a left search never depends on a right link and vice versa |
| `Placement.SearchStaysInside` | backend/index.js:108-112 | when every link names an existing row, the search never reads a missing row |
| `Placement.MirroredSpineSpins` | backend/index.js:114-116 | on a table where each link is answered by its target's same-side link, a search that starts at an occupied slot spins for any amount of fuel |
| `Placement.ForwardSpineLands` | backend/index.js:107-127 | on a table where every link points to a later row, a search with fuel greater than the number of rows after the start always finds a slot |
| `Counts.Step` | backend/index.js:131-148 | one hop stops with `NoSponsor` exactly when the row has no sponsor code, with `UnknownSponsor` exactly when no row has that code, and with `NotAChild` exactly when neither of the sponsor's links names the row (either may be empty); otherwise it raises by exactly one the counter of the sponsor on the side where the row is linked (left checked first), and changes nothing else |
| `Counts.UpdateCounts` | backend/index.js:130-152 | the walk changes only counters and never lowers one; the list of increments climbs the referral chain: each lands on the sponsor that the previous row's `sponsor_code` names, on the side where that row hangs under it; every counter rises by exactly the number of increments naming it, so the sum rises by their number; a walk with no increment leaves the table untouched; the walk ends only where the source's does: a stop for no sponsor code, an unknown code or a row that is not its sponsor's child is exactly what one hop from the last row reached reports, running out of fuel means every unit of fuel paid for an increment, and a missing row can only be the starting one; a walk from an existing row never stops on a missing row; when every referral points to an earlier row, no sponsor code fails to resolve and fuel equal to the starting id is never used up |
| `Counts.ClimbsDown` | backend/index.js:134-147 | when every referral points to an earlier row, the increments of a climb land on rows before the starting row, each before the one bumped earlier |
| `Counts.WalkBumpsEarlierRowsOnce` | backend/index.js:141-147 | when every referral points to an earlier row, the walk leaves the starting row and every later row untouched, and raises each earlier row's counters by at most one in all |
| `Counts.WalkStopsSilently` | backend/index.js:132-145 | when the starting row has no sponsor code, or the code names no row, or the row is neither child of its sponsor, the walk ends at once with no increment |
| `Downline.Collect` | backend/index.js:186-198 | over the first `n` rows, the left bucket holds the parent's left child if its id is within `n`; the right bucket holds the right child only if it differs from the left one; a parent id with no row gives two empty lists |
| `Downline.GetDownline` | backend/index.js:186-198 | a row appears under left exactly when the parent's left link names it; it appears under right exactly when the right link names it and the left link does not; each list has at most one entry |
| `Invariants.RegisterNeverCrashes` | backend/index.js:108-116 | a registration on a table whose links all name rows never reaches the missing-row crash |
| `Invariants.RegistrationWalkEnds` | backend/index.js:83-95 | on a well-formed table, the propagation a registration starts from the placement node ends by itself, with no sponsor code or at a row that is not its sponsor's child, never with the fuel used up or an unresolved code |
| `Invariants.NewMemberStartsAtZero` | backend/index.js:83-95 | on a well-formed table, a registered member's two counters are zero afterwards: the INSERT leaves them at their column default 0 (lines 36-37), and the propagation from the placement node reaches only earlier rows |
| `Invariants.RegisterKeepsWellFormed` | backend/index.js:68-95 | in either insert mode a registration keeps every link inside the table, and keeps every sponsor code resolving to an earlier row |
| `Invariants.AttachKeepsMirrored` | backend/index.js:83-92 | under the source's insert, after an attach every link is still answered by its target's same-side link |
| `Invariants.AsWrittenKeepsMirrored` | backend/index.js:83-92 | every registration under the source's insert keeps the table mirrored |
| `Invariants.AttachKeepsChildrenLater` | backend/index.js:83-92 | without the back link, after an attach every link still points to a later row |
| `Invariants.IntendedKeepsChildrenLater` | backend/index.js:83-92 | every registration under the intended insert keeps all links pointing forward |
| `Invariants.AsWrittenSpilloverHangs` | backend/index.js:83-123 | under the source's insert on a mirrored table, a valid request whose sponsor's requested slot is taken gets no answer, whatever the fuel |
| `Invariants.IntendedAlwaysPlaces` | backend/index.js:107-127 | under the intended insert, a valid request with a known sponsor and an unused code and email always succeeds once the search may visit every row |
| `Scenarios.FirstJoinTakesFreeSlot` | backend/index.js:79-95 | a first member who asks for side `LEFT` in capitals takes the root's free left slot; under the source's insert the new row's left link points back at the root; the root's counters stay at zero |
| `Scenarios.AsWrittenChildListsParent` | backend/index.js:186-198 | under the source's insert the new member's downline lists the root as its left child |
| `Scenarios.SecondLeftJoinHangs` | backend/index.js:83-123 | under the source's insert, a second request for the root's left side never gets an answer, for any fuel |
| `Scenarios.IntendedSpillover` | backend/index.js:107-147 | under the intended insert the second left request spills to the first member's left; the root's left counter becomes 1 |
| `Scenarios.IntendedReferralDiverges` | backend/index.js:130-147 | a member sponsored by the first member spills under the second; the walk starts at the second member, whose sponsor is the root, and the root does not link to that member, so the walk stops and no counter changes |

## Left out

- Login, profile, `authenticateToken` and JWT signing and verification (lines 43-52, 155-181): token and session handling around the engine, with no placement logic.
- bcrypt hashing (line 76): an opaque foreign call. The stored hash is the `hashed` parameter of `Registration.Register`.
- Member-code generation from `Date.now()` (line 73): it reads the wall clock. The code is a parameter. A code already in use fails the INSERT with `CreateFailed`, as the UNIQUE column would.
- Storage faults, i.e. the `err` branches at lines 69, 87 (except a UNIQUE violation, which is `CreateFailed`), 109, 132, 135 and 139: the in-memory table has no I/O errors. The "Database error" response and the "No available position" response, which only a storage fault produces, are never produced.
- The ordering of the async callbacks: the link UPDATE and `updateCounts` run after the response is sent, without being awaited. Concurrent registrations can both see the same free slot. One registration is modelled as one atomic step.
- Express routing, CORS, JSON parsing and status codes (lines 1-12, 210-212): the comments on `RegisterError` name the status and message of each error kind. A non-string `position`, for which `toLowerCase` throws, is not modelled because the request fields are strings.
- Table creation, the connection and `created_at` (lines 15-40): persistence mechanics.
- Sparse ids: SQLite's AUTOINCREMENT promises increasing ids, not consecutive ones, and an INSERT refused on a UNIQUE column may use one up. The model numbers rows densely. This does not change the engine's behaviour, because the source compares ids only for equality. `Placement.ChildrenLater` and `Placement.ForwardSpineLands` bound positions in the table, not SQLite ids. No code path creates the first member; the scenarios start from a given one.
- The effect of a crash: a throw inside a sqlite3 callback is an uncaught exception that stops the Node process, not just one request. The model reports it as the `Crashed` result of the one registration, with the table unchanged. `Invariants.RegisterNeverCrashes` shows it is unreachable while every link names a row.
- The `MissingRow` and other stops of the walk are not part of the response: the source ignores how `updateCounts` ends, and `Registration.Linked` keeps only the table. `Counts.UpdateCounts` shows `MissingRow` is unreachable from the placement node, which always exists.
- Row order of the downline query's result: SQL leaves it unspecified, and each bucket holds at most one row, so it does not matter.
- The React client (`mlm/src`): forms, fetch calls and local storage.
- Registration.Register: states the counter changes as a propagation from the placement node that climbs the referral chain, and does not restate where that propagation stops. `Counts.UpdateCounts` states where it stops, and `Invariants.RegistrationWalkEnds` states how it ends on a well-formed table.
- Registration.Commit: states the counter changes in the same way as `Registration.Register`.

## Findings

| source | as written | input that shows it | evidently intended | confidence | as-written member | corrected member |
|---|---|---|---|---|---|---|
| backend/index.js:83-85 | the INSERT lists `${side}_member_id` and fills it with `placementId`, so the new row's own same-side link points back at its parent, and the UPDATE at line 92 then points the parent at the child | root `MEM1`; member A registers under `MEM1`/left; any member then registers under `MEM1`/left | only the UPDATE at line 92 links parent to child; the new row's links start empty, so spillover descends the left spine and lands on its first free slot | high (not executed) | `Scenarios.SecondLeftJoinHangs` | `Invariants.IntendedAlwaysPlaces` |

Under the source's insert every link is answered by a link back on the same
side (`Invariants.AsWrittenKeepsMirrored`). So any search that starts at an
occupied slot cycles between parent and child forever
(`Placement.MirroredSpineSpins`), and spillover never places anyone
(`Invariants.AsWrittenSpilloverHangs`). The same back link makes a member's
downline list their own parent as a child
(`Scenarios.AsWrittenChildListsParent`). With the back link dropped
(`InsertMode.Intended`), every link points forward
(`Invariants.IntendedKeepsChildrenLater`) and every well-formed request is
placed (`Invariants.IntendedAlwaysPlaces`). The spillover and count scenarios
in `Scenarios.IntendedSpillover` and `Scenarios.IntendedReferralDiverges` run
on the corrected model.
