# CoWIN availability notifier — a Dafny model of one polling cycle

The program polls the CoWIN public API for the vaccination sessions of one
district on one date: the date the process started, which index.js:17
computes once, so after midnight it keeps fetching, and keying the snapshot
by, its start date. It compares them with the snapshot it stored in
a Firebase realtime database during the previous poll. It then sends the new
or changed sessions to a list of Telegram users. This project models one
polling cycle (`startPolling`) as a pure step function. Because the
snapshot key never changes while the process runs, the snapshot one cycle
writes is, when the write succeeds, the one the next cycle reads. That is how
the multi-cycle lemmas chain cycles:

- the stored snapshot comes in as an `Option<seq<Session>>`;
- the API's answer comes in as an `Option<seq<Session>>`;
- the recipients variable comes in as an `Option<string>`;
- the snapshot to write, the sessions to announce and the send requests come out.

Modules, one per part of `index.js`:

- `Wrappers`: the `Option` type. It stands for every value that may be missing: an unread snapshot, a failed fetch, an unset variable, or NaN.
- `Sessions`: the session record, plus the per-centre lookup the diff uses (`Array.prototype.find`).
- `Text`: the JavaScript string operations the program relies on. These are integer rendering in a template literal, decimal `parseInt`, `split` on one character, and `join`.
- `Availability`: `fetchTodayVaccineData`'s filter and stable sort.
- `Message`: `formatMessage`.
- `Notify`: `sendMessage`. This covers its guard on the message, the recipient parsing and one request per recipient.
- `SnapshotDiff`: the diff loop, as a recursive function and as the loop itself.
- `Polling`: the cycle, the order of its effects, and the scenarios.

Behaviours of the code a reader may not expect:

- The "at least one user" error of `sendMessage` cannot be raised. `split(",")` always returns at least one field, so an unset recipient list leads to one send addressed to NaN, not to an error (`Notify.SendMessage`, `Polling.ScenarioNoUsersConfigured`).
- When a centre's capacity changes, the diff reports the stored session, which carries the old capacity. The model keeps this (`SnapshotDiff.ChangedSessionReportsPrior`, `Polling.ScenarioCapacityChanged`).
- The diff is guaranteed to report each centre at most once when the fetched list has no repeated centre (`SnapshotDiff.DiffDistinct`); with a repeated centre it may report one twice. Idempotence needs the same condition: `SnapshotDiff.SelfDiffWithRepeatedCentre` shows a list that is not quiet against itself.

## Model

| member | source | states |
|---|---|---|
| Sessions.FirstWithId | index.js:103-105 | the lookup finds nothing exactly when no stored session has the centre; otherwise it returns a stored session of that centre with no earlier one of the same centre |
| Sessions.FirstWithIdOfMember | index.js:103-105 | in a list without repeated centres, looking up the centre of one of its sessions returns that session |
| Text.Split | index.js:23-24 | `split` on one character gives one more piece than there are separators (so at least one), and no piece contains the separator |
| Text.JoinSplit | index.js:23-24 | joining the pieces of a split with the separator gives back the original string |
| Text.SplitJoin | index.js:85 | splitting a join of at least one separator-free part gives back the parts |
| Text.JoinAppend | index.js:85 | joining a concatenation equals joining each half and putting one separator between them |
| Text.ParseInt | index.js:25 | on decimal input, `parseInt` gives NaN exactly when, after leading white space and one optional sign, no digit follows |
| Text.ParseIntOfDecimal | index.js:25 | `parseInt` reads back every integer that a template literal renders (`Text.Decimal`, the `${...}` of index.js:83), negative ones included |
| Availability.Insert | index.js:73 | inserting into a list of non-increasing capacity keeps it non-increasing and adds exactly the inserted session |
| Availability.SortByCapacity | index.js:73 | the sort's result has non-increasing capacity and is a permutation of its input |
| Availability.PositiveCounts | index.js:72 | the filter (`Availability.Positive`) keeps every session with positive capacity as often as it occurs and drops every other session |
| Availability.SortStable | index.js:73 | for every capacity, the sessions with that capacity keep their input order |
| Availability.PositiveWithCapacity | index.js:72 | the filter keeps, for every positive capacity, all sessions of that capacity in input order, and none of any other capacity |
| Availability.Normalise | index.js:72-76 | a failed request or unreadable answer gives the empty list; otherwise the result has non-increasing capacity and only sessions with free capacity |
| Availability.NormaliseSpec | index.js:72-73 | the fetch result has non-increasing capacity, holds exactly the answer's sessions with free capacity with their multiplicities, and keeps ties in answer order |
| Availability.NormaliseDistinct | index.js:72-73 | if the answer lists each centre once, so does the fetch result |
| Message.Layout | index.js:79-86 | the line layout of n sessions has 6n-1 lines: five per session and one blank line between neighbours |
| Message.Format | index.js:79-86 | the message is empty exactly when there are no sessions |
| Message.FormatIsLayout | index.js:79-86 | the message equals the layout's lines joined by newlines, so the blocks (`Message.Blocks`, the `map` of lines 80-84, each a `Message.Block` of the five lines `Message.Lines` of the template at line 83) appear in input order with a blank line between them |
| Message.FormatLines | index.js:79-86 | if no text field contains a line break, splitting the message at newlines gives back each session's five lines in order, separated by empty lines, and the message holds 6n-2 line breaks for n sessions |
| Notify.Recipients | index.js:23-25 | there is one recipient per comma-separated field (at least one, even for an unset or empty variable), each parsed with `parseInt` |
| Notify.RecipientsOfRenderedIds | index.js:23-25 | a comma-join of rendered ids parses back to exactly those ids |
| Notify.SendMessage | index.js:19-34 | an absent or empty message sends nothing; the "at least one user" error never occurs; otherwise each recipient gets exactly one request carrying the message |
| SnapshotDiff.Emit | index.js:103-111 | one fetched session contributes at most one entry; none exactly when its centre is stored with the same capacity in the first match; otherwise the entry is itself (new centre) or the first stored match (changed capacity) |
| SnapshotDiff.Diff | index.js:101-113 | the delta is no longer than the fetched list |
| SnapshotDiff.DiffAppend | index.js:102-113 | the diff of a concatenation is the concatenation of the diffs, so each fetched session contributes independently and in order |
| SnapshotDiff.DiffLoop | index.js:101-113 | the `for ... of` loop with `push` computes the diff |
| SnapshotDiff.NewSessionReported | index.js:106-107 | a fetched session whose centre is not in the snapshot appears in the delta unchanged |
| SnapshotDiff.ChangedSessionReportsPrior | index.js:108-111 | if a fetched session's capacity differs from the first stored session of its centre, that stored session (old capacity) appears in the delta |
| SnapshotDiff.DiffSound | index.js:102-113 | every delta entry is either a fetched session with a new centre or the first stored session of a fetched centre whose capacity changed |
| SnapshotDiff.DiffEmptyIff | index.js:102-113 | the delta is empty exactly when every fetched centre is stored and its first stored session has the same capacity |
| SnapshotDiff.DiffIdsWithin | index.js:102-113 | every centre in the delta is a fetched centre |
| SnapshotDiff.DiffDistinct | index.js:102-113 | if the fetched list has no repeated centre, neither does the delta |
| SnapshotDiff.DiffAgainstNothing | index.js:102-113 | compared with an empty list, every fetched session is reported, in order |
| SnapshotDiff.SelfDiffEmpty | index.js:102-113 | a list without repeated centres compared with itself gives an empty delta |
| SnapshotDiff.SelfDiffWithRepeatedCentre | index.js:103-111 | with two sessions of one centre at different capacities, the list is not quiet against itself |
| Polling.Cycle | index.js:88-119 | the snapshot written is the fetch result whatever was stored. No snapshot: the whole list is announced. Empty snapshot: nothing is built or sent. Otherwise the diff is announced. A send happens exactly when the announced list is non-empty, and every request carries its text |
| Polling.CycleEffects | index.js:88-119 | the snapshot read and the availability fetch come first, then the write of the normalised fetch whatever the snapshot was; then, if the announced list (all of the fetch with no snapshot, nothing with an empty one, the diff otherwise) is non-empty, one send per comma-separated recipient field in order, each carrying the formatted list, and no send otherwise |
| Polling.StoredSnapshotSpec | index.js:90-91 | the snapshot written after the two reads and before any send is sorted by non-increasing capacity and holds exactly the answer's sessions with free capacity |
| Polling.SecondCycleQuiet | index.js:89-118 | two cycles on the same answer, with no repeated centre: the second sends nothing |
| Polling.SampleMessageLines | index.js:83 | the sample session's message consists of the five template lines |
| Polling.SampleRecipients | index.js:23-25 | `"11,22"` is read as the recipients 11 and 22 |
| Polling.ScenarioFirstCycle | index.js:95-97 | with no snapshot, a single open centre is stored, and announced with its five lines to both recipients |
| Polling.ScenarioUnchanged | index.js:100-115 | with unchanged availability the delta is empty, nothing is sent, and the same list is stored |
| Polling.ScenarioCapacityChanged | index.js:108-111 | a capacity change from 3 to 10 announces the stored session with capacity 3 and stores the one with 10 |
| Polling.ScenarioNoUsersConfigured | index.js:23-31 | with the recipients variable unset, a non-empty message is sent once, to NaN, and no error is raised |
| Polling.EmptySnapshotHidesNewCentre | index.js:95-118 | for any centre with free capacity, starting with no snapshot, a fetch of nothing followed by two fetches of that centre sends nothing in any of the three cycles, though the centre ends up stored |
| Polling.CycleIntended | index.js:95-118 | the corrected cycle always builds a delta and agrees with the cycle as written whenever the snapshot is not present-but-empty |
| Polling.IntendedAnnouncesNewCentres | index.js:102-107 | under the corrected cycle, every stored session whose centre was not in the snapshot is announced and a send happens |
| Polling.IntendedAnnouncesAfterEmptyFetch | index.js:95-118 | under the corrected cycle, the centre of the as-written counterexample is announced in the second cycle, the first that fetches it |

## Findings

| source | as written | input that shows it | evidently intended | confidence | as-written member | corrected member |
|---|---|---|---|---|---|---|
| index.js:100-118 | a stored snapshot that is present but empty ends the cycle with no message, yet the fresh list is still stored | no snapshot; the fetches return `[]`, then one centre with free capacity, then the same again; no cycle sends anything | an empty snapshot is compared like any other, so everything fetched counts as new (as when the snapshot is missing) | low, not executed: Firebase reads an empty array back as `null`, which turns the empty snapshot into a missing one and hides this in deployment | Polling.EmptySnapshotHidesNewCentre | Polling.CycleIntended |

## Left out

- The HTTP requests to the CoWIN API and to Firebase (index.js:36-70) are I/O. The results of the two reads are the `prior` and `response` parameters of `Polling.Cycle`. A snapshot read that is rejected, or whose body does not parse, is caught and becomes `None`, an absent snapshot. A failed availability request becomes an empty fetch result.
- A failed or refused snapshot write (index.js:47-58) is not modelled. The program catches and logs it and carries on, and since `fetch` does not reject on an error status, a refused write's error body is simply parsed. The next cycle then reads the older snapshot. The model always records `PutSnapshot`, and the lemmas that chain cycles (`Polling.SecondCycleQuiet`, `Polling.EmptySnapshotHidesNewCentre`, `Polling.IntendedAnnouncesAfterEmptyFetch`) assume that the write succeeded.
- Firebase's own storage behaviour is not modelled. In particular it reads an empty array back as `null`. The model passes a written snapshot straight to the next cycle.
- A snapshot read that is not an array is not modelled as such. `fetch` does not reject on an error status, so a JSON error answer such as `{"error": "Permission denied"}` comes back as an object, like any stored document that is not an array. It is present at index.js:95, and its `length` is undefined at index.js:100, so it behaves as a present-but-empty snapshot (`Polling.Cycle` with `Some([])`): nothing is sent and the fresh list is stored.
- The Telegram client and `Promise.all` (index.js:13-15, 31-33) are a foreign library and concurrency. The model records one send request per recipient and does not model whether the requests succeed.
- The `setTimeout` rescheduling, the express listener and the unused `pingServer` (index.js:121-167) are timers, a server and dead code.
- `moment` date formatting, `dotenv`, and the district id, URLs and token read from the environment (index.js:2-17) are library and environment calls. The only environment value modelled is the recipients variable, passed as a parameter.
- Logging through `console.log` is not modelled.
- Availability.SortStable: assumes the stable `Array.prototype.sort` required since ECMAScript 2019 (V8 7.0, Node 11 and later). Older V8 sorted arrays of more than 10 elements unstably, and there the tie order that `Availability.SortStable` and `Availability.NormaliseSpec` state does not hold.
- Text.ParseInt: `parseInt` is modelled for decimal input only, so its NaN condition is stated for decimal input. JavaScript gives NaN for `"0x"` and 26 for `"0x1A"`, where the model reads 0.
- Text.ParseIntOfDecimal: `parseInt` is modelled for decimal input only. The model skips ASCII white space but not the other Unicode spaces JavaScript skips, does not read the `0x` hexadecimal prefix, and does not model the rounding of numbers beyond 2^53.
- Message.Format: capacities and age limits are modelled as integers rendered in decimal. JSON numbers with fractions, and integers of 10^21 or more (which JavaScript prints in exponent form), are not modelled.
- Notify.SendMessage: the message is modelled as an optional string. Falsy values of other types never reach it from the cycle.
