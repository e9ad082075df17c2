# Audit chain: a verified model

This project models the tamper-evident audit log of workflow-plugin-audit-chain in Dafny 4.11 and proves
what the log promises. Check it with `dafny verify dfyconfig.toml`.

The system, in its own terms:

- A **ledger** is a sequence of audit entries. `AppendTx` locks the ledger's row in `audit_ledgers`, reads the
  cursor, inserts the next row into `audit_log` with a hash over its columns and over the hash before it, and
  advances the cursor, all inside the caller's transaction.
- `VerifyHandler` scans a range and re-derives hashes and links.
- `AnchorHandler` computes a Merkle root over the entry hashes of a range, submits it to providers and records
  it in `audit_anchors`. `ProofHandler` rebuilds an inclusion proof later, from a log that has grown meanwhile.
- `PollAnchorConfirmationHandler` moves an anchor's confirmation forward; `ApplyRedactions` replaces payload
  fields by pseudonyms in public receipts.

## How it is modelled

SHA-256 is a parameter: every theorem holds for every function from byte strings to 32-byte strings. No
injectivity is assumed. Wherever the source relies on collision resistance, a compiled function computes two
explicit inputs from the data at hand, and the lemma says: the claim holds, or these two inputs are different
and have one hash.

| File | What it holds |
|---|---|
| Bytes.dfy | Go strings as bytes, hexadecimal text, SHA-256 as a parameter |
| Merkle.dfy | chain/merkle.go: its loops, each proved equal to a recursive specification |
| MerkleTrees.dfy | levels as a recursive definition, completeness of proofs, trees and their collisions |
| MerkleBinding.dfy | what a root determines, soundness of proofs, comparison with RFC 6962 |
| JsonText.dfy | JSON strings and decimal numbers as encoding/json writes them, and the readers that undo them |
| EntryHashing.dfy | the entry hash preimage and its injectivity |
| Preimages.dfy | the entry hash preimage as the canonical JSON of an object |
| Canonical.dfy | canonical JSON on value trees, a reader for its texts, payload hashes |
| Jcs.dfy | the text RFC 8785 asks for, and which documents get it |
| Chain.dfy | the rows of one ledger as one writer would produce them |
| Transactions.dfy | chain/append.go as steps of any number of concurrent transactions, and which runs stay sound |
| Appending.dfy | one append: when it is refused, what it leaves; serialisability |
| Refusals.dfy | what a call of AppendTx does to its transaction: refusals as runs, commits and rollbacks after them |
| Queries.dfy | the range queries the handlers share |
| Verify.dfy | the scan of steps/verify.go, tamper evidence |
| Anchoring.dfy | anchor calls, statement by statement, interleaved with appends |
| EndToEnd.dfy | proofs rebuilt later against roots recorded earlier |
| FutureRanges.dfy | what the end of an anchored range decides about all continuations |
| Database.dfy | the handlers as methods on mutable tables, proved to be runs of the state machines |
| Proofs.dfy | proof replies on any tables: entry, anchors, path |
| AnchorCalls.dfy | one anchor call: refusals, range and root, recorded rows, answer |
| Polling.dfy | confirmation polls: reply classification, aggregation, overlapping polls |
| Redaction.dfy | pseudonyms for redacted fields, and what they reveal |

Loops of the source are loops here, inside methods; tables the source updates are fields of a class. The
methods are proved against functions, and the theorems are about those functions. One SQL statement is one
step of a state machine, so a list of steps is one interleaving and "for every list" is "for every
interleaving".

The append protocol never looks inside the two hash computations, so its theorems are stated for every pair of
functions (`Chain.Hashes`); `Chain.Sha256Hashes` is the pair the source uses.

## Findings

Where code and comments disagree, the model follows the code.

- **Commit after an interrupted AppendTx.** `AppendTx` takes a context of its own. When that context ends after
  the server has stored the row and before the UPDATE, the call returns an error while the caller's transaction
  is still healthy, and a caller that commits all the same persists a row its ledger's cursor does not know of.
  `Appending.TornCommitBreaks` is such a run: one row and a cursor at 0, and whatever runs later, nobody appends
  to that ledger again. `Transactions.SoundExactlyWhenOrderly`: a run leaves sound ledgers if and only if no
  transaction commits after one of its `AppendTx` calls was interrupted between the two statements, and
  `Appending.Serialisable` holds under the same condition, in both directions. Runs that meet it are called
  orderly below; `Append` always rolls back and meets it.
- **Which errors tear.** Two interruptions do: at the Scan of the INSERT's answer and at the UPDATE
  (`Appending.OnlyTwoInterruptionsTear`). The first has the error text of an interruption before the INSERT, so
  an error that names the INSERT does not tell a caller whether the row was stored
  (`Appending.InsertErrorIsAmbiguous`); a caller is safe that rolls back after every error naming the INSERT or
  the UPDATE. `Refusals.CommitAfterRefusal`: after an unknown ledger, a payload that is not JSON or any other
  interruption a commit stores what it would have stored without the call, and after a statement that the server
  failed it stores nothing, savepoints aside. A rollback is always a rollback without the call
  (`Refusals.RollbackAfterRefusal`).
- **Ranges that end in the future.** `AnchorHandler` accepts an end that has not been committed yet. The root
  then covers fewer rows than a proof rebuilt later. `FutureRanges.StaleAnchorReachable` is a run to that
  state; `EndToEnd.ProofVerifiesWhenCurrent` says of every state whether the rebuilt proof verifies, up to an
  exhibited collision; and `FutureRanges.AnchorEndDecides` settles it at anchor time: an anchor stays provable
  in all continuations if its end was committed when its hashes were read, and only then.
  `FutureRanges.SeenIsCommittedEnd` ties that to the ledger's cursor, which a caller can read. With ends that
  are 0 or committed, every covered entry is provable in every later state
  (`EndToEnd.EveryCoveredEntryProvable`).
- **Overlapping polls.** The forward-only guard compares with the level read at the start; the UPDATE does not
  compare again. `Polling.NeverDownIff`: levels never go down under overlapping polls if and only if no row may,
  from an unconfirmed level, both be reported confirmed and get to finalized. What counts is what all polls of
  that row may report together, because the handler takes the provider from the request and never compares it
  with the row's. So the shipped providers keep levels up if every anchor is polled at its own provider
  (`Polling.PollsMoveForward`), and if polls name providers freely, exactly when no pending row is polled both at
  calendars and at git or Sigstore (`Polling.ShippedNeverDownIff`). `Polling.WrongProviderDowngrades` is the run
  in which a calendar row goes from pending to finalized to confirmed.
- **Fields listed twice.** Redaction hides everything but equality if and only if no field is listed twice
  (`Redaction.RevealsOnlyEquality`): the second mention takes the first pseudonym for an original value.
- **Canonical JSON.** chain/canonical.go says RFC 8785. The code's text is the RFC's if and only if every number
  literal is already written as ECMAScript prints it, no string or key holds one of `<`, `>`, `&`, U+2028 and
  U+2029, which the code escapes, and no object has two keys that, where they first differ, have a character
  from U+E000 to U+FFFF and one beyond, which UTF-16 orders the other way round (`Jcs.CanonicalIs8785`;
  `Jcs.Departures` has a document for each). Number literals stay as written: 1 and 1.0 differ
  (`Canonical.NumbersStayLiterals`), so documents of one numeric value need not have one text.
- **Event types that are not UTF-8** collapse in the preimage (`EntryHashing.InvalidUtf8Collapses`); on valid
  strings the preimage is injective.
- **Roots and leaf counts.** The root alone does not fix the number of leaves: lists with one expansion share a
  root (`MerkleBinding.RootDetermines`). It equals the RFC 6962 root exactly for powers of two
  (`MerkleBinding.RootAgreesWithRfc`).
- providers/provider.go says an anchor is always pending after submission; the git and Sigstore providers
  return finalized, and that is what the model starts from.

## Model

| member | source | states |
|---|---|---|
| Merkle.PairLevel | chain/merkle.go:52-61 | the pairing loop builds exactly the parents of a level, the last node of an odd level paired with itself |
| Merkle.BuildLevels | chain/merkle.go:46-66 | the nested loops build the recursive list of levels, and terminate |
| Merkle.MerkleRoot | chain/merkle.go:74-81 | fails exactly on no leaves, otherwise the hexadecimal recursive root |
| Merkle.InclusionProof | chain/merkle.go:89-124 | fails exactly out of range, otherwise the sibling on every level with its side |
| Merkle.VerifyInclusion | chain/merkle.go:136-167 | accepts exactly when root and all elements decode and the fold of the proof meets the root |
| MerkleTrees.LevelsAreNodes | chain/merkle.go:46-66 | node i of level k is the recursive hash of its clamped children; there are depth + 1 levels of halving width |
| MerkleTrees.DepthIsLeast | chain/merkle.go:52-64 | the depth is the least d with 2^d at least the number of leaves |
| MerkleTrees.InclusionComplete | chain/merkle.go:89-167 | every honest proof is accepted, its length is the depth, and element j begins with the letter L when bit j of the index is set and with R otherwise |
| MerkleTrees.AcceptsOne | chain/merkle.go:141-166 | a one-element proof is accepted exactly when the element is L or R and 64 hexadecimal digits and the root is the hash with that sibling on that side |
| MerkleBinding.RootDetermines | chain/merkle.go:46-81 | equal roots exactly for equal expansions, and for equal leaves when counts agree, or an exhibited collision |
| MerkleBinding.InclusionSound | chain/merkle.go:136-167 | any accepted list of strings has the depth as length, spells a position at which the leaf stands, duplicates mapped back, and decodes to the proof generated for that position of the expanded list, unless it exhibits a collision |
| MerkleBinding.RootAdmitsOne | chain/merkle.go:136-167 | against any root string, without its leaves, two accepted proofs with the same sides, in particular of one length and position, exhibit a collision exactly when their leaf or nodes differ |
| MerkleBinding.RootIsMthOfExpansion | chain/merkle.go:46-81 | the root is MTH of section 2.1 of RFC 6962 over the expanded leaves |
| MerkleBinding.RootAgreesWithRfc | chain/merkle.go:9-17 | the root is MTH of the leaves themselves exactly for a power of two of them, up to a collision |
| MerkleBinding.ProofIsAuditPath | chain/merkle.go:102-122 | for a power of two of leaves the siblings are the audit path of section 2.1.1 of RFC 6962 |
| Bytes.DecodeEncodeHex | chain/merkle.go:120 | hexadecimal text decodes to what was encoded |
| Bytes.EncodeHexIs | chain/merkle.go:80 | each byte is written as two lower-case digits, the higher one first |
| Bytes.DecodeIff | chain/merkle.go:137-150 | a text decodes to some bytes exactly when it is their hexadecimal text up to the case of A to F |
| JsonText.QuotedSplits | chain/hash.go:34-41 | a quoted string followed by anything can be split off in one way only (section 7 of RFC 8259) |
| JsonText.DecimalInjective | chain/hash.go:40 | different sequence numbers print differently, negative ones included |
| JsonText.DecimalDenotes | chain/hash.go:40 | the digits denote the number, without leading zeros, after a minus sign for a negative one |
| JsonText.NextRuneIs | chain/hash.go:35-41 | a string is read as the UTF-8 encodings of section 3 of RFC 3629 and nothing else |
| EntryHashing.PreimageInjective | chain/hash.go:34-48 | the preimage is the same exactly when ledger and every column read the same |
| EntryHashing.EntryHashPins | chain/hash.go:34-48 | equal entry hashes exactly for equal fields or an exhibited collision |
| EntryHashing.SameColumnsValid | chain/hash.go:34-48 | on UTF-8 columns reading the same is being the same |
| EntryHashing.InvalidUtf8Collapses | chain/hash.go:35-41 | outside UTF-8 two event types share one entry hash |
| Preimages.PreimageIsCanonical | chain/hash.go:34-47 | the preimage is the canonical JSON of the object with the five members of the source, each value under its own key |
| Preimages.PreimageReads | chain/hash.go:26-41 | on UTF-8 columns the preimage reads back as that object with nothing left over, and exactly the documents of its value have it as canonical text |
| Canonical.CanonicalDecides | chain/canonical.go:21-35 | canonical texts are equal exactly for documents of the same value, whatever the order of members |
| Canonical.CanonicalReads | chain/canonical.go:21-35 | reading the canonical text gives the decoded document back and stops at its end, whatever follows that does not go on like a number |
| Canonical.CanonicalStable | chain/canonical.go:21-35 | decoding changes no logical value, and decoding and canonicalising twice is doing so once |
| Canonical.LastMemberCounts | chain/canonical.go:25-28 | of members with one key the last one written is kept, once |
| Jcs.CanonicalIs8785 | chain/canonical.go:11-20 | for any ECMAScript number printer the text is that of RFC 8785 exactly when every number is written as it prints it, no string holds one of five characters and no object has keys that straddle the surrogates |
| Jcs.Departures | chain/canonical.go:11-20 | a document for each of the five characters, for the key order and for 1.0 whose text is not that of RFC 8785 |
| Jcs.RuneTexts | chain/canonical.go:30 | every character but the five is written as the table of section 3.2.2.2 of RFC 8785 says |
| Jcs.SpecialTexts | chain/canonical.go:30 | the texts the code writes for the five: four-digit escapes |
| Canonical.PayloadHashPins | chain/hash.go:15-22 | payload hashes are equal exactly for the same value or an exhibited collision |
| Canonical.NumbersStayLiterals | chain/canonical.go:22-23 | 1 and 1.0 have different canonical texts |
| Chain.WellChainedUnique | chain/append.go:79-81 | numbering, links and hashes determine all rows from event types and payload hashes |
| Chain.ChainIsWellChained | chain/append.go:74-109 | sequential appends number rows from 1 without gaps, link each to the one before and hash it |
| Transactions.StepKeepsInv | chain/append.go:50-112 | every step of every transaction, interruptions and failures included, but a commit after an interruption between INSERT and UPDATE, keeps committed ledgers chained, cursors on their last rows, and each lock owner's view a chain |
| Transactions.SoundExactlyWhenOrderly | chain/append.go:83-109 | the committed tables of a run are sound if and only if no transaction in it commits after an AppendTx that returned between INSERT and UPDATE |
| Transactions.CommittedLedger | chain/append.go:50-112 | in every orderly run each committed ledger is exactly 1..last_sequence, linked and hashed, its cursor on the last row, one row per committed append |
| Transactions.InsertNeverCollides | chain/append.go:79-98 | in every orderly run the INSERT never waits on the unique index, and meets a taken key exactly behind an interrupted append of the same transaction |
| Appending.TornCommitBreaks | chain/append.go:87-106 | the concrete run: interrupted after its row was stored, committed, a stale cursor; and in every later state every call on that ledger is refused, with a duplicate key once it reaches the INSERT |
| Appending.TornLedgerIsLost | chain/append.go:83-109 | every run that is not orderly leaves a ledger to which nobody can append any more |
| Appending.TornRun | chain/append.go:87-106 | a call interrupted at either point is the run lock, insert, abandon, and leaves the lock, the row and the old cursor |
| Appending.OnlyTwoInterruptionsTear | chain/append.go:50-112 | of all errors AppendTx can return, only interruptions at the Scan of the INSERT and at the UPDATE leave the row stored and the transaction behind, and their texts name those statements |
| Appending.InsertErrorIsAmbiguous | chain/append.go:87-98 | two interruptions name the INSERT; a commit is sound after one and torn after the other |
| Appending.Serialisable | chain/append.go:28-112 | an interleaving leaves each ledger and cursor as its committed appends would, run one at a time in commit order, if and only if it is orderly |
| Appending.AppendOnSoundTables | chain/append.go:28-42 | undisturbed, an append is refused exactly for an unknown ledger, a held lock or a bad payload; otherwise one ledger gains one chained row and no other changes |
| Appending.DuplicateOnlyBehind | chain/append.go:87-98 | on sound tables AppendTx meets a duplicate key exactly after a call on that ledger in the same transaction that was interrupted with its row stored |
| Appending.AppendTxEffect | chain/append.go:57-109 | one AppendTx in a new transaction leaves one uncommitted row and cursor that continue the committed cursor |
| Appending.BeginThenGiveUp | chain/append.go:33-37 | rolling back after any error leaves the tables as if the append had never begun |
| Refusals.RefusalIs | chain/append.go:50-99 | without trouble from outside, which error is returned, for every transaction, ledger and payload |
| Refusals.TroubleIs | chain/append.go:50-109 | a failing statement or an ending context is the error exactly when the call reaches that point |
| Refusals.RefusedIsRun | chain/append.go:50-109 | every refused call is the run of the statements it issued, and leaves what that run leaves |
| Refusals.RefusedLeaves | chain/append.go:44-109 | a refused call changes no committed table and no other transaction; an unknown ledger leaves everything as it was, a bad payload only the lock, a torn call the lock and the row, a failed statement an empty failed transaction without locks |
| Refusals.CommitAfterRefusal | chain/append.go:44-109 | a commit after a refusal stores what it would have stored without the call, and the row more exactly when the error tears; nothing after a failed statement |
| Refusals.RollbackAfterRefusal | chain/append.go:33-37 | a rollback after any refusal is a rollback without the call |
| Refusals.AppendTxAdds | chain/append.go:57-109 | a call that goes through, in a transaction that may have appended before, adds one row, its cursor and its request, takes the lock and changes nothing else |
| Refusals.RowIs | chain/append.go:74-98 | the row is numbered and linked after what the transaction sees, carries the event type, the hash of the canonical payload and the hash of the canonical object of its columns |
| Refusals.EndFreesLocks | chain/append.go:33-40 | commit, rollback and a failed statement free all locks of the transaction and no others |
| Database.Tables.SelectForUpdate | chain/append.go:57-72 | locks and reads what the transaction itself sees, or says why not |
| Database.Tables.TakeLock | chain/append.go:51-72 | lock timeout, row lock and the Scan of its answer, with the error and state of every way they can fail |
| Database.Tables.StoreRow | chain/append.go:83-99 | INSERT and the Scan of its answer, with the error and state of every way they can fail, the row stored or not |
| Database.Tables.AdvanceLedger | chain/append.go:101-109 | the UPDATE, with the error and state of every way it can fail; otherwise the three statements are one run |
| Database.Tables.AppendTx | chain/append.go:50-112 | which error it returns, for every statement that the server fails or the context cuts off, and the state each leaves; otherwise the three-statement run, returning the row written |
| Database.Tables.Append | chain/append.go:28-42 | on error, or a denied commit, nothing at all has changed; otherwise the five-statement run and exactly the extended tables, also when the commit's answer is lost |
| Queries.SelectIsSlice | steps/anchor.go:49-57 | on a gap-free ledger a range query returns a contiguous stretch of rows |
| Queries.OrderByOrders | steps/verify.go:32-42 | the selected rows come back each once, in ascending sequence |
| Queries.SelectIs | steps/verify.go:32-42 | on any table exactly the rows of the ledger in range, in ascending sequence, each once where sequences are unique |
| Verify.Scan | steps/verify.go:48-101 | the report is exact: valid with the full count, or the earliest failing row with its reason and the count before it |
| Verify.ReportUnique | steps/verify.go:53-101 | at most one report is exact for given rows |
| Verify.ChangedRowReported | steps/verify.go:53-91 | one row of a genuine ledger replaced: the exact report, and no finding exactly when it links, carries its own hash and keeps the hash the next row names |
| Verify.RemovedRowReported | steps/verify.go:53-91 | one row removed: reported at the row behind it, except at the two ends or when its hash is that of the row before |
| Verify.PassesSplit | steps/verify.go:62-90 | a range verifies exactly when two ranges sharing one boundary row do |
| Verify.RequestsSplit | steps/verify.go:32-101 | over any table with a unique ledger and sequence a request verifies exactly when the two requests do into which an existing row splits it |
| Verify.TamperEvident | steps/verify.go:53-91 | an accepted scan ending in the hash of a genuine ledger is its last rows, column by column, not past its first, or exhibits a collision |
| Verify.EndsLikeValid | steps/verify.go:53-91 | on UTF-8 columns those are the very same rows |
| Verify.RootPinsHistory | steps/verify.go:74-90 | two verified row lists of one length and one Merkle root agree on every hashed column, or exhibit a collision |
| Database.Tables.VerifyHandler | steps/verify.go:17-101 | refusals and a failing query, otherwise an exact report on the selected rows of whatever the table holds |
| EndToEnd.ReachableRangeVerifies | steps/verify.go:32-101 | every range of every ledger that an orderly run leaves is reported valid with all its entries counted |
| EndToEnd.LedgerTamperEvident | steps/verify.go:53-91 | the same against any row of any ledger that an orderly run leaves |
| Anchoring.SysStepKeepsInv | steps/anchor.go:36-124 | every step of appends and anchor calls but a torn commit keeps each recorded root the root of the rows read for it, and anchor keys unique |
| Anchoring.SysExecKeepsInv | steps/anchor.go:36-124 | over whole orderly runs, and anchors recorded earlier are never changed or removed |
| Anchoring.RangeIsCovered | steps/anchor.go:48-71 | the hash query returns what the range covers of all committed rows |
| EndToEnd.EveryCoveredEntryProvable | steps/proof.go:35-61 | whatever is interleaved in an orderly run, before a proof and between its three queries, while anchors name committed ends, every committed covered sequence gets a path and root that verify |
| EndToEnd.ProofVerifiesWhenCurrent | steps/proof.go:45-61 | for any anchors and any times of the three queries: the returned path verifies exactly when no row of the range was committed since its hashes were read for the anchor, up to a collision |
| FutureRanges.AnchorEndDecides | steps/anchor.go:36-79 | an anchor is provable in all continuations exactly when its end was committed when its hashes were read, up to a collision in one of them |
| FutureRanges.SeenIsCommittedEnd | steps/anchor.go:48-71 | what decides is the ledger's committed last sequence at the hash query |
| FutureRanges.StaleAnchorReachable | steps/anchor.go:36-47 | append, anchor 1 to 2, append: a reachable state whose covering anchor is out of date |
| EndToEnd.AcceptedMeansCommitted | chain/merkle.go:133-167 | in every orderly run, any string that verifies against a recorded root, with any proof, is the entry hash of a committed row of the anchored range, or exhibits a collision |
| EndToEnd.AnchorRetries | steps/anchor.go:92-116 | one row per ledger, provider and range, recorded rows never changed by retries, one root per range as the log grows |
| Database.QueryEntryHashesWithIndex | steps/proof.go:162-193 | the hashes of the range in order, and the index of the sequence or -1 |
| Proofs.ReplyIs | steps/proof.go:35-76 | on any tables and times: refused exactly without a row of the sequence; the entry is such a row; the anchors are the covering ones in recording order; no path and root without one, else the root of the first and a path that proves the row in its range |
| Proofs.EmptyRootMeansUncovered | steps/proof.go:45-61 | in a running system the root of a reply is empty exactly when no anchor covers the sequence |
| Database.ProofHandler | steps/proof.go:20-77 | which refusal, exactly; otherwise a row of the asked sequence, anchored or not, the covering anchors in order, and the path and root that fit them, each query reading the state of its own time |
| Database.Tables.SubmitAll | steps/anchor.go:91-124 | submissions are recorded one by one until a provider or an INSERT fails, conflicts skipped, and the answer says which it was |
| Database.Tables.AnchorHandler | steps/anchor.go:20-131 | refusals and failing queries change nothing; otherwise the recorded rows are exactly those of the submissions before the first failure |
| AnchorCalls.AnchorRefusalIs | steps/anchor.go:27-75 | which refusal, exactly; no entries means no row of the ledger in the range, end 0 taken as the last sequence |
| AnchorCalls.AnchoredRange | steps/anchor.go:36-79 | on sound tables: the recorded range and the rows its root is over, up to the last committed one for end 0 |
| AnchorCalls.RecordAllIs | steps/anchor.go:91-116 | one new row for each submission whose provider had not anchored the range, in order, with the range and root of the call and the provider and reference of the submission |
| AnchorCalls.AllSubmitted | steps/anchor.go:90-130 | the call succeeds exactly when every provider submits, and answers with their submissions in order |
| AnchorCalls.FirstFailure | steps/anchor.go:92-116 | otherwise the first provider that does not submit decides the error, and exactly those before it are recorded |
| Database.AnchorHandlerRuns | steps/anchor.go:36-124 | such a call is a run of the interleaved system |
| Anchoring.AppendsAreRuns | chain/append.go:50-112 | append statements are runs of the interleaved system, orderly exactly when they are |
| Polling.VerifyCalendars | providers/opentimestamps/opentimestamps.go:188-237 | the loop returns the order-free verdict on all replies, and an error for malformed proof data |
| Polling.CalendarContract | providers/opentimestamps/opentimestamps.go:246-287 | errors exactly for some 4xx other than 404; confirms exactly from pending with some 200; swallowed exactly without a 200 and with a reply other than 404, keeping the level |
| Polling.CalendarOrderIrrelevant | providers/opentimestamps/opentimestamps.go:200-234 | permuting calendars changes no outcome |
| Polling.GitContract | providers/git/git.go:341-374 | bad proof data is an error, an answering remote finalizes, any other is swallowed with the level kept |
| Polling.RekorContract | providers/sigstore/sigstore.go:200-255 | a missing entry, a client error and bad proof data are errors, a found entry finalizes, everything else is swallowed with the level kept |
| Polling.ForwardIs | steps/poll_anchor_confirmation.go:102-107 | exactly the moves to confirmed and to finalized from below are written, and only of answers not swallowed |
| Polling.PollsMoveForward | steps/poll_anchor_confirmation.go:53-121 | with every anchor polled at its own shipped provider, however polls overlap and fail, no level goes down; calendar rows stay pending or confirmed, git and Sigstore rows finalized |
| Polling.ShippedNeverDownIff | steps/poll_anchor_confirmation.go:42-117 | with polls that name any shipped providers, levels never go down exactly when no pending row is polled both at calendars and at git or Sigstore |
| Polling.WrongProviderDowngrades | steps/poll_anchor_confirmation.go:42-117 | the concrete run: a pending calendar row, polled at its calendars and meanwhile at git, goes to finalized and then to confirmed |
| Polling.NeverDownIff | steps/poll_anchor_confirmation.go:102-117 | for any rows, any answers and any overlap levels never go down exactly when no row may be reported confirmed and also get to finalized from an unconfirmed level, by one provider or several |
| Polling.OneAtATimeMovesForward | steps/poll_anchor_confirmation.go:53-121 | with polls one at a time, some abandoned, and any provider, levels never go down and a row is updated at most twice |
| Polling.AnchorTable.PollConfirmation | steps/poll_anchor_confirmation.go:27-131 | which error ends it, failing statements included, and then nothing has changed; otherwise it is a run, keeps every other row, transitions exactly when it changes the table, and reports swallowed replies with the old level |
| Polling.PollRefusalIs | steps/poll_anchor_confirmation.go:33-117 | which error ends a poll, exactly |
| Redaction.ApplyRedactions | steps/public_receipt.go:223-262 | unchanged, error and null cases, otherwise the field-by-field replacement |
| Redaction.RedactListIsSimple | steps/public_receipt.go:233-255 | for distinct fields the loop's state is given by the original object alone |
| Redaction.PseudonymAssignment | steps/public_receipt.go:233-255 | same pseudonym exactly for same originals, names exactly contributor_1..k, keys and unlisted fields kept, map and object agree |
| Redaction.ContributorIs | steps/public_receipt.go:248 | a pseudonym is the bytes of contributor_ and the digits of its number |
| Redaction.FirstContributor | steps/public_receipt.go:233-255 | one listed field: contributor_1, quoted in the object, whatever it held |
| Redaction.ValuesInOrder | steps/public_receipt.go:246-251 | numbers follow the order in which listed fields first hold the values |
| Redaction.RevealsOnlyEquality | steps/public_receipt.go:223-262 | payloads with one equality pattern give one result and one map, for all payloads, exactly when no field is listed twice |

## Left out

- SHA-256 itself, HTTP, TLS, git and Rekor clients, signing: replies are parameters and the hash is any function.
- SQL text, drivers, pools and wall-clock columns: a query is a function of the tables, a lock is an owner field, a lock timeout is an allowed failure.
- Sequence numbers past the 64-bit range: sequences are unbounded integers, so the wrap-around after 2^63 - 1 appends to one ledger does not occur.
- Column limits and JSONB checks of the tables (100-byte event types, NUL in payloads): the server may fail any statement at any time, which covers them.
- An AppendTx whose UPDATE is carried out and whose answer is lost: for the tables a completed append. A returned timestamp that does not scan is the interruption at the INSERT's Scan.
- Savepoints: a caller that undoes a failed statement with one can commit what it appended before; here a failed statement costs the transaction everything.
- The columns payload, metadata, appended_by_actor and created_at: no hash and no handler modelled here reads them; the scan does not bind the stored payload and does not detect truncation at either end of its range.
- Byte-level JSON decoding (whitespace, trailing data, duplicate keys, invalid UTF-8 in documents): canonicalisation works on value trees, redaction on the decoded member map; the text of the redacted map is not modelled.
- The digits ECMAScript prints for a number: a parameter, any function from number literals to number literals.
- Several databases behind one registry: all ledgers live in one database.
- Database.Tables.AnchorHandler: no other transaction runs between its statements; its interleaving with appends and other calls is the state machine of Anchoring.
- Redaction.ApplyRedactions: returns the member map, not the marshalled text, in which encoding/json sorts the members and compacts the untouched raw values.
- Database.Tables.SelectForUpdate: a held lock is a timeout at once; waiting and then getting it is a later step of the state machine of Transactions.
- Database.Tables.TakeLock: likewise.
- Database.Tables.Append: likewise; its BEGIN always succeeds.
- Polling.AnchorTable.PollConfirmation: the confirmed_at and finalized_at timestamps and the error message are not modelled.
- The calendar submission loop of the OpenTimestamps provider: it collects receipts and fails only when all calendars do.
- Config and Input merging, module registries and lifecycle, generated code, receipt assembly, steps/append.go and steps/merkle_root.go: field copying and thin callers of what is modelled.
