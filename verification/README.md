# Poll ledger of the voting program

A Dafny model of the on-chain poll program of the voting dApp: an Anchor
program with two account kinds (`Poll`, `VoteAccount`) and three
instructions (`create_poll`, `vote`, `close_poll`). The model is a pure state
machine over a ledger of two maps:

- `polls: map<PollKey, Poll>`, keyed by the program-derived address of the
  seeds `[b"poll", id.to_le_bytes()]`;
- `receipts: map<ReceiptKey, VoteAccount>`, keyed by the program-derived
  address of the seeds `[b"vote", poll, voter]`.

Each instruction is a function `Ledger -> Result<Ledger, Error>`; a failed
transaction leaves the ledger unchanged (`Program.Apply`). The failure checks
run in the program's order. Anchor first loads the existing accounts (the
`Account<Poll>`), then performs `init` on the new account. The handler's
`require!` checks come after that. So a repeated vote
reports `AlreadyInUse` even when the poll is closed. A close by a non-creator
reports `UnauthorizedCreator` even when the poll is already closed.

Files, one module each:

- `addresses.dfy` (`Addresses`): `u64`/`i64`/byte/key types. It also holds
  the little-endian id encoding, its round trip, and the poll and receipt
  addresses. The SHA-256 derivation is replaced by a free constructor over
  the seeds.
- `accounts.dfy` (`Accounts`): the `Poll` and `VoteAccount` accounts. It also
  holds the UTF-8 length of a description and the space `init` allocates.
- `program.dfy` (`Program`): the error kinds, the ledger, the three
  instructions, and single and repeated transaction application.
- `invariants.dfy` (`Invariants`): the ledger invariant and its preservation
  by every instruction. The invariant says each poll's counters equal its
  yes/no receipt counts, and receipts belong to existing polls.
- `lifecycle.dfy` (`Lifecycle`): what never changes and what only grows. It
  also covers which accounts an instruction touches, what repeated
  instructions return, and the order of the checks inside an instruction.
- `scenarios.dfy` (`Scenarios`): the integration-test scenarios, stated as
  lemmas about the model.

Behaviour of the program worth knowing:

- It defines no `DescriptionTooLong` and no `PollNotFound` error code. Its
  only description bound is the 200-byte allowance in the poll account's
  space. A longer description fails when Anchor writes the poll back into that
  space; the model reports this as `AccountDidNotSerialize`. An absent or
  non-poll account fails while Anchor loads `Account<Poll>`; the model reports
  this as `AccountNotFound`.
- The receipt's `init` runs during account validation, before the handler's
  `is_active` check. So a wallet that already voted gets `AlreadyInUse` from a
  closed poll, not `PollNotActive`.
- Closing an already closed poll fails with `PollNotActive`, so close is not
  idempotent.

## Model

| member | source | states |
|---|---|---|
| Addresses.LeBytesRoundTrip | anchor_project/voting_dapp/programs/voting_dapp/src/lib.rs:71 | decoding the little-endian bytes of any value that fits in n bytes gives the value back |
| Addresses.FromLeBytesRoundTrip | anchor_project/voting_dapp/tests/voting_dapp.ts:39-42 | every byte string is the little-endian encoding of its decoded value, so the client's `toArrayLike(Buffer, "le", 8)` and the program's `to_le_bytes` agree on one bijection |
| Addresses.PollKeyRoundTrip | anchor_project/voting_dapp/programs/voting_dapp/src/lib.rs:71 | the poll id can be recovered from its address, and every well-shaped poll address is the address of the id recovered from it |
| Addresses.PollKeyOfInjective | anchor_project/voting_dapp/programs/voting_dapp/src/lib.rs:71 | two poll ids share an address exactly when they are equal |
| Accounts.Utf8LengthBounds | anchor_project/voting_dapp/programs/voting_dapp/src/lib.rs:107 | the UTF-8 byte length of a description is between its character count and four times that |
| Accounts.FitsPollAccount | anchor_project/voting_dapp/programs/voting_dapp/src/lib.rs:70 | a poll fits the 277 bytes `init` allocates exactly when its description has at most 200 UTF-8 bytes, whatever its other fields |
| Accounts.DescriptionFitsByLength | anchor_project/voting_dapp/programs/voting_dapp/src/lib.rs:70 | descriptions of at most 50 characters always fit; descriptions of more than 200 characters never do |
| Program.CreatePoll | anchor_project/voting_dapp/programs/voting_dapp/src/lib.rs:9-27 | fails with `AlreadyInUse` exactly when the id's address is taken; otherwise fails exactly when the description exceeds 200 bytes; on success it adds only the new poll and keeps the receipts and every existing poll. The new poll has the given id, description, creator and timestamp, zero votes, and is active |
| Program.Vote | anchor_project/voting_dapp/programs/voting_dapp/src/lib.rs:29-49 | checks in order: absent poll gives `AccountNotFound`, then an existing receipt gives `AlreadyInUse`, then an inactive poll gives `PollNotActive`; success happens exactly when all three checks pass. Success writes the receipt (poll, voter, option) and adds one to the counter the option names and nothing to the other. It keeps the poll's identity and every other poll and receipt |
| Program.ClosePoll | anchor_project/voting_dapp/programs/voting_dapp/src/lib.rs:51-61 | checks in order: absent poll, then a signer other than the creator gives `UnauthorizedCreator`, then an inactive poll gives `PollNotActive`. Success only clears `is_active`: counters, identity, other polls and receipts are unchanged |
| Invariants.EmptyLedgerValid | anchor_project/voting_dapp/programs/voting_dapp/src/lib.rs:104-120 | the empty ledger satisfies the invariant |
| Invariants.CreatePreservesValid | anchor_project/voting_dapp/programs/voting_dapp/src/lib.rs:14-23 | a successful create keeps the invariant; the new poll's zero counters match its receipts because no receipt can name a poll that did not exist |
| Invariants.VotePreservesValid | anchor_project/voting_dapp/programs/voting_dapp/src/lib.rs:30-45 | a successful vote keeps every poll's yes and no counters equal to its yes and no receipt counts |
| Invariants.ClosePreservesValid | anchor_project/voting_dapp/programs/voting_dapp/src/lib.rs:52-57 | a successful close keeps the invariant |
| Invariants.ApplyPreservesValid | anchor_project/voting_dapp/programs/voting_dapp/src/lib.rs:9-61 | every transaction, successful or failed, keeps the invariant |
| Invariants.RunPreservesValid | anchor_project/voting_dapp/programs/voting_dapp/src/lib.rs:9-61 | every ledger reached by any sequence of transactions from a valid one is valid |
| Invariants.TotalVotesEqualReceipts | anchor_project/voting_dapp/programs/voting_dapp/src/lib.rs:41-45 | in a valid ledger `yes_votes + no_votes` equals the number of receipts for the poll |
| Invariants.VotersMatchReceipts | anchor_project/voting_dapp/programs/voting_dapp/src/lib.rs:88 | a poll's receipts correspond one-to-one with the wallets that voted on it |
| Invariants.TotalVotesEqualVoters | anchor_project/voting_dapp/programs/voting_dapp/src/lib.rs:84-91 | in a valid ledger a poll's total vote count is the number of distinct wallets that voted on it |
| Lifecycle.ApplyEvolves | anchor_project/voting_dapp/programs/voting_dapp/src/lib.rs:9-61 | one transaction never removes a poll or receipt or changes a receipt. It keeps each poll's id, description, creator and timestamp, never lowers a counter, never sets `is_active` back to true, and never changes a closed poll |
| Lifecycle.RunEvolves | anchor_project/voting_dapp/programs/voting_dapp/src/lib.rs:9-61 | the same holds across any sequence of transactions |
| Lifecycle.ApplyTouchesOnlyTargets | anchor_project/voting_dapp/programs/voting_dapp/src/lib.rs:64-102 | a transaction changes only the poll it names and, for a vote, only the one receipt derived from (poll, voter) |
| Lifecycle.DuplicateCreateRejected | anchor_project/voting_dapp/programs/voting_dapp/src/lib.rs:67-72 | after a successful create, a create at the same id with any description, creator or time fails with `AlreadyInUse`, and the stored description stays the first one |
| Lifecycle.DuplicateVoteRejected | anchor_project/voting_dapp/programs/voting_dapp/src/lib.rs:84-91 | after a successful vote, a vote by the same wallet on the same poll with either option fails with `AlreadyInUse` and changes nothing |
| Lifecycle.ReceiptCheckPrecedesActiveCheck | anchor_project/voting_dapp/programs/voting_dapp/src/lib.rs:84-91 | a wallet that voted before the poll was closed gets `AlreadyInUse` rather than `PollNotActive` |
| Lifecycle.VoteAfterCloseRejected | anchor_project/voting_dapp/programs/voting_dapp/src/lib.rs:33 | after a successful close every vote on the poll fails and changes nothing; a wallet without a receipt gets `PollNotActive` |
| Lifecycle.CloseNotIdempotent | anchor_project/voting_dapp/programs/voting_dapp/src/lib.rs:55 | closing a poll a second time fails with `PollNotActive` |
| Lifecycle.CreatorCheckPrecedesActiveCheck | anchor_project/voting_dapp/programs/voting_dapp/src/lib.rs:54-55 | a close by a non-creator fails with `UnauthorizedCreator` whether or not the poll is active, and leaves `is_active` as it was |
| Lifecycle.ClosedPollFrozen | anchor_project/voting_dapp/programs/voting_dapp/src/lib.rs:57 | a closed poll stays present and unchanged through any later sequence of transactions |
| Lifecycle.ReceiptsPermanent | anchor_project/voting_dapp/programs/voting_dapp/src/lib.rs:115-120 | a receipt, once written, stays present and unchanged through any later sequence of transactions |
| Scenarios.PollOneSeeds | anchor_project/voting_dapp/tests/voting_dapp.ts:39-42 | the seeds of poll 1 are `b"poll"` followed by the bytes 1, 0, 0, 0, 0, 0, 0, 0 |
| Scenarios.CreateStep | anchor_project/voting_dapp/tests/voting_dapp.ts:56-77 | creating poll 1 on an empty ledger stores it with no votes and active |
| Scenarios.YesStep | anchor_project/voting_dapp/tests/voting_dapp.ts:79-103 | the first wallet's yes vote writes its receipt and gives one yes and no no |
| Scenarios.NoStep | anchor_project/voting_dapp/tests/voting_dapp.ts:105-129 | a second wallet's no vote writes its receipt and gives one yes and one no |
| Scenarios.CloseStep | anchor_project/voting_dapp/tests/voting_dapp.ts:131-146 | the creator's close clears `is_active` and keeps the counts |
| Scenarios.VoteOnClosedStep | anchor_project/voting_dapp/tests/voting_dapp.ts:196-218 | a wallet without a receipt voting on the closed poll gets `PollNotActive` |
| Scenarios.DuplicateIdStep | anchor_project/voting_dapp/tests/voting_dapp.ts:178-194 | a second create at id 2 fails with `AlreadyInUse` and poll 2 keeps its first description |
| Scenarios.DoubleVoteStep | anchor_project/voting_dapp/tests/voting_dapp.ts:220-255 | a wallet's second vote on poll 2, with the other option, fails with `AlreadyInUse` |
| Scenarios.OutsiderCloseStep | anchor_project/voting_dapp/tests/voting_dapp.ts:257-272 | a close of poll 2 by another wallet fails with `UnauthorizedCreator` and poll 2 stays active |

## Left out

- Program.Vote: the `u64` counters `yes_votes` and `no_votes` are unbounded naturals, both in the `Poll` account and in the increment. Whether `+= 1` at lib.rs:42 and :44 panics or wraps at 2^64 depends on a build profile that is not part of this model. With the tally invariant, a counter can only overflow on the vote of the 2^64-th distinct wallet choosing that option.
- The SHA-256 program-derived address computation and its bump seed are left out. Addresses are free constructors over their seeds; collision resistance is assumed, not proved.
- Anchor's `ConstraintSeeds` error for an `init` account passed at the wrong address is left out, for both of them: the poll account of `create_poll` (seeds at lib.rs:71) and the receipt account of `vote` (seeds at lib.rs:88). `Program.CreatePoll` and `Program.Vote` derive these addresses themselves, so that error cannot arise.
- Account loading collapses to one error. An `Account<Poll>` that is absent, owned by another program or of another account type (wrong discriminator) is reported as `AccountNotFound`, not as Anchor's separate error codes.
- Signatures are not modelled. `Signer` checks belong to the runtime, and the signing wallet is an input of each instruction.
- Rent, payer funding, lamports and the System Program are left out, including an `init` failure for lack of funds.
- `Clock::get` is left out: the unix timestamp is an input of `CreatePoll`, and a failure to read the clock sysvar is not modelled.
- The 8-byte discriminator and the Borsh layout are modelled only through their sizes. They are generated by Anchor's macros.
- `msg!` logging has no effect on the accounts and is left out.
- Concurrency and transaction ordering across validators are left out. Each transaction is one atomic step; `Program.Run` applies a sequence of them in a chosen order.
- The React frontend (App.tsx, VotingApp.tsx, PollDetail.tsx, Profile.tsx) is left out. It holds UI and RPC glue, floating-point percentage bars and a client-side guess of the next poll id, and none of it is a ledger rule.
