/** The three instructions of the poll program, as transitions of a ledger.

    The ledger holds the program's accounts: polls at their derived addresses
    and receipts at theirs. Each instruction is one transaction: it either
    succeeds with a new ledger or fails with an error, and a failed transaction
    leaves the ledger as it was (`Apply`). The checks run in the order the
    program runs them: Anchor loads the existing accounts (`Account<Poll>`),
    then performs `init` on the new one, and only then runs the handler's own
    `require!` checks. */
module Program {
  import opened Addresses
  import opened Accounts

  datatype Result<T, E> = Ok(value: T) | Err(error: E)

  datatype Error =
      /** `init` found an account already at the derived address. */
    | AlreadyInUse
      /** The account passed as `Account<Poll>` is absent or is not a poll. */
    | AccountNotFound
      /** The program's `PollNotActive` error code. */
    | PollNotActive
      /** The program's `UnauthorizedCreator` error code. */
    | UnauthorizedCreator
      /** The poll no longer fits the space `init` allocated for it. */
    | AccountDidNotSerialize

  datatype Ledger = Ledger(polls: map<PollKey, Poll>, receipts: map<ReceiptKey, VoteAccount>)

  const EmptyLedger := Ledger(map[], map[])

  /** `create_poll`: allocate the poll at the address derived from `id` and
      initialise it; `now` is the clock's unix timestamp. */
  function CreatePoll(l: Ledger, id: U64, description: string, creator: Pubkey, now: I64): (r: Result<Ledger, Error>)
    ensures PollKeyOf(id) in l.polls ==> r == Err(AlreadyInUse)
    ensures PollKeyOf(id) !in l.polls && Utf8Length(description) > MaxDescriptionBytes ==> r == Err(AccountDidNotSerialize)
    ensures r.Ok? <==> PollKeyOf(id) !in l.polls && Utf8Length(description) <= MaxDescriptionBytes
    ensures r.Ok? ==>
      && r.value.receipts == l.receipts
      && r.value.polls.Keys == l.polls.Keys + {PollKeyOf(id)}
      && (forall k :: k in l.polls ==> r.value.polls[k] == l.polls[k])
      && var p := r.value.polls[PollKeyOf(id)];
         && p.id == id && p.description == description && p.creator == creator
         && p.yesVotes == 0 && p.noVotes == 0 && p.createdAt == now && p.isActive
  {
    var key := PollKeyOf(id);
    if key in l.polls then
      Err(AlreadyInUse)
    else
      var poll := Poll(id, description, creator, 0, 0, now, true);
      if !FitsPollAccount(poll) then
        Err(AccountDidNotSerialize)
      else
        Ok(l.(polls := l.polls[key := poll]))
  }

  /** `vote`: load the poll, allocate the voter's receipt, then check that the
      poll is active and count the vote. */
  function Vote(l: Ledger, poll: PollKey, voter: Pubkey, option: bool): (r: Result<Ledger, Error>)
    ensures poll !in l.polls ==> r == Err(AccountNotFound)
    ensures poll in l.polls && ReceiptAddress(poll, voter) in l.receipts ==> r == Err(AlreadyInUse)
    ensures poll in l.polls && ReceiptAddress(poll, voter) !in l.receipts && !l.polls[poll].isActive ==>
              r == Err(PollNotActive)
    ensures r.Ok? <==> poll in l.polls && ReceiptAddress(poll, voter) !in l.receipts && l.polls[poll].isActive
    ensures r.Ok? ==>
      && r.value.receipts.Keys == l.receipts.Keys + {ReceiptAddress(poll, voter)}
      && (forall rk :: rk in l.receipts ==> r.value.receipts[rk] == l.receipts[rk])
      && r.value.receipts[ReceiptAddress(poll, voter)] == VoteAccount(poll, voter, option)
      && r.value.polls.Keys == l.polls.Keys
      && (forall k :: k in l.polls && k != poll ==> r.value.polls[k] == l.polls[k])
      && var before, after := l.polls[poll], r.value.polls[poll];
         && SameIdentity(before, after) && after.isActive
         && after.yesVotes == before.yesVotes + (if option then 1 else 0)
         && after.noVotes == before.noVotes + (if option then 0 else 1)
  {
    if poll !in l.polls then
      Err(AccountNotFound)
    else
      var receipt := ReceiptAddress(poll, voter);
      if receipt in l.receipts then
        Err(AlreadyInUse)
      else
        var p := l.polls[poll];
        if !p.isActive then
          Err(PollNotActive)
        else
          var counted := if option then p.(yesVotes := p.yesVotes + 1) else p.(noVotes := p.noVotes + 1);
          Ok(Ledger(l.polls[poll := counted], l.receipts[receipt := VoteAccount(poll, voter, option)]))
  }

  /** `close_poll`: only the stored creator may close, and only an active poll. */
  function ClosePoll(l: Ledger, poll: PollKey, signer: Pubkey): (r: Result<Ledger, Error>)
    ensures poll !in l.polls ==> r == Err(AccountNotFound)
    ensures poll in l.polls && l.polls[poll].creator != signer ==> r == Err(UnauthorizedCreator)
    ensures poll in l.polls && l.polls[poll].creator == signer && !l.polls[poll].isActive ==> r == Err(PollNotActive)
    ensures r.Ok? <==> poll in l.polls && l.polls[poll].creator == signer && l.polls[poll].isActive
    ensures r.Ok? ==>
      && r.value.receipts == l.receipts
      && r.value.polls.Keys == l.polls.Keys
      && (forall k :: k in l.polls && k != poll ==> r.value.polls[k] == l.polls[k])
      && var before, after := l.polls[poll], r.value.polls[poll];
         && SameIdentity(before, after) && !after.isActive
         && after.yesVotes == before.yesVotes && after.noVotes == before.noVotes
  {
    if poll !in l.polls then
      Err(AccountNotFound)
    else
      var p := l.polls[poll];
      if p.creator != signer then
        Err(UnauthorizedCreator)
      else if !p.isActive then
        Err(PollNotActive)
      else
        Ok(l.(polls := l.polls[poll := p.(isActive := false)]))
  }

  /** One instruction with its arguments and the accounts it names. */
  datatype Instruction =
    | CreatePollIx(id: U64, description: string, creator: Pubkey, now: I64)
    | VoteIx(poll: PollKey, voter: Pubkey, option: bool)
    | ClosePollIx(poll: PollKey, signer: Pubkey)

  function Execute(l: Ledger, ix: Instruction): Result<Ledger, Error>
  {
    match ix
    case CreatePollIx(id, description, creator, now) => CreatePoll(l, id, description, creator, now)
    case VoteIx(poll, voter, option) => Vote(l, poll, voter, option)
    case ClosePollIx(poll, signer) => ClosePoll(l, poll, signer)
  }

  /** The ledger after one transaction: a failed transaction changes nothing. */
  function Apply(l: Ledger, ix: Instruction): Ledger
  {
    match Execute(l, ix)
    case Ok(next) => next
    case Err(_) => l
  }

  /** The ledger after a sequence of transactions, applied in order. */
  function Run(l: Ledger, ixs: seq<Instruction>): Ledger
    decreases |ixs|
  {
    if ixs == [] then l else Run(Apply(l, ixs[0]), ixs[1..])
  }
}
