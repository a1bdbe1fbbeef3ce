/** How polls and receipts evolve across transactions: what never changes, what
    only grows, which accounts each instruction can touch, the outcomes of
    repeated instructions, and the order of the checks inside one. */
module Lifecycle {
  import opened Addresses
  import opened Accounts
  import opened Program

  /** How one poll may change between two ledgers: its identity never does,
      counters never decrease, a closed poll never reopens and never changes
      again at all. */
  predicate PollEvolves(p: Poll, q: Poll)
  {
    && SameIdentity(p, q)
    && p.yesVotes <= q.yesVotes
    && p.noVotes <= q.noVotes
    && (q.isActive ==> p.isActive)
    && (!p.isActive ==> q == p)
  }

  /** How a ledger may change: no poll or receipt disappears, every poll
      evolves as above, and receipts never change. */
  ghost predicate Evolves(l: Ledger, l': Ledger)
  {
    && (forall k :: k in l.polls ==> k in l'.polls && PollEvolves(l.polls[k], l'.polls[k]))
    && (forall rk :: rk in l.receipts ==> rk in l'.receipts && l'.receipts[rk] == l.receipts[rk])
  }

  lemma EvolvesTransitive(l0: Ledger, l1: Ledger, l2: Ledger)
    requires Evolves(l0, l1) && Evolves(l1, l2)
    ensures Evolves(l0, l2)
  {
  }

  lemma ApplyEvolves(l: Ledger, ix: Instruction)
    ensures Evolves(l, Apply(l, ix))
  {
  }

  /** Over any sequence of transactions, identities are preserved, counters
      only grow, `is_active` only goes from true to false, closed polls are
      frozen and receipts are permanent. */
  lemma {:induction false} RunEvolves(l: Ledger, ixs: seq<Instruction>)
    ensures Evolves(l, Run(l, ixs))
    decreases |ixs|
  {
    if ixs != [] {
      var next := Apply(l, ixs[0]);
      ApplyEvolves(l, ixs[0]);
      RunEvolves(next, ixs[1..]);
      EvolvesTransitive(l, next, Run(next, ixs[1..]));
    }
  }

  /** The poll an instruction names. */
  function TargetPoll(ix: Instruction): PollKey
  {
    match ix
    case CreatePollIx(id, _, _, _) => PollKeyOf(id)
    case VoteIx(poll, _, _) => poll
    case ClosePollIx(poll, _) => poll
  }

  /** The receipts an instruction may create: one for a vote, none otherwise. */
  function TargetReceipts(ix: Instruction): set<ReceiptKey>
  {
    match ix
    case VoteIx(poll, voter, _) => {ReceiptAddress(poll, voter)}
    case _ => {}
  }

  /** Two maps agree everywhere except perhaps at the keys in `touched`. */
  ghost predicate AgreeOutside<K(!new), V>(m: map<K, V>, m': map<K, V>, touched: set<K>)
  {
    forall k :: k !in touched ==> (k in m <==> k in m') && (k in m ==> m[k] == m'[k])
  }

  /** An instruction touches only the poll it names and at most the one
      receipt it derives. */
  lemma ApplyTouchesOnlyTargets(l: Ledger, ix: Instruction)
    ensures AgreeOutside(l.polls, Apply(l, ix).polls, {TargetPoll(ix)})
    ensures AgreeOutside(l.receipts, Apply(l, ix).receipts, TargetReceipts(ix))
    ensures |TargetReceipts(ix)| <= 1
  {
  }

  /** Creating a poll at an id already taken fails, whatever the description,
      creator or time, and the existing poll, description included, stays as
      it was. */
  lemma DuplicateCreateRejected(l: Ledger, id: U64, description: string, creator: Pubkey, now: I64,
                                description2: string, creator2: Pubkey, now2: I64)
    requires CreatePoll(l, id, description, creator, now).Ok?
    ensures var l' := CreatePoll(l, id, description, creator, now).value;
      && CreatePoll(l', id, description2, creator2, now2) == Err(AlreadyInUse)
      && Apply(l', CreatePollIx(id, description2, creator2, now2)).polls[PollKeyOf(id)].description == description
  {
  }

  /** After a successful vote, a second vote by the same wallet on the same
      poll fails with either option and changes nothing. */
  lemma DuplicateVoteRejected(l: Ledger, poll: PollKey, voter: Pubkey, option: bool, option2: bool)
    requires Vote(l, poll, voter, option).Ok?
    ensures var l' := Vote(l, poll, voter, option).value;
      && Vote(l', poll, voter, option2) == Err(AlreadyInUse)
      && Apply(l', VoteIx(poll, voter, option2)) == l'
  {
  }

  /** The receipt check comes before the activity check: a wallet that voted
      before the poll closed gets `AlreadyInUse`, not `PollNotActive`. */
  lemma ReceiptCheckPrecedesActiveCheck(l: Ledger, poll: PollKey, voter: Pubkey, option: bool, signer: Pubkey, option2: bool)
    requires Vote(l, poll, voter, option).Ok?
    requires ClosePoll(Vote(l, poll, voter, option).value, poll, signer).Ok?
    ensures var closed := ClosePoll(Vote(l, poll, voter, option).value, poll, signer).value;
      && !closed.polls[poll].isActive
      && Vote(closed, poll, voter, option2) == Err(AlreadyInUse)
  {
  }

  /** After a successful close no vote on the poll can succeed: a new wallet
      gets `PollNotActive`, and nothing changes. */
  lemma VoteAfterCloseRejected(l: Ledger, poll: PollKey, signer: Pubkey, voter: Pubkey, option: bool)
    requires ClosePoll(l, poll, signer).Ok?
    ensures var l' := ClosePoll(l, poll, signer).value;
      && Vote(l', poll, voter, option).Err?
      && (ReceiptAddress(poll, voter) !in l.receipts ==> Vote(l', poll, voter, option) == Err(PollNotActive))
      && Apply(l', VoteIx(poll, voter, option)) == l'
  {
  }

  /** Closing is not idempotent: closing again fails with `PollNotActive`. */
  lemma CloseNotIdempotent(l: Ledger, poll: PollKey, signer: Pubkey)
    requires ClosePoll(l, poll, signer).Ok?
    ensures ClosePoll(ClosePoll(l, poll, signer).value, poll, signer) == Err(PollNotActive)
  {
  }

  /** The creator check comes before the activity check: a non-creator gets
      `UnauthorizedCreator` whether or not the poll is still active. */
  lemma CreatorCheckPrecedesActiveCheck(l: Ledger, poll: PollKey, signer: Pubkey)
    requires poll in l.polls && l.polls[poll].creator != signer
    ensures ClosePoll(l, poll, signer) == Err(UnauthorizedCreator)
    ensures Apply(l, ClosePollIx(poll, signer)).polls[poll].isActive == l.polls[poll].isActive
  {
  }

  /** Once closed, a poll stays closed and unchanged through any later
      sequence of transactions. */
  lemma ClosedPollFrozen(l: Ledger, ixs: seq<Instruction>, poll: PollKey)
    requires poll in l.polls && !l.polls[poll].isActive
    ensures poll in Run(l, ixs).polls && Run(l, ixs).polls[poll] == l.polls[poll]
  {
    RunEvolves(l, ixs);
  }

  /** A receipt, once written, is never altered or removed. */
  lemma ReceiptsPermanent(l: Ledger, ixs: seq<Instruction>, rk: ReceiptKey)
    requires rk in l.receipts
    ensures rk in Run(l, ixs).receipts && Run(l, ixs).receipts[rk] == l.receipts[rk]
  {
    RunEvolves(l, ixs);
  }
}
