/** What every reachable ledger satisfies, and the proof that each instruction
    keeps it: polls sit at the address derived from their own id, descriptions
    fit their accounts, every receipt names an existing poll and records its
    own address, and each poll's counters equal the number of yes and no
    receipts for it. */
module Invariants {
  import opened Addresses
  import opened Accounts
  import opened Program

  /** Addresses of the receipts for `poll`. */
  function ReceiptsOf(receipts: map<ReceiptKey, VoteAccount>, poll: PollKey): set<ReceiptKey>
  {
    set rk | rk in receipts && rk.poll == poll
  }

  /** Addresses of the yes receipts for `poll`. */
  function YesReceipts(receipts: map<ReceiptKey, VoteAccount>, poll: PollKey): set<ReceiptKey>
  {
    set rk | rk in receipts && rk.poll == poll && receipts[rk].option
  }

  /** Addresses of the no receipts for `poll`. */
  function NoReceipts(receipts: map<ReceiptKey, VoteAccount>, poll: PollKey): set<ReceiptKey>
  {
    set rk | rk in receipts && rk.poll == poll && !receipts[rk].option
  }

  /** The wallets that hold a receipt for `poll`. */
  function Voters(receipts: map<ReceiptKey, VoteAccount>, poll: PollKey): set<Pubkey>
  {
    set rk | rk in receipts && rk.poll == poll :: rk.voter
  }

  ghost predicate PollsAtDerivedAddresses(l: Ledger)
  {
    forall k :: k in l.polls ==> k == PollKeyOf(l.polls[k].id)
  }

  ghost predicate DescriptionsFit(l: Ledger)
  {
    forall k :: k in l.polls ==> FitsPollAccount(l.polls[k])
  }

  ghost predicate ReceiptsConsistent(l: Ledger)
  {
    forall rk :: rk in l.receipts ==>
      && rk.poll in l.polls
      && l.receipts[rk].poll == rk.poll
      && l.receipts[rk].voter == rk.voter
  }

  ghost predicate TalliesMatchReceipts(l: Ledger)
  {
    forall k :: k in l.polls ==>
      && l.polls[k].yesVotes == |YesReceipts(l.receipts, k)|
      && l.polls[k].noVotes == |NoReceipts(l.receipts, k)|
  }

  ghost predicate Valid(l: Ledger)
  {
    && PollsAtDerivedAddresses(l)
    && DescriptionsFit(l)
    && ReceiptsConsistent(l)
    && TalliesMatchReceipts(l)
  }

  lemma EmptyLedgerValid()
    ensures Valid(EmptyLedger)
  {
  }

  /** A poll nobody has voted on has no receipts of either kind. */
  lemma NoReceiptsForAbsentPoll(l: Ledger, k: PollKey)
    requires ReceiptsConsistent(l)
    requires k !in l.polls
    ensures YesReceipts(l.receipts, k) == {} && NoReceipts(l.receipts, k) == {}
  {
    forall rk | rk in l.receipts ensures rk.poll != k {
    }
  }

  /** Adding one fresh receipt adds it to the yes or the no set of its own
      poll, and leaves every other set alone. */
  lemma ReceiptSetsAfterInsert(receipts: map<ReceiptKey, VoteAccount>, rk: ReceiptKey, v: VoteAccount, k: PollKey)
    requires rk !in receipts
    ensures YesReceipts(receipts[rk := v], k) ==
      if rk.poll == k && v.option then YesReceipts(receipts, k) + {rk} else YesReceipts(receipts, k)
    ensures NoReceipts(receipts[rk := v], k) ==
      if rk.poll == k && !v.option then NoReceipts(receipts, k) + {rk} else NoReceipts(receipts, k)
  {
  }

  lemma CreatePreservesValid(l: Ledger, id: U64, description: string, creator: Pubkey, now: I64)
    requires Valid(l)
    ensures CreatePoll(l, id, description, creator, now).Ok? ==> Valid(CreatePoll(l, id, description, creator, now).value)
  {
    var r := CreatePoll(l, id, description, creator, now);
    if r.Ok? {
      NoReceiptsForAbsentPoll(l, PollKeyOf(id));
      assert ReceiptsConsistent(r.value);
    }
  }

  /** Counting one new receipt for `poll` in the counter its option names
      keeps every poll's counters equal to its receipt counts. */
  lemma CountingKeepsTallies(l: Ledger, l': Ledger, rk: ReceiptKey, v: VoteAccount)
    requires TalliesMatchReceipts(l)
    requires rk !in l.receipts && rk.poll in l.polls
    requires l'.receipts == l.receipts[rk := v] && v.poll == rk.poll
    requires l'.polls.Keys == l.polls.Keys
    requires forall k :: k in l.polls && k != rk.poll ==> l'.polls[k] == l.polls[k]
    requires l'.polls[rk.poll].yesVotes == l.polls[rk.poll].yesVotes + (if v.option then 1 else 0)
    requires l'.polls[rk.poll].noVotes == l.polls[rk.poll].noVotes + (if v.option then 0 else 1)
    ensures TalliesMatchReceipts(l')
  {
    forall k | k in l'.polls
      ensures l'.polls[k].yesVotes == |YesReceipts(l'.receipts, k)|
      ensures l'.polls[k].noVotes == |NoReceipts(l'.receipts, k)|
    {
      ReceiptSetsAfterInsert(l.receipts, rk, v, k);
    }
  }

  /** Writing one receipt at its own address, for a poll that exists, keeps
      the receipts consistent. */
  lemma WritingReceiptKeepsConsistency(l: Ledger, l': Ledger, rk: ReceiptKey, v: VoteAccount)
    requires ReceiptsConsistent(l)
    requires l'.receipts == l.receipts[rk := v]
    requires v.poll == rk.poll && v.voter == rk.voter
    requires l.polls.Keys <= l'.polls.Keys && rk.poll in l'.polls
    ensures ReceiptsConsistent(l')
  {
  }

  lemma VotePreservesValid(l: Ledger, poll: PollKey, voter: Pubkey, option: bool)
    requires Valid(l)
    ensures Vote(l, poll, voter, option).Ok? ==> Valid(Vote(l, poll, voter, option).value)
  {
    var r := Vote(l, poll, voter, option);
    if r.Ok? {
      var l' := r.value;
      var rk := ReceiptAddress(poll, voter);
      var v := VoteAccount(poll, voter, option);
      assert l'.receipts == l.receipts[rk := v];
      CountingKeepsTallies(l, l', rk, v);
      WritingReceiptKeepsConsistency(l, l', rk, v);
    }
  }

  lemma ClosePreservesValid(l: Ledger, poll: PollKey, signer: Pubkey)
    requires Valid(l)
    ensures ClosePoll(l, poll, signer).Ok? ==> Valid(ClosePoll(l, poll, signer).value)
  {
  }

  /** Every transaction, successful or not, keeps the ledger valid. */
  lemma ApplyPreservesValid(l: Ledger, ix: Instruction)
    requires Valid(l)
    ensures Valid(Apply(l, ix))
  {
    match ix
    case CreatePollIx(id, description, creator, now) => CreatePreservesValid(l, id, description, creator, now);
    case VoteIx(poll, voter, option) => VotePreservesValid(l, poll, voter, option);
    case ClosePollIx(poll, signer) => ClosePreservesValid(l, poll, signer);
  }

  /** Every ledger reachable from a valid one is valid. */
  lemma {:induction false} RunPreservesValid(l: Ledger, ixs: seq<Instruction>)
    requires Valid(l)
    ensures Valid(Run(l, ixs))
    decreases |ixs|
  {
    if ixs != [] {
      ApplyPreservesValid(l, ixs[0]);
      RunPreservesValid(Apply(l, ixs[0]), ixs[1..]);
    }
  }

  /** In a valid ledger a poll's total vote count is the number of receipts
      for it. */
  lemma TotalVotesEqualReceipts(l: Ledger, k: PollKey)
    requires Valid(l)
    requires k in l.polls
    ensures l.polls[k].yesVotes + l.polls[k].noVotes == |ReceiptsOf(l.receipts, k)|
  {
    var yes, no := YesReceipts(l.receipts, k), NoReceipts(l.receipts, k);
    assert ReceiptsOf(l.receipts, k) == yes + no;
    assert yes !! no;
  }

  /** The receipts of one poll correspond one-to-one with the wallets that
      voted on it, so each wallet is counted once. */
  lemma VotersMatchReceipts(receipts: map<ReceiptKey, VoteAccount>, k: PollKey)
    ensures |Voters(receipts, k)| == |ReceiptsOf(receipts, k)|
  {
    var s := ReceiptsOf(receipts, k);
    assert Voters(receipts, k) == set rk | rk in s :: rk.voter;
    VoterImageSize(s, k);
  }

  lemma {:induction false} VoterImageSize(s: set<ReceiptKey>, k: PollKey)
    requires forall rk :: rk in s ==> rk.poll == k
    ensures |set rk | rk in s :: rk.voter| == |s|
    decreases |s|
  {
    if s != {} {
      var x :| x in s;
      var rest := s - {x};
      VoterImageSize(rest, k);
      var image := set rk | rk in rest :: rk.voter;
      assert (set rk | rk in s :: rk.voter) == image + {x.voter};
      forall y | y in rest ensures y.voter != x.voter {
        assert y != x;
      }
      assert x.voter !in image;
    }
  }

  /** In a valid ledger a poll's total vote count is the number of distinct
      wallets that voted on it. */
  lemma TotalVotesEqualVoters(l: Ledger, k: PollKey)
    requires Valid(l)
    requires k in l.polls
    ensures l.polls[k].yesVotes + l.polls[k].noVotes == |Voters(l.receipts, k)|
  {
    TotalVotesEqualReceipts(l, k);
    VotersMatchReceipts(l.receipts, k);
  }
}
