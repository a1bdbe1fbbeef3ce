/** The integration-test scenarios of the program, stated about the model: the
    happy path on poll 1 from an empty ledger, and the failure cases on a
    fresh poll 2. The wallets are freshly generated keypairs in the tests, so
    here they are arbitrary distinct keys. */
module Scenarios {
  import opened Addresses
  import opened Accounts
  import opened Program

  const DarkMode: string := "Should we implement dark mode?"

  /** The seeds of poll 1 are `b"poll"` followed by 1 as eight little-endian bytes. */
  lemma PollOneSeeds()
    ensures PollKeyOf(1).seeds == [[0x70, 0x6f, 0x6c, 0x6c], [1, 0, 0, 0, 0, 0, 0, 0]]
  {
    assert LeBytes(0, 0) == [];
    assert LeBytes(0, 1) == [0] + LeBytes(0, 0);
    assert LeBytes(0, 2) == [0] + LeBytes(0, 1);
    assert LeBytes(0, 3) == [0] + LeBytes(0, 2);
    assert LeBytes(0, 4) == [0] + LeBytes(0, 3);
    assert LeBytes(0, 5) == [0] + LeBytes(0, 4);
    assert LeBytes(0, 6) == [0] + LeBytes(0, 5);
    assert LeBytes(0, 7) == [0] + LeBytes(0, 6);
    assert LeBytes(0, 7) == [0, 0, 0, 0, 0, 0, 0];
    assert LeBytes(1, 8) == [1] + LeBytes(0, 7);
    assert LeBytes(1, 8) == [1, 0, 0, 0, 0, 0, 0, 0];
    assert PollKeyOf(1).seeds == [PollSeed, LeBytes(1, 8)];
  }

  /** The ledgers of the happy path, one per transaction. */
  function AfterCreate(creator: Pubkey, now: I64): Ledger
  {
    Ledger(map[PollKeyOf(1) := Poll(1, DarkMode, creator, 0, 0, now, true)], map[])
  }

  function AfterYes(creator: Pubkey, voter1: Pubkey, now: I64): Ledger
  {
    var poll := PollKeyOf(1);
    Ledger(map[poll := Poll(1, DarkMode, creator, 1, 0, now, true)],
           map[ReceiptAddress(poll, voter1) := VoteAccount(poll, voter1, true)])
  }

  function AfterNo(creator: Pubkey, voter1: Pubkey, voter2: Pubkey, now: I64): Ledger
  {
    var poll := PollKeyOf(1);
    Ledger(map[poll := Poll(1, DarkMode, creator, 1, 1, now, true)],
           map[ReceiptAddress(poll, voter1) := VoteAccount(poll, voter1, true),
               ReceiptAddress(poll, voter2) := VoteAccount(poll, voter2, false)])
  }

  function AfterClose(creator: Pubkey, voter1: Pubkey, voter2: Pubkey, now: I64): Ledger
  {
    var poll := PollKeyOf(1);
    Ledger(map[poll := Poll(1, DarkMode, creator, 1, 1, now, false)], AfterNo(creator, voter1, voter2, now).receipts)
  }

  /** Creating poll 1 stores a poll with no votes that is active. */
  lemma CreateStep(creator: Pubkey, now: I64)
    ensures CreatePoll(EmptyLedger, 1, DarkMode, creator, now) == Ok(AfterCreate(creator, now))
  {
    DescriptionFitsByLength(Poll(1, DarkMode, creator, 0, 0, now, true));
  }

  /** A yes vote writes the receipt and counts one yes. */
  lemma YesStep(creator: Pubkey, voter1: Pubkey, now: I64)
    ensures Vote(AfterCreate(creator, now), PollKeyOf(1), voter1, true) == Ok(AfterYes(creator, voter1, now))
  {
    var poll, l := PollKeyOf(1), AfterCreate(creator, now);
    var p := Poll(1, DarkMode, creator, 1, 0, now, true);
    var v := VoteAccount(poll, voter1, true);
    assert l.polls[poll := p] == map[poll := p];
    assert l.receipts[ReceiptAddress(poll, voter1) := v] == map[ReceiptAddress(poll, voter1) := v];
  }

  /** A no vote by a second wallet adds its receipt and counts one no. */
  lemma NoStep(creator: Pubkey, voter1: Pubkey, voter2: Pubkey, now: I64)
    requires voter1 != voter2
    ensures Vote(AfterYes(creator, voter1, now), PollKeyOf(1), voter2, false) == Ok(AfterNo(creator, voter1, voter2, now))
  {
    var poll, l := PollKeyOf(1), AfterYes(creator, voter1, now);
    var p := Poll(1, DarkMode, creator, 1, 1, now, true);
    assert l.polls[poll := p] == map[poll := p];
  }

  /** The creator closes poll 1: the counts stay and the flag drops. */
  lemma CloseStep(creator: Pubkey, voter1: Pubkey, voter2: Pubkey, now: I64)
    ensures ClosePoll(AfterNo(creator, voter1, voter2, now), PollKeyOf(1), creator) == Ok(AfterClose(creator, voter1, voter2, now))
  {
    var poll, l := PollKeyOf(1), AfterNo(creator, voter1, voter2, now);
    var p := Poll(1, DarkMode, creator, 1, 1, now, false);
    assert l.polls[poll := p] == map[poll := p];
  }

  /** A wallet that has not voted cannot vote on the closed poll. */
  lemma VoteOnClosedStep(creator: Pubkey, voter1: Pubkey, voter2: Pubkey, voter3: Pubkey, now: I64, option: bool)
    requires voter3 != voter1 && voter3 != voter2
    ensures Vote(AfterClose(creator, voter1, voter2, now), PollKeyOf(1), voter3, option) == Err(PollNotActive)
  {
  }

  /** A second create at id 2 fails, and poll 2 keeps the first description. */
  lemma DuplicateIdStep(l: Ledger, creator: Pubkey, now: I64)
    requires PollKeyOf(2) !in l.polls
    ensures CreatePoll(l, 2, "Another poll", creator, now).Ok?
    ensures var created := CreatePoll(l, 2, "Another poll", creator, now).value;
      && CreatePoll(created, 2, "Duplicate poll", creator, now) == Err(AlreadyInUse)
      && created.polls[PollKeyOf(2)].description == "Another poll"
  {
    DescriptionFitsByLength(Poll(2, "Another poll", creator, 0, 0, now, true));
  }

  /** On a fresh active poll, a wallet's second vote fails, with the other option. */
  lemma DoubleVoteStep(l: Ledger, voter1: Pubkey)
    requires PollKeyOf(2) in l.polls && l.polls[PollKeyOf(2)].isActive
    requires ReceiptAddress(PollKeyOf(2), voter1) !in l.receipts
    ensures Vote(l, PollKeyOf(2), voter1, true).Ok?
    ensures Vote(Vote(l, PollKeyOf(2), voter1, true).value, PollKeyOf(2), voter1, false) == Err(AlreadyInUse)
  {
  }

  /** A close by a wallet other than the creator fails and leaves the poll active. */
  lemma OutsiderCloseStep(l: Ledger, outsider: Pubkey)
    requires PollKeyOf(2) in l.polls && l.polls[PollKeyOf(2)].isActive
    requires l.polls[PollKeyOf(2)].creator != outsider
    ensures ClosePoll(l, PollKeyOf(2), outsider) == Err(UnauthorizedCreator)
    ensures Apply(l, ClosePollIx(PollKeyOf(2), outsider)).polls[PollKeyOf(2)].isActive
  {
  }
}
