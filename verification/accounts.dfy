/** The two account kinds of the poll program and the space their data takes.

    A poll account is allocated once, by `init`, with a fixed number of bytes;
    the description is a Borsh string (a 4-byte length followed by its UTF-8
    bytes), so only descriptions of at most 200 UTF-8 bytes fit. */
module Accounts {
  import opened Addresses

  /** The poll account. The vote counters are `u64` in the program; here they
      are unbounded (see the README). */
  datatype Poll = Poll(
    id: U64,
    description: string,
    creator: Pubkey,
    yesVotes: nat,
    noVotes: nat,
    createdAt: I64,
    isActive: bool)

  /** The vote receipt: the account whose existence records that `voter` has
      voted on `poll`; `option` is true for yes and false for no. */
  datatype VoteAccount = VoteAccount(poll: PollKey, voter: Pubkey, option: bool)

  /** The fields no instruction may change once the poll exists. */
  predicate SameIdentity(p: Poll, q: Poll)
  {
    && p.id == q.id
    && p.description == q.description
    && p.creator == q.creator
    && p.createdAt == q.createdAt
  }

  /** Number of bytes UTF-8 uses for one Unicode scalar value. */
  function Utf8Width(c: char): (w: nat)
    ensures 1 <= w <= 4
    ensures w == 1 <==> c as int < 0x80
  {
    if c as int < 0x80 then 1
    else if c as int < 0x800 then 2
    else if c as int < 0x1_0000 then 3
    else 4
  }

  /** Number of bytes of the UTF-8 encoding of s. */
  function Utf8Length(s: string): nat
  {
    if s == [] then 0 else Utf8Width(s[0]) + Utf8Length(s[1..])
  }

  /** A string takes between one and four bytes per character. */
  lemma {:induction false} Utf8LengthBounds(s: string)
    ensures |s| <= Utf8Length(s) <= 4 * |s|
  {
    if s != [] {
      Utf8LengthBounds(s[1..]);
    }
  }

  /** The bound on a description, in UTF-8 bytes. */
  const MaxDescriptionBytes: nat := 200

  /** The space `init` allocates for a poll: discriminator, id, string length,
      description allowance, creator, two counters, timestamp and flag. */
  const PollSpace: nat := 8 + 8 + 4 + MaxDescriptionBytes + 32 + 8 + 8 + 8 + 1

  /** Bytes the serialised poll occupies, discriminator included. */
  function PollDataLength(p: Poll): nat
  {
    8 + 8 + (4 + Utf8Length(p.description)) + 32 + 8 + 8 + 8 + 1
  }

  /** Whether the poll can be written back into the space allocated for it;
      whatever the counters and flags, this depends only on the description. */
  function FitsPollAccount(p: Poll): (fits: bool)
    ensures fits <==> Utf8Length(p.description) <= MaxDescriptionBytes
  {
    PollDataLength(p) <= PollSpace
  }

  /** Descriptions of at most 50 characters always fit; descriptions of more
      than 200 characters never do. */
  lemma DescriptionFitsByLength(p: Poll)
    ensures |p.description| <= 50 ==> FitsPollAccount(p)
    ensures |p.description| > MaxDescriptionBytes ==> !FitsPollAccount(p)
  {
    Utf8LengthBounds(p.description);
  }
}
