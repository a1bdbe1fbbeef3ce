/** Fixed-width integers, public keys and the program-derived addresses of the
    poll program.

    On Solana a program-derived address is a SHA-256 based function of a list
    of seed byte strings and the program id. The model replaces the hash by a
    free constructor over the seeds, so two derived addresses are equal exactly
    when their seeds are: collision resistance is assumed, not proved. What is
    proved is that the seeds themselves determine the poll id, because the id
    enters them through an 8-byte little-endian encoding that can be decoded. */
module Addresses {

  datatype Option<T> = None | Some(value: T)

  type Byte = b: int | 0 <= b < 0x100

  /** Rust `u64`. */
  type U64 = x: int | 0 <= x < 0x1_0000_0000_0000_0000

  /** Rust `i64`, the type of `Clock::unix_timestamp`. */
  type I64 = x: int | -0x8000_0000_0000_0000 <= x < 0x8000_0000_0000_0000

  /** An ed25519 public key: 32 bytes. */
  type Pubkey = s: seq<Byte> | |s| == 32 witness seq(32, _ => 0)

  /** 256 to the power n: one more than the largest value of an n-byte unsigned integer. */
  function Pow256(n: nat): (r: nat)
    ensures r > 0
  {
    if n == 0 then 1 else 0x100 * Pow256(n - 1)
  }

  lemma Pow256Of8()
    ensures Pow256(8) == 0x1_0000_0000_0000_0000
  {
    assert Pow256(4) == 0x1_0000_0000;
  }

  /** The n low-order bytes of x, least significant first, as Rust's
      `to_le_bytes` and the client's `toArrayLike(Buffer, "le", n)` lay them out. */
  function LeBytes(x: nat, n: nat): (r: seq<Byte>)
    ensures |r| == n
  {
    if n == 0 then [] else [x % 0x100] + LeBytes(x / 0x100, n - 1)
  }

  /** The unsigned integer whose little-endian bytes are s. */
  function FromLeBytes(s: seq<Byte>): (r: nat)
    ensures r < Pow256(|s|)
  {
    if s == [] then 0 else s[0] + 0x100 * FromLeBytes(s[1..])
  }

  /** Decoding undoes encoding for every value that fits in n bytes. */
  lemma {:induction false} LeBytesRoundTrip(x: nat, n: nat)
    requires x < Pow256(n)
    ensures FromLeBytes(LeBytes(x, n)) == x
  {
    if n > 0 {
      var s := LeBytes(x, n);
      assert s[1..] == LeBytes(x / 0x100, n - 1);
      LeBytesRoundTrip(x / 0x100, n - 1);
    }
  }

  /** Encoding undoes decoding: every byte string is the encoding of its value,
      so the encoding is a bijection between n-byte integers and n-byte strings. */
  lemma {:induction false} FromLeBytesRoundTrip(s: seq<Byte>)
    ensures LeBytes(FromLeBytes(s), |s|) == s
  {
    if s != [] {
      var v := FromLeBytes(s[1..]);
      assert (s[0] + 0x100 * v) % 0x100 == s[0];
      assert (s[0] + 0x100 * v) / 0x100 == v;
      FromLeBytesRoundTrip(s[1..]);
      assert s == [s[0]] + s[1..];
    }
  }

  /** The seed prefix `b"poll"`. */
  const PollSeed: seq<Byte> := [0x70, 0x6f, 0x6c, 0x6c]

  /** Address of a poll account: the program-derived address of its seeds. */
  datatype PollKey = PollAddress(seeds: seq<seq<Byte>>)

  /** Address of the receipt for one voter on one poll: the program-derived
      address of the seeds `[b"vote", poll, voter]`. */
  datatype ReceiptKey = ReceiptAddress(poll: PollKey, voter: Pubkey)

  /** The address `create_poll` allocates for a poll id:
      seeds `[b"poll", id.to_le_bytes()]`. */
  function PollKeyOf(id: U64): (k: PollKey)
    ensures |k.seeds| == 2 && k.seeds[0] == PollSeed && |k.seeds[1]| == 8
  {
    PollAddress([PollSeed, LeBytes(id, 8)])
  }

  /** The id a poll address was derived from, if it is a poll address at all. */
  function PollIdOf(k: PollKey): (r: Option<U64>)
  {
    if |k.seeds| == 2 && k.seeds[0] == PollSeed && |k.seeds[1]| == 8 then
      Pow256Of8();
      Some(FromLeBytes(k.seeds[1]))
    else
      None
  }

  /** Poll addresses and ids are in one-to-one correspondence: the id can be
      recovered from the address, and every well-shaped poll address is the
      address of the id recovered from it. */
  lemma PollKeyRoundTrip(id: U64, k: PollKey)
    ensures PollIdOf(PollKeyOf(id)) == Some(id)
    ensures PollIdOf(k).Some? ==> PollKeyOf(PollIdOf(k).value) == k
  {
    Pow256Of8();
    LeBytesRoundTrip(id, 8);
    if PollIdOf(k).Some? {
      FromLeBytesRoundTrip(k.seeds[1]);
      assert k.seeds == [PollSeed, k.seeds[1]];
    }
  }

  /** Distinct poll ids never share an address, so `init` on one id can never
      collide with the account of another. */
  lemma PollKeyOfInjective(a: U64, b: U64)
    ensures PollKeyOf(a) == PollKeyOf(b) <==> a == b
  {
    PollKeyRoundTrip(a, PollKeyOf(a));
    PollKeyRoundTrip(b, PollKeyOf(b));
  }
}
