/**
 * `get_balances` (bot/utils/solana_funcs.py): the wallet's SOL balance
 * followed by one entry per SPL-Token account, read from the account data
 * laid out as the SPL Token program lays it out (mint in bytes 0..32, amount
 * as a little-endian 64-bit integer in bytes 64..72). Fetching from the RPC
 * node is an input: the lamports, and the token accounts or None when the
 * fetch raised.
 */
module SolanaFuncs {
  import opened Options
  import Utf8

  type Byte = Utf8.Byte

  function Pow256(n: nat): (p: nat)
    ensures p >= 1
  {
    if n == 0 then 1 else 256 * Pow256(n - 1)
  }

  /** `int.from_bytes(bs, "little")`. */
  function LittleEndian(bs: seq<Byte>): (n: nat)
    ensures n < Pow256(|bs|)
  {
    if bs == [] then 0 else bs[0] + 256 * LittleEndian(bs[1..])
  }

  /** `n.to_bytes(width, "little")`, the inverse for `n < 256^width`. */
  function ToLittleEndian(n: nat, width: nat): (bs: seq<Byte>)
    ensures |bs| == width
  {
    if width == 0 then [] else [n % 256] + ToLittleEndian(n / 256, width - 1)
  }

  /** Bytes written little-endian read back as the number. */
  lemma {:induction false} LittleEndianRoundTrip(n: nat, width: nat)
    requires n < Pow256(width)
    ensures LittleEndian(ToLittleEndian(n, width)) == n
  {
    if width > 0 {
      LittleEndianRoundTrip(n / 256, width - 1);
      var bs := ToLittleEndian(n, width);
      assert bs[1..] == ToLittleEndian(n / 256, width - 1);
    }
  }

  /** Reading bytes and writing them back gives the same bytes. */
  lemma {:induction false} ToLittleEndianRoundTrip(bs: seq<Byte>)
    ensures ToLittleEndian(LittleEndian(bs), |bs|) == bs
  {
    if bs != [] {
      var n := LittleEndian(bs);
      var rest := LittleEndian(bs[1..]);
      assert n % 256 == bs[0] && n / 256 == rest;
      ToLittleEndianRoundTrip(bs[1..]);
    }
  }

  /** Python's `b[lo:hi]`: the bounds are clipped to the data. */
  function Slice(b: seq<Byte>, lo: nat, hi: nat): (r: seq<Byte>)
    requires lo <= hi
    ensures |r| <= hi - lo
  {
    if |b| <= lo then [] else if |b| <= hi then b[lo..] else b[lo..hi]
  }

  /** A line of the list: the SOL balance in lamports, or a token amount and its mint. */
  datatype Entry = SolEntry(lamports: nat) | TokenEntry(amount: nat, mint: seq<Byte>)

  /**
   * One token account's entry, or None where the loop body raises:
   * `Pubkey.from_bytes` refuses a mint that is not 32 bytes long.
   */
  function DecodeAccount(data: seq<Byte>): (r: Option<Entry>)
    ensures r.Some? ==> r.value.TokenEntry? && |r.value.mint| == 32 && r.value.amount < Pow256(8)
  {
    if |data| < 32 then None
    else Some(TokenEntry(LittleEndian(Slice(data, 64, 72)), data[..32]))
  }

  /** An account laid out by the SPL Token program gives its mint and the amount stored in bytes 64..72. */
  lemma DecodeTokenAccount(mint: seq<Byte>, owner: seq<Byte>, amount: nat, tail: seq<Byte>)
    requires |mint| == 32 && |owner| == 32 && amount < Pow256(8)
    ensures DecodeAccount(mint + owner + ToLittleEndian(amount, 8) + tail) == Some(TokenEntry(amount, mint))
  {
    var data := mint + owner + ToLittleEndian(amount, 8) + tail;
    assert data[..32] == mint;
    assert Slice(data, 64, 72) == ToLittleEndian(amount, 8);
    LittleEndianRoundTrip(amount, 8);
  }

  /** How many accounts decode before the first that does not. */
  function Decodable(accounts: seq<seq<Byte>>): (k: nat)
    ensures k <= |accounts|
    ensures forall j :: 0 <= j < k ==> DecodeAccount(accounts[j]).Some?
    ensures k < |accounts| ==> DecodeAccount(accounts[k]).None?
  {
    if accounts == [] || DecodeAccount(accounts[0]).None? then 0
    else
      var k := Decodable(accounts[1..]);
      assert forall j :: 1 <= j < k + 1 ==> accounts[j] == accounts[1..][j - 1];
      k + 1
  }

  /**
   * `get_balances`: the SOL entry first, then one entry per token account in
   * order. An exception from the fetch or from an account ends the list
   * early: the entries appended so far are returned.
   */
  method GetBalances(lamports: nat, accounts: Option<seq<seq<Byte>>>) returns (entries: seq<Entry>)
    ensures |entries| >= 1 && entries[0] == SolEntry(lamports)
    ensures accounts.None? ==> entries == [SolEntry(lamports)]
    ensures accounts.Some? ==> |entries| == 1 + Decodable(accounts.value)
    ensures accounts.Some? ==> forall j :: 1 <= j < |entries| ==>
      DecodeAccount(accounts.value[j - 1]) == Some(entries[j])
    ensures forall j :: 1 <= j < |entries| ==> entries[j].TokenEntry? && entries[j].amount < Pow256(8)
  {
    entries := [SolEntry(lamports)];
    if accounts.None? {
      return;
    }
    var accs := accounts.value;
    var i := 0;
    while i < |accs|
      invariant 0 <= i <= Decodable(accs)
      invariant |entries| == 1 + i && entries[0] == SolEntry(lamports)
      invariant forall j :: 1 <= j < |entries| ==> DecodeAccount(accs[j - 1]) == Some(entries[j])
    {
      var entry := DecodeAccount(accs[i]);
      if entry.None? {
        break;
      }
      entries := entries + [entry.value];
      i := i + 1;
    }
  }
}
