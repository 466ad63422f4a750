/**
 * The database tables the repositories read and write (users, chat
 * messages, wallets, memory and knowledge vector stores, payments, token
 * prices), held in memory. A row is a value; the tables are fields of one
 * `Database` object that the repository methods update in place. Row ids
 * are handed out by counters, as an auto-incrementing primary key would.
 */
module Tables {
  import opened Options

  /** A `User` row: the Telegram id is the primary key. */
  datatype User = User(telegramId: int, balance: real, language: Option<string>)

  /** A `ChatMessage` row. */
  datatype ChatMessage = ChatMessage(id: nat, userId: int, role: string, content: string)

  /** A `Wallet` row: the private key as stored, base64 text. */
  datatype Wallet = Wallet(userId: int, encryptedKey: string)

  /** A `MemoryVector` row: a user's vector store. */
  datatype MemoryVector = MemoryVector(userId: int, vectorId: string)

  /**
   * A `Payment` row. `status` is None until a status is written (the
   * column's default is not part of this model); `createdAt` is in seconds.
   */
  datatype Payment = Payment(id: nat, userId: int, amountUsd: int, cryptoAmount: string,
                             currency: string, suffix: string, status: Option<string>, createdAt: int)

  /** A `TokenPrice` row. */
  datatype TokenPrice = TokenPrice(token: string, priceUsd: real)

  /** Ids strictly increase along the table, as rows are added with ever larger keys. */
  predicate MessagesAscending(ms: seq<ChatMessage>)
  {
    forall i, j :: 0 <= i < j < |ms| ==> ms[i].id < ms[j].id
  }

  predicate PaymentsAscending(ps: seq<Payment>)
  {
    forall i, j :: 0 <= i < j < |ps| ==> ps[i].id < ps[j].id
  }

  /** No user has two wallet rows. */
  predicate WalletsUnique(ws: seq<Wallet>)
  {
    forall i, j :: 0 <= i < j < |ws| ==> ws[i].userId != ws[j].userId
  }

  /** There is at most one 'sol' price row. */
  predicate AtMostOneSol(ts: seq<TokenPrice>)
  {
    forall i, j :: 0 <= i < j < |ts| ==> ts[i].token != "sol" || ts[j].token != "sol"
  }

  /** `select(ChatMessage).where(user_id == userId)` in table order. */
  function MessagesOf(ms: seq<ChatMessage>, userId: int): seq<ChatMessage>
  {
    if ms == [] then []
    else
      var last := ms[|ms| - 1];
      MessagesOf(ms[..|ms| - 1], userId) + (if last.userId == userId then [last] else [])
  }

  /** `delete(ChatMessage).where(user_id == userId)`: the other rows, in table order. */
  function DropMessagesOf(ms: seq<ChatMessage>, userId: int): seq<ChatMessage>
  {
    if ms == [] then []
    else
      var last := ms[|ms| - 1];
      DropMessagesOf(ms[..|ms| - 1], userId) + (if last.userId != userId then [last] else [])
  }

  /** Appending a row with a larger id keeps ids ascending and extends only its own user's history. */
  lemma AppendMessage(ms: seq<ChatMessage>, m: ChatMessage)
    requires MessagesAscending(ms) && forall x :: x in ms ==> x.id < m.id
    ensures MessagesAscending(ms + [m])
    ensures forall u :: MessagesOf(ms + [m], u) == MessagesOf(ms, u) + (if m.userId == u then [m] else [])
  {
    var ms' := ms + [m];
    assert ms'[..|ms'| - 1] == ms;
    forall i, j | 0 <= i < j < |ms'| ensures ms'[i].id < ms'[j].id {
      if j == |ms| { assert ms'[i] in ms; }
      else { assert ms'[i] == ms[i] && ms'[j] == ms[j]; }
    }
  }

  /** A user's messages are exactly the rows that carry the user's id. */
  lemma {:induction false} MessagesOfExactly(ms: seq<ChatMessage>, userId: int)
    ensures forall m :: m in MessagesOf(ms, userId) <==> m in ms && m.userId == userId
    decreases |ms|
  {
    if ms != [] {
      var init := ms[..|ms| - 1];
      MessagesOfExactly(init, userId);
      assert ms == init + [ms[|ms| - 1]];
    }
  }

  /** Deleting a user's messages keeps exactly the rows of the other users. */
  lemma {:induction false} DropMessagesOfExactly(ms: seq<ChatMessage>, userId: int)
    ensures forall m :: m in DropMessagesOf(ms, userId) <==> m in ms && m.userId != userId
    decreases |ms|
  {
    if ms != [] {
      var init := ms[..|ms| - 1];
      DropMessagesOfExactly(init, userId);
      assert ms == init + [ms[|ms| - 1]];
    }
  }

  /** Selecting from a table whose ids ascend gives messages whose ids ascend. */
  lemma {:induction false} MessagesOfAscending(ms: seq<ChatMessage>, userId: int)
    requires MessagesAscending(ms)
    ensures MessagesAscending(MessagesOf(ms, userId))
    decreases |ms|
  {
    if ms != [] {
      var init, last := ms[..|ms| - 1], ms[|ms| - 1];
      MessagesOfAscending(init, userId);
      if last.userId == userId {
        var r := MessagesOf(init, userId);
        MessagesOfExactly(init, userId);
        forall i | 0 <= i < |r| ensures r[i].id < last.id {
          assert r[i] in init;
          var k :| 0 <= k < |init| && init[k] == r[i];
        }
      }
    }
  }

  /** Deleting rows keeps the remaining ids ascending. */
  lemma {:induction false} DropMessagesOfAscending(ms: seq<ChatMessage>, userId: int)
    requires MessagesAscending(ms)
    ensures MessagesAscending(DropMessagesOf(ms, userId))
    decreases |ms|
  {
    if ms != [] {
      var init, last := ms[..|ms| - 1], ms[|ms| - 1];
      DropMessagesOfAscending(init, userId);
      if last.userId != userId {
        var r := DropMessagesOf(init, userId);
        DropMessagesOfExactly(init, userId);
        forall i | 0 <= i < |r| ensures r[i].id < last.id {
          assert r[i] in init;
          var k :| 0 <= k < |init| && init[k] == r[i];
        }
      }
    }
  }

  /** `delete(Wallet).where(user_id == userId)`. */
  function DropWallets(ws: seq<Wallet>, userId: int): seq<Wallet>
  {
    if ws == [] then []
    else
      var last := ws[|ws| - 1];
      DropWallets(ws[..|ws| - 1], userId) + (if last.userId != userId then [last] else [])
  }

  /** `select(Wallet.encrypted_private_key).where(user_id == userId)` read as a scalar: the first such row, if any. */
  function WalletOf(ws: seq<Wallet>, userId: int): (r: Option<string>)
  {
    if ws == [] then None
    else if ws[0].userId == userId then Some(ws[0].encryptedKey)
    else WalletOf(ws[1..], userId)
  }

  /** Deleting a user's wallets keeps exactly the other users' rows, in order and still one per user. */
  lemma {:induction false} DropWalletsExactly(ws: seq<Wallet>, userId: int)
    requires WalletsUnique(ws)
    ensures var r := DropWallets(ws, userId);
      && (forall w :: w in r <==> w in ws && w.userId != userId)
      && WalletsUnique(r)
    decreases |ws|
  {
    if ws != [] {
      var init, last := ws[..|ws| - 1], ws[|ws| - 1];
      DropWalletsExactly(init, userId);
      assert ws == init + [last];
      var r := DropWallets(init, userId);
      if last.userId != userId {
        forall i, j | 0 <= i < j < |r + [last]| ensures (r + [last])[i].userId != (r + [last])[j].userId {
          if j == |r| {
            assert r[i] in init;
            var k :| 0 <= k < |init| && init[k] == r[i];
            assert ws[k] == r[i];
          }
        }
      }
    }
  }

  /** The wallet found for a user is the key of a row of that user, and there is one whenever such a row exists. */
  lemma {:induction false} WalletOfExactly(ws: seq<Wallet>, userId: int)
    ensures WalletOf(ws, userId).Some? <==> exists w :: w in ws && w.userId == userId
    ensures WalletOf(ws, userId).Some? ==> Wallet(userId, WalletOf(ws, userId).value) in ws
    decreases |ws|
  {
    if ws != [] {
      WalletOfExactly(ws[1..], userId);
      assert forall w :: w in ws <==> w == ws[0] || w in ws[1..];
    }
  }

  /** With one wallet per user, a user's row is the one found for that user. */
  lemma WalletOfUnique(ws: seq<Wallet>, w: Wallet)
    requires WalletsUnique(ws) && w in ws
    ensures WalletOf(ws, w.userId) == Some(w.encryptedKey)
  {
    var k :| 0 <= k < |ws| && ws[k] == w;
    WalletOfAt(ws, k);
  }

  lemma {:induction false} WalletOfAt(ws: seq<Wallet>, k: nat)
    requires WalletsUnique(ws) && k < |ws|
    ensures WalletOf(ws, ws[k].userId) == Some(ws[k].encryptedKey)
    decreases k
  {
    if k > 0 {
      var tail := ws[1..];
      assert ws[0].userId != ws[k].userId;
      assert WalletsUnique(tail) by {
        forall i, j | 0 <= i < j < |tail| ensures tail[i].userId != tail[j].userId {
          assert tail[i] == ws[i + 1] && tail[j] == ws[j + 1];
        }
      }
      assert tail[k - 1] == ws[k];
      WalletOfAt(tail, k - 1);
    }
  }

  /** `select(Payment).where(id == id)` read as a scalar. */
  function PaymentWithId(ps: seq<Payment>, id: int): (r: Option<Payment>)
    ensures r.Some? ==> r.value in ps && r.value.id == id
    ensures r.None? ==> forall p :: p in ps ==> p.id != id
  {
    if ps == [] then None
    else if ps[0].id == id then Some(ps[0])
    else PaymentWithId(ps[1..], id)
  }

  /**
   * `select(Payment).where(random_suffix == suffix).order_by(desc(created_at)).limit(1)`:
   * a most recently created payment with that suffix.
   */
  function LatestWithSuffix(ps: seq<Payment>, suffix: string): (r: Option<Payment>)
    ensures r.Some? ==> r.value in ps && r.value.suffix == suffix
  {
    if ps == [] then None
    else
      var rest, last := LatestWithSuffix(ps[..|ps| - 1], suffix), ps[|ps| - 1];
      if last.suffix != suffix then rest
      else if rest.Some? && rest.value.createdAt >= last.createdAt then rest
      else Some(last)
  }

  /** The payment found carries the suffix and was created no earlier than any other that does; there is one iff any payment carries it. */
  lemma {:induction false} LatestWithSuffixIsLatest(ps: seq<Payment>, suffix: string)
    ensures var r := LatestWithSuffix(ps, suffix);
      && (r.None? <==> forall p :: p in ps ==> p.suffix != suffix)
      && (r.Some? ==> r.value in ps && r.value.suffix == suffix)
      && (r.Some? ==> forall p :: p in ps && p.suffix == suffix ==> p.createdAt <= r.value.createdAt)
    decreases |ps|
  {
    if ps != [] {
      var init := ps[..|ps| - 1];
      LatestWithSuffixIsLatest(init, suffix);
      assert ps == init + [ps[|ps| - 1]];
    }
  }

  /** The index of the 'sol' price row, if there is one. */
  function SolRow(ts: seq<TokenPrice>): (r: Option<nat>)
    ensures r.Some? ==> r.value < |ts| && ts[r.value].token == "sol"
    ensures r.None? ==> forall i :: 0 <= i < |ts| ==> ts[i].token != "sol"
  {
    if ts == [] then None
    else if ts[0].token == "sol" then Some(0)
    else match SolRow(ts[1..])
      case None => None
      case Some(i) => Some(i + 1)
  }

  /** The tables, to say which of them an operation may change. */
  datatype Table = Users | Messages | Wallets | MemoryVectors | Payments | TokenPrices | KnowledgeVectors

  class Database {
    var users: map<int, User>
    var messages: seq<ChatMessage>
    var nextMessageId: nat
    var wallets: seq<Wallet>
    var memoryVectors: seq<MemoryVector>
    var payments: seq<Payment>
    var nextPaymentId: nat
    var tokenPrices: seq<TokenPrice>
    /** The `KnowledgeVector` table: vector store ids. */
    var knowledgeVectors: seq<string>

    /**
     * Users are keyed by their Telegram id, row ids ascend and stay below the
     * next id to be handed out, each user has at most one wallet, and there
     * is at most one 'sol' price.
     */
    ghost predicate Valid()
      reads this
    {
      && (forall k :: k in users ==> users[k].telegramId == k)
      && MessagesAscending(messages)
      && (forall m :: m in messages ==> m.id < nextMessageId)
      && PaymentsAscending(payments)
      && (forall p :: p in payments ==> p.id < nextPaymentId)
      && WalletsUnique(wallets)
      && AtMostOneSol(tokenPrices)
    }

    /** Every table outside `changed` is as it was, row counters included. */
    twostate predicate OnlyChanged(changed: set<Table>)
      reads this
    {
      && (Users !in changed ==> users == old(users))
      && (Messages !in changed ==> messages == old(messages) && nextMessageId == old(nextMessageId))
      && (Wallets !in changed ==> wallets == old(wallets))
      && (MemoryVectors !in changed ==> memoryVectors == old(memoryVectors))
      && (Payments !in changed ==> payments == old(payments) && nextPaymentId == old(nextPaymentId))
      && (TokenPrices !in changed ==> tokenPrices == old(tokenPrices))
      && (KnowledgeVectors !in changed ==> knowledgeVectors == old(knowledgeVectors))
    }

    constructor ()
      ensures Valid()
      ensures users == map[] && messages == [] && wallets == [] && memoryVectors == []
      ensures payments == [] && tokenPrices == [] && knowledgeVectors == []
      ensures nextMessageId == 1 && nextPaymentId == 1
    {
      users := map[];
      messages := [];
      nextMessageId := 1;
      wallets := [];
      memoryVectors := [];
      payments := [];
      nextPaymentId := 1;
      tokenPrices := [];
      knowledgeVectors := [];
    }
  }
}
