/**
 * `UserRepository` (database/repositories/user.py): the reads and writes a
 * user's requests make on the users, chat messages, wallets, memory vectors
 * and payments tables. A committed SQL statement is one update of the
 * `Database` object's tables.
 */
module UserRepo {
  import opened Options
  import opened Tables
  import Utf8
  import Base64

  /** The text `add_wallet_key` stores for a key: its UTF-8 bytes in base64. */
  function StoredKey(key: string): string
  {
    Base64.Encode(Utf8.Encode(key))
  }

  /** What `get_wallet` gives: None, the key, or the exception a corrupt row raises. */
  datatype WalletRead = NoWallet | Key(key: string) | Undecodable

  /**
   * `get_wallet` on the stored text: no row and an empty string both read
   * as no wallet (Python's truth test); otherwise the text is base64-decoded
   * and the bytes decoded as UTF-8, either of which may raise.
   */
  function ReadStoredKey(stored: Option<string>): (r: WalletRead)
    ensures r == NoWallet <==> stored.None? || stored.value == ""
  {
    if stored.None? || stored.value == "" then NoWallet
    else
      match Base64.Decode(stored.value)
      case None => Undecodable
      case Some(bytes) =>
        match Utf8.Decode(bytes)
        case None => Undecodable
        case Some(text) => Key(text)
  }

  /** A stored key reads back as itself; the empty key is stored as "" and so reads back as no wallet. */
  lemma WalletKeyRoundTrip(key: string)
    ensures key != "" ==> ReadStoredKey(Some(StoredKey(key))) == Key(key)
    ensures key == "" ==> ReadStoredKey(Some(StoredKey(key))) == NoWallet
  {
    var bytes := Utf8.Encode(key);
    Utf8.DecodeEncode(key);
    Base64.DecodeEncode(bytes);
    if key != "" {
      assert bytes == Utf8.EncodeChar(key[0]) + Utf8.Encode(key[1..]);
      assert |StoredKey(key)| >= 4;
    }
  }

  /** The first memory-vector row of a user, as `session.scalar` returns it. */
  function MemoryVectorOf(vs: seq<MemoryVector>, userId: int): (r: Option<MemoryVector>)
    ensures r.Some? ==> r.value in vs && r.value.userId == userId
    ensures r.None? ==> forall v :: v in vs ==> v.userId != userId
  {
    if vs == [] then None
    else if vs[0].userId == userId then Some(vs[0])
    else MemoryVectorOf(vs[1..], userId)
  }

  /** `delete(MemoryVector).where(user_id == userId)`: the other users' rows. */
  function DropMemoryVectors(vs: seq<MemoryVector>, userId: int): (r: seq<MemoryVector>)
    ensures forall v :: v in r <==> v in vs && v.userId != userId
  {
    if vs == [] then []
    else
      var init, last := vs[..|vs| - 1], vs[|vs| - 1];
      assert vs == init + [last];
      DropMemoryVectors(init, userId) + (if last.userId != userId then [last] else [])
  }

  /** `select(ChatMessage).where(id == rowId)` read as a scalar. */
  function MessageWithId(ms: seq<ChatMessage>, rowId: int): (r: Option<ChatMessage>)
    ensures r.Some? ==> r.value in ms && r.value.id == rowId
    ensures r.None? ==> forall m :: m in ms ==> m.id != rowId
  {
    if ms == [] then None
    else if ms[0].id == rowId then Some(ms[0])
    else MessageWithId(ms[1..], rowId)
  }

  class UserRepository {
    const db: Database

    constructor (db: Database)
      ensures this.db == db
    {
      this.db := db;
    }

    /** `get_by_telegram_id`: the user row, or None. */
    method GetByTelegramId(telegramId: int) returns (u: Option<User>)
      requires db.Valid()
      ensures u.Some? <==> telegramId in db.users
      ensures u.Some? ==> u.value == db.users[telegramId] && u.value.telegramId == telegramId
    {
      if telegramId in db.users {
        u := Some(db.users[telegramId]);
      } else {
        u := None;
      }
    }

    /** `create_if_not_exists`: an existing user is returned untouched; otherwise a row with the given fields is added. */
    method CreateIfNotExists(telegramId: int, balance: real, language: Option<string>) returns (u: User)
      requires db.Valid()
      modifies db
      ensures db.Valid() && db.OnlyChanged({Users})
      ensures telegramId in db.users && db.users[telegramId] == u && u.telegramId == telegramId
      ensures telegramId in old(db.users) ==> u == old(db.users[telegramId]) && db.users == old(db.users)
      ensures telegramId !in old(db.users) ==>
        u == User(telegramId, balance, language) && db.users == old(db.users)[telegramId := u]
    {
      var found := GetByTelegramId(telegramId);
      if found.Some? {
        return found.value;
      }
      u := User(telegramId, balance, language);
      db.users := db.users[telegramId := u];
    }

    /**
     * `update(user, **kwargs)`: `balance_credits=d` sets the stored balance to
     * the balance of the `user` object passed in minus `d`, whatever the row
     * holds by now; `language=l` sets the language. A user without a row is
     * left alone, as the UPDATE matches nothing.
     */
    method Update(user: User, debit: Option<real>, language: Option<string>)
      requires db.Valid()
      modifies db
      ensures db.Valid() && db.OnlyChanged({Users})
      ensures db.users.Keys == old(db.users.Keys)
      ensures forall k :: k in db.users && k != user.telegramId ==> db.users[k] == old(db.users[k])
      ensures user.telegramId in db.users ==>
        var before, after := old(db.users[user.telegramId]), db.users[user.telegramId];
        && after.telegramId == before.telegramId
        && after.balance == (if debit.Some? then user.balance - debit.value else before.balance)
        && after.language == (if language.Some? then language else before.language)
    {
      var id := user.telegramId;
      if id in db.users {
        var row := db.users[id];
        if debit.Some? {
          row := row.(balance := user.balance - debit.value);
        }
        if language.Some? {
          row := row.(language := language);
        }
        db.users := db.users[id := row];
      }
    }

    /** `delete_chat_messages`: every message of that user goes, every other message stays, in order. */
    method DeleteChatMessages(user: User)
      requires db.Valid()
      modifies db
      ensures db.Valid() && db.OnlyChanged({Messages}) && db.nextMessageId == old(db.nextMessageId)
      ensures forall m :: m in db.messages <==> m in old(db.messages) && m.userId != user.telegramId
      ensures db.messages == DropMessagesOf(old(db.messages), user.telegramId)
    {
      DropMessagesOfExactly(db.messages, user.telegramId);
      DropMessagesOfAscending(db.messages, user.telegramId);
      db.messages := DropMessagesOf(db.messages, user.telegramId);
    }

    /** `get_wallet`: the stored key decoded, or None when the user has no (non-empty) wallet. */
    method GetWallet(userId: int) returns (r: WalletRead)
      requires db.Valid()
      ensures r == ReadStoredKey(WalletOf(db.wallets, userId))
      ensures (forall w :: w in db.wallets ==> w.userId != userId) ==> r == NoWallet
    {
      WalletOfExactly(db.wallets, userId);
      var wallet := WalletOf(db.wallets, userId);
      if wallet.Some? && wallet.value != "" {
        var bytes := Base64.Decode(wallet.value);
        if bytes.None? {
          return Undecodable;
        }
        var text := Utf8.Decode(bytes.value);
        if text.None? {
          return Undecodable;
        }
        return Key(text.value);
      }
      return NoWallet;
    }

    /** `get_messags`: exactly that user's messages, in ascending id order. */
    method GetMessags(userId: int) returns (r: seq<ChatMessage>)
      requires db.Valid()
      ensures forall m :: m in r <==> m in db.messages && m.userId == userId
      ensures MessagesAscending(r)
      ensures r == MessagesOf(db.messages, userId)
    {
      MessagesOfExactly(db.messages, userId);
      MessagesOfAscending(db.messages, userId);
      r := MessagesOf(db.messages, userId);
    }

    /** `get_memory_vector`: a memory-vector row of that user, or None when there is none. */
    method GetMemoryVector(userId: int) returns (r: Option<MemoryVector>)
      ensures r.Some? ==> r.value in db.memoryVectors && r.value.userId == userId
      ensures r.None? <==> forall v :: v in db.memoryVectors ==> v.userId != userId
    {
      r := MemoryVectorOf(db.memoryVectors, userId);
    }

    /** `add_memory_vector`: one more row. */
    method AddMemoryVector(userId: int, vectorId: string)
      requires db.Valid()
      modifies db
      ensures db.Valid() && db.OnlyChanged({MemoryVectors})
      ensures db.memoryVectors == old(db.memoryVectors) + [MemoryVector(userId, vectorId)]
    {
      db.memoryVectors := db.memoryVectors + [MemoryVector(userId, vectorId)];
    }

    /** `delete_memory_vector`: that user's rows go, the others stay. */
    method DeleteMemoryVector(userId: int)
      requires db.Valid()
      modifies db
      ensures db.Valid() && db.OnlyChanged({MemoryVectors})
      ensures forall v :: v in db.memoryVectors <==> v in old(db.memoryVectors) && v.userId != userId
      ensures MemoryVectorOf(db.memoryVectors, userId) == None
    {
      db.memoryVectors := DropMemoryVectors(db.memoryVectors, userId);
    }

    /**
     * `add_context`: a message with a fresh id, larger than every earlier
     * one, appended; the user's history gains it at the end and nobody
     * else's changes.
     */
    method AddContext(userId: int, role: string, content: string) returns (id: nat)
      requires db.Valid()
      modifies db
      ensures db.Valid() && db.OnlyChanged({Messages})
      ensures id == old(db.nextMessageId) && db.nextMessageId == id + 1
      ensures forall m :: m in old(db.messages) ==> m.id < id
      ensures db.messages == old(db.messages) + [ChatMessage(id, userId, role, content)]
      ensures MessagesOf(db.messages, userId) == MessagesOf(old(db.messages), userId) + [ChatMessage(id, userId, role, content)]
      ensures forall u :: u != userId ==> MessagesOf(db.messages, u) == MessagesOf(old(db.messages), u)
    {
      id := db.nextMessageId;
      var m := ChatMessage(id, userId, role, content);
      AppendMessage(db.messages, m);
      db.messages := db.messages + [m];
      db.nextMessageId := id + 1;
    }

    /** `delete_wallet_key`: the user has no wallet any more; every other user's wallet is as it was. */
    method DeleteWalletKey(userId: int)
      requires db.Valid()
      modifies db
      ensures db.Valid() && db.OnlyChanged({Wallets})
      ensures forall w :: w in db.wallets <==> w in old(db.wallets) && w.userId != userId
      ensures WalletOf(db.wallets, userId) == None
      ensures forall u :: u != userId ==> WalletOf(db.wallets, u) == WalletOf(old(db.wallets), u)
    {
      ghost var before := db.wallets;
      DropWalletsExactly(db.wallets, userId);
      db.wallets := DropWallets(db.wallets, userId);
      WalletOfExactly(db.wallets, userId);
      forall u | u != userId ensures WalletOf(db.wallets, u) == WalletOf(before, u) {
        WalletOfExactly(db.wallets, u);
        WalletOfExactly(before, u);
        var now, was := WalletOf(db.wallets, u), WalletOf(before, u);
        if now.Some? {
          WalletOfUnique(before, Wallet(u, now.value));
        }
      }
    }

    /**
     * `add_wallet_key`: the old wallet is deleted and the key stored, so the
     * user has exactly one wallet, whose key `get_wallet` reads back; other
     * users' wallets are untouched.
     */
    method AddWalletKey(userId: int, key: string)
      requires db.Valid()
      modifies db
      ensures db.Valid() && db.OnlyChanged({Wallets})
      ensures WalletOf(db.wallets, userId) == Some(StoredKey(key))
      ensures forall w :: w in db.wallets && w.userId == userId ==> w == Wallet(userId, StoredKey(key))
      ensures key != "" ==> ReadStoredKey(WalletOf(db.wallets, userId)) == Key(key)
      ensures forall u :: u != userId ==> WalletOf(db.wallets, u) == WalletOf(old(db.wallets), u)
    {
      DeleteWalletKey(userId);
      ghost var before := db.wallets;
      var w := Wallet(userId, StoredKey(key));
      db.wallets := db.wallets + [w];
      assert WalletsUnique(db.wallets) by {
        forall i, j | 0 <= i < j < |db.wallets| ensures db.wallets[i].userId != db.wallets[j].userId {
          if j == |before| { assert db.wallets[i] in before; }
          else { assert db.wallets[i] == before[i] && db.wallets[j] == before[j]; }
        }
      }
      WalletOfUnique(db.wallets, w);
      WalletKeyRoundTrip(key);
      forall u | u != userId ensures WalletOf(db.wallets, u) == WalletOf(before, u) {
        WalletOfExactly(db.wallets, u);
        WalletOfExactly(before, u);
        var now, was := WalletOf(db.wallets, u), WalletOf(before, u);
        if now.Some? {
          assert Wallet(u, now.value) in before;
          WalletOfUnique(before, Wallet(u, now.value));
        }
      }
    }

    /** `add_payment`: a payment row with a fresh id, created at `now`, without a status yet. */
    method AddPayment(userId: int, amount: int, cryptoAmount: string, currency: string,
                      suffix: string, now: int) returns (id: nat)
      requires db.Valid()
      modifies db
      ensures db.Valid() && db.OnlyChanged({Payments})
      ensures id == old(db.nextPaymentId) && db.nextPaymentId == id + 1
      ensures forall p :: p in old(db.payments) ==> p.id < id
      ensures db.payments == old(db.payments) + [Payment(id, userId, amount, cryptoAmount, currency, suffix, None, now)]
    {
      id := db.nextPaymentId;
      ghost var before := db.payments;
      db.payments := db.payments + [Payment(id, userId, amount, cryptoAmount, currency, suffix, None, now)];
      db.nextPaymentId := id + 1;
      assert PaymentsAscending(db.payments) by {
        forall i, j | 0 <= i < j < |db.payments| ensures db.payments[i].id < db.payments[j].id {
          if j == |before| { assert db.payments[i] in before; }
          else { assert db.payments[i] == before[i] && db.payments[j] == before[j]; }
        }
      }
    }

    /** `add_user_credits`: the stored balance grows by the amount, in the database itself. */
    method AddUserCredits(userId: int, credits: int)
      requires db.Valid()
      modifies db
      ensures db.Valid() && db.OnlyChanged({Users})
      ensures db.users.Keys == old(db.users.Keys)
      ensures forall k :: k in db.users && k != userId ==> db.users[k] == old(db.users[k])
      ensures userId in db.users ==>
        db.users[userId] == old(db.users[userId]).(balance := old(db.users[userId]).balance + credits as real)
    {
      if userId in db.users {
        var row := db.users[userId];
        db.users := db.users[userId := row.(balance := row.balance + credits as real)];
      }
    }

    /** `get_row_for_md`: the message with that id, whoever it belongs to, or None. */
    method GetRowForMd(rowId: int) returns (r: Option<ChatMessage>)
      ensures r.Some? ==> r.value in db.messages && r.value.id == rowId
      ensures r.None? <==> forall m :: m in db.messages ==> m.id != rowId
    {
      r := MessageWithId(db.messages, rowId);
    }
  }
}
