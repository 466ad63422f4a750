/**
 * `UtilsRepository` (database/repositories/utils.py): the SOL price row,
 * the shared knowledge vector store, the payment-suffix reuse rule, payment
 * status updates and the daily credit top-up. The clock is the `now`
 * argument, in seconds; `ADMIN_ID` is the `adminId` argument.
 */
module UtilsRepo {
  import opened Options
  import opened Tables

  /** `CREDITS_USER_DAILY` and `CREDITS_ADMIN_DAILY` (config.py). */
  const CreditsUserDaily: real := 500.0
  const CreditsAdminDaily: real := 5000.0

  /** `timedelta(minutes=15)`, in seconds. */
  const SuffixReuseSeconds: int := 15 * 60

  /** `check_payment_suffix` once the latest payment with the suffix has been read: free when there is none or it is 15 minutes old. */
  predicate SuffixFree(latest: Option<Payment>, now: int)
  {
    latest.None? || now - latest.value.createdAt >= SuffixReuseSeconds
  }

  /** A suffix is free exactly when every payment that used it was created at least 15 minutes ago. */
  lemma SuffixFreeExactly(ps: seq<Payment>, suffix: string, now: int)
    ensures SuffixFree(LatestWithSuffix(ps, suffix), now) <==>
      forall p :: p in ps && p.suffix == suffix ==> now - p.createdAt >= SuffixReuseSeconds
  {
    LatestWithSuffixIsLatest(ps, suffix);
  }

  /** A user's balance after `update_tokens_daily`: both UPDATE statements applied to one row. */
  function DailyBalance(u: User, adminId: int): (r: real)
    ensures r >= CreditsUserDaily && r >= u.balance
  {
    if u.telegramId != adminId && u.balance < CreditsUserDaily then CreditsUserDaily
    else if u.telegramId == adminId && u.balance < CreditsUserDaily then CreditsAdminDaily
    else u.balance
  }

  /** A balance at or above the user's daily credits is left alone, the admin's included even below the admin's daily credits. */
  lemma DailyBalanceKeepsHigh(u: User, adminId: int)
    requires u.balance >= CreditsUserDaily
    ensures DailyBalance(u, adminId) == u.balance
  {
  }

  /** A second top-up the same day changes nothing. */
  lemma DailyBalanceIdempotent(u: User, adminId: int)
    ensures DailyBalance(u.(balance := DailyBalance(u, adminId)), adminId) == DailyBalance(u, adminId)
  {
  }

  /** `update(Payment).where(id == id).values(status=status)` on the rows. */
  function SetStatus(ps: seq<Payment>, id: int, status: string): (r: seq<Payment>)
    ensures |r| == |ps|
    ensures forall i :: 0 <= i < |ps| ==> r[i] == (if ps[i].id == id then ps[i].(status := Some(status)) else ps[i])
  {
    seq(|ps|, i requires 0 <= i < |ps| => if ps[i].id == id then ps[i].(status := Some(status)) else ps[i])
  }

  class UtilsRepository {
    const db: Database

    constructor (db: Database)
      ensures this.db == db
    {
      this.db := db;
    }

    /** `update_token_price`: the 'sol' row gets the price, or is added when missing; there stays at most one. */
    method UpdateTokenPrice(price: real)
      requires db.Valid()
      modifies db
      ensures db.Valid() && db.OnlyChanged({TokenPrices})
      ensures SolRow(db.tokenPrices).Some? && db.tokenPrices[SolRow(db.tokenPrices).value] == TokenPrice("sol", price)
      ensures |db.tokenPrices| == |old(db.tokenPrices)| + (if SolRow(old(db.tokenPrices)).Some? then 0 else 1)
      ensures forall i :: 0 <= i < |old(db.tokenPrices)| && old(db.tokenPrices)[i].token != "sol" ==>
        db.tokenPrices[i] == old(db.tokenPrices)[i]
    {
      var row := SolRow(db.tokenPrices);
      if row.Some? {
        var i := row.value;
        db.tokenPrices := db.tokenPrices[i := db.tokenPrices[i].(priceUsd := price)];
        assert SolRow(db.tokenPrices) == Some(i) by {
          SolRowFirst(db.tokenPrices, i);
        }
      } else {
        ghost var before := db.tokenPrices;
        db.tokenPrices := db.tokenPrices + [TokenPrice("sol", price)];
        SolRowFirst(db.tokenPrices, |before|);
      }
    }

    /** `get_token`: the 'sol' row, the only one there is, or None. */
    method GetToken() returns (r: Option<TokenPrice>)
      requires db.Valid()
      ensures r.None? <==> forall t :: t in db.tokenPrices ==> t.token != "sol"
      ensures r.Some? ==> r.value in db.tokenPrices && forall t :: t in db.tokenPrices && t.token == "sol" ==> t == r.value
    {
      var row := SolRow(db.tokenPrices);
      if row.Some? {
        r := Some(db.tokenPrices[row.value]);
        forall t | t in db.tokenPrices && t.token == "sol" ensures t == r.value {
          var k :| 0 <= k < |db.tokenPrices| && db.tokenPrices[k] == t;
          if k < row.value { assert false; }
          else if k > row.value { assert false; }
        }
      } else {
        r := None;
      }
    }

    /** `get_knowledge_vectore_store_id`: the first row, or None when the table is empty. */
    method GetKnowledgeVectorStoreId() returns (r: Option<string>)
      ensures r.None? <==> db.knowledgeVectors == []
      ensures r.Some? ==> r.value == db.knowledgeVectors[0]
    {
      if db.knowledgeVectors == [] {
        r := None;
      } else {
        r := Some(db.knowledgeVectors[0]);
      }
    }

    /** `add_knowledge_vectore_store_id`: one more row. */
    method AddKnowledgeVectorStoreId(vectorStoreId: string)
      requires db.Valid()
      modifies db
      ensures db.Valid() && db.OnlyChanged({KnowledgeVectors})
      ensures db.knowledgeVectors == old(db.knowledgeVectors) + [vectorStoreId]
    {
      db.knowledgeVectors := db.knowledgeVectors + [vectorStoreId];
    }

    /** `delete_knowledge_vectore_store_id`: every row goes. */
    method DeleteKnowledgeVectorStoreId()
      requires db.Valid()
      modifies db
      ensures db.Valid() && db.OnlyChanged({KnowledgeVectors})
      ensures db.knowledgeVectors == []
    {
      db.knowledgeVectors := [];
    }

    /**
     * `check_payment_suffix`: True when no payment used the suffix, or the
     * most recent one that did was created at least 15 minutes before `now`.
     */
    method CheckPaymentSuffix(suffix: string, now: int) returns (free: bool)
      ensures free <==> forall p :: p in db.payments && p.suffix == suffix ==> now - p.createdAt >= SuffixReuseSeconds
      ensures (forall p :: p in db.payments ==> p.suffix != suffix) ==> free
    {
      var payment := LatestWithSuffix(db.payments, suffix);
      SuffixFreeExactly(db.payments, suffix, now);
      if payment.Some? {
        if now - payment.value.createdAt >= SuffixReuseSeconds {
          return true;
        }
        return false;
      }
      return true;
    }

    /** `get_payment`: the payment with that id, or None. */
    method GetPayment(paymentId: int) returns (r: Option<Payment>)
      ensures r.Some? ==> r.value in db.payments && r.value.id == paymentId
      ensures r.None? <==> forall p :: p in db.payments ==> p.id != paymentId
      ensures r == PaymentWithId(db.payments, paymentId)
    {
      r := PaymentWithId(db.payments, paymentId);
    }

    /** `update_payment_status`: the payment with that id gets the status; every other row and field is as it was. */
    method UpdatePaymentStatus(paymentId: int, status: string)
      requires db.Valid()
      modifies db
      ensures db.Valid() && db.OnlyChanged({Payments}) && db.nextPaymentId == old(db.nextPaymentId)
      ensures |db.payments| == |old(db.payments)|
      ensures forall i :: 0 <= i < |db.payments| ==>
        db.payments[i] == (if old(db.payments)[i].id == paymentId
                           then old(db.payments)[i].(status := Some(status)) else old(db.payments)[i])
    {
      ghost var before := db.payments;
      db.payments := SetStatus(db.payments, paymentId, status);
      assert forall i :: 0 <= i < |before| ==> db.payments[i].id == before[i].id;
      assert forall p :: p in db.payments ==> p.id < db.nextPaymentId by {
        forall p | p in db.payments ensures p.id < db.nextPaymentId {
          var k :| 0 <= k < |db.payments| && db.payments[k] == p;
          assert before[k] in before;
        }
      }
    }

    /**
     * `update_tokens_daily`: users other than the admin with fewer than the
     * user's daily credits get the user's daily credits; then the admin, if
     * below the user's daily credits, gets the admin's daily credits.
     */
    method UpdateTokensDaily(adminId: int)
      requires db.Valid()
      modifies db
      ensures db.Valid() && db.OnlyChanged({Users})
      ensures db.users.Keys == old(db.users.Keys)
      ensures forall k :: k in db.users ==>
        db.users[k] == old(db.users[k]).(balance := DailyBalance(old(db.users[k]), adminId))
    {
      ghost var before := db.users;
      db.users := map k | k in db.users ::
        if db.users[k].telegramId != adminId && db.users[k].balance < CreditsUserDaily
        then db.users[k].(balance := CreditsUserDaily) else db.users[k];
      db.users := map k | k in db.users ::
        if db.users[k].telegramId == adminId && db.users[k].balance < CreditsUserDaily
        then db.users[k].(balance := CreditsAdminDaily) else db.users[k];
    }
  }

  /** With at most one 'sol' row, a 'sol' row at index `i` is the one `SolRow` finds. */
  lemma SolRowFirst(ts: seq<TokenPrice>, i: nat)
    requires i < |ts| && ts[i].token == "sol"
    requires forall j :: 0 <= j < |ts| && j != i ==> ts[j].token != "sol"
    ensures SolRow(ts) == Some(i)
  {
  }
}
