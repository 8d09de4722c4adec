/** Spending one free-tier credit, and the quota gate in front of every
    premium-feature button. */
module Subscription {
  import opened Wrappers
  import opened Queries

  /** The outcome of `check_usage_quota_for_query`: whether the feature may
      run, whether the "limit reached" alert was shown, and the new table. */
  datatype QuotaOutcome = QuotaOutcome(table: SubscriberTable, allowed: bool, alerted: bool)

  /** `check_usage_quota_for_query`: only a free subscriber spends a credit,
      and only a failed spend blocks the feature (with an alert). */
  function QuotaCheck(t: SubscriberTable, chatId: int): (r: QuotaOutcome)
    ensures r.alerted <==> !r.allowed
    ensures !r.allowed <==> SelectTier(t, chatId) == Some(Free) && !CanConsume(t, chatId)
    ensures r.table == if r.allowed && SelectTier(t, chatId) == Some(Free) then Consumed(t, chatId).0 else t
  {
    if SelectTier(t, chatId) == Some(Free) then
      var (t2, ok) := Consumed(t, chatId);
      if !ok then QuotaOutcome(t2, false, true) else QuotaOutcome(t2, true, false)
    else QuotaOutcome(t, true, false)
  }

  /** Unknown chats and premium subscribers pass without spending anything. */
  lemma QuotaCheckNotFree(t: SubscriberTable, chatId: int)
    requires chatId !in t || t[chatId].tier == Premium
    ensures QuotaCheck(t, chatId) == QuotaOutcome(t, true, false)
  {
  }

  /** A free subscriber with credit left passes and the count goes up by one. */
  lemma QuotaCheckSpends(t: SubscriberTable, chatId: int)
    requires chatId in t && t[chatId].tier == Free
    requires SqlLess(t[chatId].usageCount, t[chatId].usageLimit)
    ensures var r := QuotaCheck(t, chatId);
      r.allowed && !r.alerted
      && r.table[chatId].usageCount == Some(t[chatId].usageCount.value + 1)
      && r.table == t[chatId := t[chatId].(usageCount := r.table[chatId].usageCount)]
  {
  }

  /** A free subscriber at the limit is blocked, alerted, and the table stays. */
  lemma QuotaCheckAtLimit(t: SubscriberTable, chatId: int)
    requires chatId in t && t[chatId].tier == Free
    requires t[chatId].usageCount == t[chatId].usageLimit
    ensures QuotaCheck(t, chatId) == QuotaOutcome(t, false, true)
  {
  }

  /** From a sane table, a run of quota checks lets a free subscriber through
      at most `FreeDailyLimit` times. */
  lemma {:induction false} QuotaChecksBounded(t: SubscriberTable, chatId: int, n: nat)
    requires UsageSane(t) && chatId in t && t[chatId].tier == Free && t[chatId].usageCount.Some?
    ensures AllowedCount(t, chatId, n) <= FreeDailyLimit - t[chatId].usageCount.value
    decreases n
  {
    if n > 0 {
      var r := QuotaCheck(t, chatId);
      StatementsKeepUsageSane(t, chatId, NoProfile, false, 0, 0);
      if r.allowed {
        QuotaChecksBounded(r.table, chatId, n - 1);
      } else {
        assert r.table == t;
        QuotaChecksBounded(t, chatId, n - 1);
      }
    }
  }

  /** How many of `n` successive quota checks for one chat are allowed. */
  function AllowedCount(t: SubscriberTable, chatId: int, n: nat): (k: nat)
    ensures k <= n
  {
    if n == 0 then 0
    else
      var r := QuotaCheck(t, chatId);
      (if r.allowed then 1 else 0) + AllowedCount(r.table, chatId, n - 1)
  }

  /** `consume_free_credit`: true exactly when the guarded increment returned
      a row. */
  method ConsumeFreeCredit(db: Tables, chatId: int) returns (ok: bool)
    modifies db
    ensures (db.subscribers, ok) == Consumed(old(db.subscribers), chatId)
    ensures db.premiumKeys == old(db.premiumKeys)
  {
    ok := db.Consume(chatId);
  }

  /** `check_usage_quota_for_query`; `alerted` stands for the alert sent
      through `query.answer`. */
  method CheckUsageQuotaForQuery(db: Tables, chatId: int) returns (allowed: bool, alerted: bool)
    modifies db
    ensures QuotaOutcome(db.subscribers, allowed, alerted) == QuotaCheck(old(db.subscribers), chatId)
    ensures db.premiumKeys == old(db.premiumKeys)
  {
    var tier := SelectTier(db.subscribers, chatId);
    alerted := false;
    if tier == Some(Free) {
      var ok := ConsumeFreeCredit(db, chatId);
      if !ok {
        alerted := true;
        allowed := false;
        return;
      }
    }
    allowed := true;
  }
}
