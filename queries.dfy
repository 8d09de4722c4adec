/** The `subscribers` and `premium_keys` tables and the SQL statements the
    bot runs on them. A table is a map from its primary key to its row; SQL
    NULL is `None`; dates are day numbers and timestamps are plain integers.
    Each statement is a function from the old table to the new one, and the
    class `Tables` holds the two tables and applies the statements in place. */
module Queries {
  import opened Wrappers

  /** `FREE_DAILY_FEATURE_LIMIT`. */
  const FreeDailyLimit: int := 15

  datatype Tier = Free | Premium

  /** The Telegram profile columns written by `/start`. */
  datatype Profile = Profile(firstName: Option<string>, username: Option<string>, languageCode: Option<string>)

  /** A `subscribers` row; columns an INSERT does not name are NULL. */
  datatype Subscriber = Subscriber(
    profile: Profile,
    tier: Tier,
    usageLimit: Option<int>,
    usageCount: Option<int>,
    lastUsageReset: Option<int>,
    expiresAt: Option<int>,
    subscribedAt: Option<int>,
    isActive: Option<bool>)

  /** A `premium_keys` row. */
  datatype PremiumKey = PremiumKey(isUsed: bool, usedByChat: Option<int>, usedAt: Option<int>, expiresAt: Option<int>)

  type SubscriberTable = map<int, Subscriber>
  type KeyTable = map<string, PremiumKey>

  const NoProfile: Profile := Profile(None, None, None)

  /** The table invariant every statement keeps: a stored `usage_limit` is
      the free limit, and a stored `usage_count` lies between 0 and it. */
  predicate UsageSane(t: SubscriberTable)
  {
    forall id :: id in t ==>
      (t[id].usageLimit.Some? ==> t[id].usageLimit.value == FreeDailyLimit)
      && (t[id].usageCount.Some? ==> 0 <= t[id].usageCount.value <= FreeDailyLimit)
  }

  /** SQL `a < b`, which is true only when neither side is NULL. */
  predicate SqlLess(a: Option<int>, b: Option<int>)
  {
    a.Some? && b.Some? && a.value < b.value
  }

  // ---------------------------------------------------------------------
  // Statements

  /** `SUBSCRIBER_UPDATE_PROFILE`. */
  function ProfileUpdated(t: SubscriberTable, chatId: int, p: Profile): (r: SubscriberTable)
    ensures r.Keys == t.Keys
    ensures chatId in t ==> r[chatId] == t[chatId].(profile := p, isActive := Some(true))
    ensures forall id :: id in t && id != chatId ==> r[id] == t[id]
  {
    if chatId in t then t[chatId := t[chatId].(profile := p, isActive := Some(true))] else t
  }

  /** `SUBSCRIBER_UPDATE_FREE`: back to the free tier with the free limit;
      the count is zeroed and the reset date moved only when `reset` holds. */
  function FreeUpdated(t: SubscriberTable, chatId: int, p: Profile, reset: bool, today: int): (r: SubscriberTable)
    ensures r.Keys == t.Keys
    ensures forall id :: id in t && id != chatId ==> r[id] == t[id]
    ensures chatId in t ==>
      r[chatId].tier == Free && r[chatId].usageLimit == Some(FreeDailyLimit)
      && r[chatId].profile == p && r[chatId].isActive == Some(true)
      && r[chatId].usageCount == (if reset then Some(0) else t[chatId].usageCount)
      && r[chatId].lastUsageReset == (if reset then Some(today) else t[chatId].lastUsageReset)
      && r[chatId].expiresAt == t[chatId].expiresAt
  {
    if chatId in t then
      var row := t[chatId];
      t[chatId := row.(
        profile := p,
        tier := Free,
        usageLimit := Some(FreeDailyLimit),
        usageCount := if reset then Some(0) else row.usageCount,
        lastUsageReset := if reset then Some(today) else row.lastUsageReset,
        isActive := Some(true))]
    else t
  }

  /** The row `SUBSCRIBER_INSERT` creates. */
  function NewFreeRow(p: Profile, today: int, now: int): (row: Subscriber)
    ensures row.tier == Free && row.isActive == Some(true)
    ensures row.usageCount == Some(0) && row.usageLimit == Some(FreeDailyLimit)
    ensures row.lastUsageReset == Some(today) && row.expiresAt == None
  {
    Subscriber(p, Free, Some(FreeDailyLimit), Some(0), Some(today), None, Some(now), Some(true))
  }

  /** `SUBSCRIBER_INSERT`; the chat id is the primary key, so it must be new. */
  function Inserted(t: SubscriberTable, chatId: int, p: Profile, today: int, now: int): (r: SubscriberTable)
    requires chatId !in t
    ensures r.Keys == t.Keys + {chatId}
    ensures forall id :: id in t ==> r[id] == t[id]
  {
    t[chatId := NewFreeRow(p, today, now)]
  }

  /** `PREMIUM_KEY_UPDATE_USED`. */
  function KeyMarkedUsed(keys: KeyTable, code: string, chatId: int, now: int): (r: KeyTable)
    ensures r.Keys == keys.Keys
    ensures code in keys ==> r[code] == keys[code].(isUsed := true, usedByChat := Some(chatId), usedAt := Some(now))
    ensures forall c :: c in keys && c != code ==> r[c] == keys[c]
  {
    if code in keys then keys[code := keys[code].(isUsed := true, usedByChat := Some(chatId), usedAt := Some(now))]
    else keys
  }

  /** `SUBSCRIBER_UPSERT_PREMIUM`: an existing row gets only the tier and the
      expiry; a new row has those two and NULL everywhere else. */
  function PremiumUpserted(t: SubscriberTable, chatId: int, expires: int): (r: SubscriberTable)
    ensures r.Keys == t.Keys + {chatId}
    ensures forall id :: id in t && id != chatId ==> r[id] == t[id]
    ensures r[chatId].tier == Premium && r[chatId].expiresAt == Some(expires)
    ensures chatId in t ==> r[chatId] == t[chatId].(tier := Premium, expiresAt := Some(expires))
  {
    if chatId in t then t[chatId := t[chatId].(tier := Premium, expiresAt := Some(expires))]
    else t[chatId := Subscriber(NoProfile, Premium, None, None, None, Some(expires), None, None)]
  }

  /** Whether `SUBSCRIBER_CONSUME_FREE_CREDIT` matches the chat's row. */
  predicate CanConsume(t: SubscriberTable, chatId: int)
  {
    chatId in t && t[chatId].tier == Free && SqlLess(t[chatId].usageCount, t[chatId].usageLimit)
  }

  /** `SUBSCRIBER_CONSUME_FREE_CREDIT`: the new table and whether a row was
      returned. */
  function Consumed(t: SubscriberTable, chatId: int): (r: (SubscriberTable, bool))
    ensures r.1 == CanConsume(t, chatId)
    ensures !r.1 ==> r.0 == t
  {
    if CanConsume(t, chatId) then
      (t[chatId := t[chatId].(usageCount := Some(t[chatId].usageCount.value + 1))], true)
    else (t, false)
  }

  /** `SUBSCRIBER_RESET_DAILY_USAGE`. */
  function DailyReset(t: SubscriberTable, day: int): (r: SubscriberTable)
    ensures r.Keys == t.Keys
  {
    map id | id in t :: if t[id].tier == Free then t[id].(usageCount := Some(0), lastUsageReset := Some(day)) else t[id]
  }

  /** `SUBSCRIBER_SELECT_USAGE`. */
  function SelectTier(t: SubscriberTable, chatId: int): Option<Tier>
  {
    if chatId in t then Some(t[chatId].tier) else None
  }

  // ---------------------------------------------------------------------
  // Properties

  /** A consumed credit adds exactly one to the count and touches nothing else. */
  lemma ConsumeAddsOne(t: SubscriberTable, chatId: int)
    requires CanConsume(t, chatId)
    ensures var r := Consumed(t, chatId).0;
      r.Keys == t.Keys
      && r[chatId] == t[chatId].(usageCount := Some(t[chatId].usageCount.value + 1))
      && (forall id :: id in t && id != chatId ==> r[id] == t[id])
  {
  }

  /** The guarded increment never lifts a count above the row's limit. */
  lemma ConsumeWithinLimit(t: SubscriberTable, chatId: int)
    requires CanConsume(t, chatId)
    ensures Consumed(t, chatId).0[chatId].usageCount.value <= t[chatId].usageLimit.value
  {
  }

  /** With a NULL limit, or a count already at the limit, nothing is consumed. */
  lemma ConsumeRefused(t: SubscriberTable, chatId: int)
    requires chatId in t
    requires t[chatId].usageLimit == None
      || (t[chatId].usageCount.Some? && t[chatId].usageLimit.Some?
          && t[chatId].usageCount.value >= t[chatId].usageLimit.value)
    ensures Consumed(t, chatId) == (t, false)
  {
  }

  /** The daily reset zeroes every free row and leaves every other row alone. */
  lemma ResetDailyRows(t: SubscriberTable, day: int)
    ensures forall id :: id in t && t[id].tier == Free ==>
      DailyReset(t, day)[id] == t[id].(usageCount := Some(0), lastUsageReset := Some(day))
    ensures forall id :: id in t && t[id].tier != Free ==> DailyReset(t, day)[id] == t[id]
  {
  }

  /** Running the daily reset twice with the same date is running it once. */
  lemma ResetDailyIdempotent(t: SubscriberTable, day: int)
    ensures DailyReset(DailyReset(t, day), day) == DailyReset(t, day)
  {
    var once := DailyReset(t, day);
    var twice := DailyReset(once, day);
    assert forall id :: id in twice ==> twice[id] == once[id];
  }

  /** After the daily reset every free row can consume again. */
  lemma ResetDailyRestoresCredit(t: SubscriberTable, day: int, chatId: int)
    requires UsageSane(t)
    requires chatId in t && t[chatId].tier == Free && t[chatId].usageLimit.Some?
    ensures CanConsume(DailyReset(t, day), chatId)
  {
  }

  /** Every statement keeps `UsageSane`. */
  lemma StatementsKeepUsageSane(t: SubscriberTable, chatId: int, p: Profile, reset: bool, today: int, now: int)
    requires UsageSane(t)
    ensures UsageSane(ProfileUpdated(t, chatId, p))
    ensures UsageSane(FreeUpdated(t, chatId, p, reset, today))
    ensures chatId !in t ==> UsageSane(Inserted(t, chatId, p, today, now))
    ensures UsageSane(PremiumUpserted(t, chatId, today))
    ensures UsageSane(Consumed(t, chatId).0)
    ensures UsageSane(DailyReset(t, today))
  {
    ProfileUpdatedSane(t, chatId, p);
    FreeUpdatedSane(t, chatId, p, reset, today);
    if chatId !in t {
      InsertedSane(t, chatId, p, today, now);
    }
    PremiumUpsertedSane(t, chatId, today);
    ConsumedSane(t, chatId);
    DailyResetSane(t, today);
  }

  lemma ProfileUpdatedSane(t: SubscriberTable, chatId: int, p: Profile)
    requires UsageSane(t)
    ensures UsageSane(ProfileUpdated(t, chatId, p))
  {
  }

  lemma FreeUpdatedSane(t: SubscriberTable, chatId: int, p: Profile, reset: bool, today: int)
    requires UsageSane(t)
    ensures UsageSane(FreeUpdated(t, chatId, p, reset, today))
  {
    var r := FreeUpdated(t, chatId, p, reset, today);
    assert forall id :: id in r ==> id in t;
  }

  lemma InsertedSane(t: SubscriberTable, chatId: int, p: Profile, today: int, now: int)
    requires UsageSane(t) && chatId !in t
    ensures UsageSane(Inserted(t, chatId, p, today, now))
  {
  }

  lemma PremiumUpsertedSane(t: SubscriberTable, chatId: int, today: int)
    requires UsageSane(t)
    ensures UsageSane(PremiumUpserted(t, chatId, today))
  {
  }

  lemma ConsumedSane(t: SubscriberTable, chatId: int)
    requires UsageSane(t)
    ensures UsageSane(Consumed(t, chatId).0)
  {
    var c := Consumed(t, chatId).0;
    assert forall id :: id in c ==> id in t;
  }

  lemma DailyResetSane(t: SubscriberTable, today: int)
    requires UsageSane(t)
    ensures UsageSane(DailyReset(t, today))
  {
  }

  /** The database: the two tables, changed in place by the statements. */
  class Tables {
    var subscribers: SubscriberTable
    var premiumKeys: KeyTable

    constructor (subscribers: SubscriberTable, premiumKeys: KeyTable)
      ensures this.subscribers == subscribers && this.premiumKeys == premiumKeys
    {
      this.subscribers := subscribers;
      this.premiumKeys := premiumKeys;
    }

    method UpdateProfile(chatId: int, p: Profile)
      modifies this
      ensures subscribers == ProfileUpdated(old(subscribers), chatId, p)
      ensures premiumKeys == old(premiumKeys)
    {
      subscribers := ProfileUpdated(subscribers, chatId, p);
    }

    method UpdateFree(chatId: int, p: Profile, reset: bool, today: int)
      modifies this
      ensures subscribers == FreeUpdated(old(subscribers), chatId, p, reset, today)
      ensures premiumKeys == old(premiumKeys)
    {
      subscribers := FreeUpdated(subscribers, chatId, p, reset, today);
    }

    method Insert(chatId: int, p: Profile, today: int, now: int)
      requires chatId !in subscribers
      modifies this
      ensures subscribers == Inserted(old(subscribers), chatId, p, today, now)
      ensures premiumKeys == old(premiumKeys)
    {
      subscribers := Inserted(subscribers, chatId, p, today, now);
    }

    method MarkKeyUsed(code: string, chatId: int, now: int)
      modifies this
      ensures premiumKeys == KeyMarkedUsed(old(premiumKeys), code, chatId, now)
      ensures subscribers == old(subscribers)
    {
      premiumKeys := KeyMarkedUsed(premiumKeys, code, chatId, now);
    }

    method UpsertPremium(chatId: int, expires: int)
      modifies this
      ensures subscribers == PremiumUpserted(old(subscribers), chatId, expires)
      ensures premiumKeys == old(premiumKeys)
    {
      subscribers := PremiumUpserted(subscribers, chatId, expires);
    }

    /** Runs the guarded increment; `returned` tells whether RETURNING gave a row. */
    method Consume(chatId: int) returns (returned: bool)
      modifies this
      ensures (subscribers, returned) == Consumed(old(subscribers), chatId)
      ensures premiumKeys == old(premiumKeys)
    {
      var r := Consumed(subscribers, chatId);
      subscribers := r.0;
      returned := r.1;
    }

    method ResetDaily(day: int)
      modifies this
      ensures subscribers == DailyReset(old(subscribers), day)
      ensures premiumKeys == old(premiumKeys)
    {
      subscribers := DailyReset(subscribers, day);
    }
  }
}
