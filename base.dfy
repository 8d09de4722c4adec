/** Premium activation by one-shot key, the activation conversation, and the
    lazy downgrade of expired premium subscribers that runs before every
    decorated handler. */
module Base {
  import opened Wrappers
  import opened Text
  import opened Queries

  /** The conversation state returned on entry: waiting for a code. */
  const AwaitingCode: int := 1
  /** `ConversationHandler.END`. */
  const ConversationEnd: int := -1

  /** Days of premium granted by a key or by `/grant_premium`. */
  const PremiumDays: int := 30

  /** `start_activation`: asks for the code and waits for it. */
  function StartActivation(): (state: int)
    ensures state == AwaitingCode && state != ConversationEnd
  {
    1
  }

  /** `cancel_activation`: leaves the conversation. */
  function CancelActivation(): (state: int)
    ensures state == ConversationEnd && state != AwaitingCode
  {
    -1
  }

  // ---------------------------------------------------------------------
  // Lazy downgrade

  /** A premium row whose expiry date lies before `today`. */
  predicate Expired(t: SubscriberTable, chatId: int, today: int)
  {
    chatId in t && t[chatId].tier == Premium && t[chatId].expiresAt.Some? && t[chatId].expiresAt.value < today
  }

  /** `downgrade_expired`. */
  function Downgraded(t: SubscriberTable, chatId: int, today: int): (r: SubscriberTable)
    ensures r.Keys == t.Keys
    ensures forall id :: id in t && id != chatId ==> r[id] == t[id]
    ensures !Expired(t, chatId, today) ==> r == t
    ensures Expired(t, chatId, today) ==> r[chatId] == t[chatId].(tier := Free, expiresAt := None)
  {
    if Expired(t, chatId, today) then t[chatId := t[chatId].(tier := Free, expiresAt := None)] else t
  }

  /** After the downgrade the chat is not premium with a past expiry, and a
      second downgrade on the same day changes nothing. */
  lemma DowngradedSettles(t: SubscriberTable, chatId: int, today: int)
    ensures !Expired(Downgraded(t, chatId, today), chatId, today)
    ensures Downgraded(Downgraded(t, chatId, today), chatId, today) == Downgraded(t, chatId, today)
  {
  }

  /** Free rows, premium rows that have not expired or have no expiry, and
      unknown chats are left as they are. */
  lemma DowngradedKeeps(t: SubscriberTable, chatId: int, today: int)
    requires chatId !in t || t[chatId].tier == Free || t[chatId].expiresAt == None
      || t[chatId].expiresAt.value >= today
    ensures Downgraded(t, chatId, today) == t
  {
  }

  /** The downgrade keeps the usage invariant. */
  lemma DowngradedUsageSane(t: SubscriberTable, chatId: int, today: int)
    requires UsageSane(t)
    ensures UsageSane(Downgraded(t, chatId, today))
  {
    var r := Downgraded(t, chatId, today);
    assert forall id :: id in r ==> id in t && r[id].usageCount == t[id].usageCount && r[id].usageLimit == t[id].usageLimit;
  }

  method DowngradeExpired(db: Tables, chatId: int, today: int)
    modifies db
    ensures db.subscribers == Downgraded(old(db.subscribers), chatId, today)
    ensures db.premiumKeys == old(db.premiumKeys)
  {
    var row := if chatId in db.subscribers then Some(db.subscribers[chatId]) else None;
    if row.Some? && row.value.tier == Premium && row.value.expiresAt.Some? && row.value.expiresAt.value < today {
      db.subscribers := db.subscribers[chatId := row.value.(tier := Free, expiresAt := None)];
    }
  }

  /** `with_subscription_check`: the downgrade for the calling chat, run
      before the wrapped handler; each decorated handler of the model starts
      with this call. */
  method WithSubscriptionCheck(db: Tables, chatId: int, today: int)
    modifies db
    ensures db.subscribers == Downgraded(old(db.subscribers), chatId, today)
    ensures db.premiumKeys == old(db.premiumKeys)
  {
    DowngradeExpired(db, chatId, today);
  }

  // ---------------------------------------------------------------------
  // Activation keys

  datatype Activation = UnknownCode | UsedOrExpired | Activated(expires: int)

  /** Whether a stored key may still be redeemed on `today`. */
  predicate Redeemable(k: PremiumKey, today: int)
  {
    !k.isUsed && !(k.expiresAt.Some? && k.expiresAt.value < today)
  }

  /** The outcome of `handle_activation_code` and the two tables after it. */
  datatype ActivationResult = ActivationResult(subscribers: SubscriberTable, keys: KeyTable, outcome: Activation)

  /** `handle_activation_code` on the message text `text`. */
  function Activate(t: SubscriberTable, keys: KeyTable, text: string, chatId: int, today: int, now: int): (r: ActivationResult)
    ensures r.outcome.UnknownCode? <==> Strip(text) !in keys
    ensures r.outcome.Activated? <==> Strip(text) in keys && Redeemable(keys[Strip(text)], today)
    ensures !r.outcome.Activated? ==> r.subscribers == t && r.keys == keys
    ensures r.outcome.Activated? ==>
      r.outcome.expires == today + PremiumDays
      && r.keys == KeyMarkedUsed(keys, Strip(text), chatId, now)
      && r.subscribers == PremiumUpserted(t, chatId, today + PremiumDays)
  {
    var code := Strip(text);
    if code !in keys then ActivationResult(t, keys, UnknownCode)
    else if !Redeemable(keys[code], today) then ActivationResult(t, keys, UsedOrExpired)
    else
      var expiry := today + PremiumDays;
      ActivationResult(PremiumUpserted(t, chatId, expiry), KeyMarkedUsed(keys, code, chatId, now), Activated(expiry))
  }

  /** A key works once: after a successful redemption, every later attempt
      with the same code, by anyone and on any day, is refused. */
  lemma KeyRedeemedOnce(t: SubscriberTable, keys: KeyTable, text: string, chatId: int, today: int, now: int,
                        text2: string, chatId2: int, today2: int, now2: int)
    requires Activate(t, keys, text, chatId, today, now).outcome.Activated?
    requires Strip(text2) == Strip(text)
    ensures var first := Activate(t, keys, text, chatId, today, now);
      Activate(first.subscribers, first.keys, text2, chatId2, today2, now2).outcome == UsedOrExpired
  {
  }

  /** A key that expires on `today` is still accepted, and the redeeming chat
      ends up premium until `today + 30`. */
  lemma KeyExpiringTodayAccepted(t: SubscriberTable, keys: KeyTable, text: string, chatId: int, today: int, now: int)
    requires Strip(text) in keys && !keys[Strip(text)].isUsed && keys[Strip(text)].expiresAt == Some(today)
    ensures var r := Activate(t, keys, text, chatId, today, now);
      r.outcome == Activated(today + PremiumDays)
      && r.subscribers[chatId].tier == Premium && r.subscribers[chatId].expiresAt == Some(today + PremiumDays)
      && r.keys[Strip(text)].usedByChat == Some(chatId)
  {
  }

  /** `handle_activation_code`; returns the conversation state and the
      outcome shown to the user. */
  method HandleActivationCode(db: Tables, text: string, chatId: int, today: int, now: int)
    returns (state: int, outcome: Activation)
    modifies db
    ensures state == ConversationEnd
    ensures ActivationResult(db.subscribers, db.premiumKeys, outcome)
      == Activate(old(db.subscribers), old(db.premiumKeys), text, chatId, today, now)
  {
    var code := Strip(text);
    if code !in db.premiumKeys {
      outcome := UnknownCode;
    } else {
      var key := db.premiumKeys[code];
      if key.isUsed || (key.expiresAt.Some? && key.expiresAt.value < today) {
        outcome := UsedOrExpired;
      } else {
        db.MarkKeyUsed(code, chatId, now);
        var expiry := today + PremiumDays;
        db.UpsertPremium(chatId, expiry);
        outcome := Activated(expiry);
      }
    }
    state := -1;
  }
}
