/** The `/start`, `/status` and `/grant_premium` commands over the
    subscriber table. */
module Commands {
  import opened Wrappers
  import opened Text
  import opened Queries
  import opened Base

  // ---------------------------------------------------------------------
  // /start

  datatype Greeting =
    | WelcomeBack(expires: int)
    | FreeWelcome(limit: Option<int>, count: Option<int>)

  /** A premium row whose expiry is known and not before `today`. */
  predicate PremiumValid(row: Subscriber, today: int)
  {
    row.tier == Premium && row.expiresAt.Some? && row.expiresAt.value >= today
  }

  /** `reset_usage`: no reset date yet, or one before today. */
  predicate NeedsReset(row: Subscriber, today: int)
  {
    row.lastUsageReset.None? || row.lastUsageReset.value < today
  }

  /** The body of `start` on the table as the downgrade left it. */
  function StartBody(t: SubscriberTable, chatId: int, p: Profile, today: int, now: int): (r: SubscriberTable)
    ensures r.Keys == t.Keys + {chatId}
    ensures forall id :: id in t && id != chatId ==> r[id] == t[id]
  {
    if chatId in t then
      var row := t[chatId];
      if PremiumValid(row, today) then ProfileUpdated(t, chatId, p)
      else FreeUpdated(t, chatId, p, NeedsReset(row, today), today)
    else Inserted(t, chatId, p, today, now)
  }

  /** The subscriber table after `/start`, downgrade included. */
  function StartTable(t: SubscriberTable, chatId: int, p: Profile, today: int, now: int): SubscriberTable
  {
    StartBody(Downgraded(t, chatId, today), chatId, p, today, now)
  }

  /** The reply `start` sends as the code is written: on the free path it
      shows the `usage_limit` and `usage_count` read BEFORE the update. */
  function GreetingAsWritten(t: SubscriberTable, chatId: int, today: int): Greeting
  {
    var d := Downgraded(t, chatId, today);
    if chatId in d then
      var row := d[chatId];
      if PremiumValid(row, today) then WelcomeBack(row.expiresAt.value)
      else FreeWelcome(row.usageLimit, row.usageCount)
    else FreeWelcome(Some(FreeDailyLimit), Some(0))
  }

  /** The reply evidently intended: the limit and count the subscriber has
      after `/start`. */
  function StartGreeting(t: SubscriberTable, chatId: int, p: Profile, today: int, now: int): (reply: Greeting)
    ensures var after := StartTable(t, chatId, p, today, now);
      reply.FreeWelcome? ==> reply == FreeWelcome(after[chatId].usageLimit, after[chatId].usageCount)
  {
    var d := Downgraded(t, chatId, today);
    var after := StartTable(t, chatId, p, today, now);
    if chatId in d && PremiumValid(d[chatId], today) then WelcomeBack(d[chatId].expiresAt.value)
    else FreeWelcome(after[chatId].usageLimit, after[chatId].usageCount)
  }

  /** A free subscriber whose last reset was yesterday, with 7 credits used:
      `/start` zeroes the stored count, but the reply as written still says 7
      (and the corrected reply says 0). */
  lemma GreetingStale()
    ensures var row := Subscriber(NoProfile, Free, Some(15), Some(7), Some(99), None, None, Some(true));
      var t := map[1 := row];
      StartTable(t, 1, NoProfile, 100, 0)[1].usageCount == Some(0)
      && GreetingAsWritten(t, 1, 100) == FreeWelcome(Some(15), Some(7))
      && StartGreeting(t, 1, NoProfile, 100, 0) == FreeWelcome(Some(15), Some(0))
  {
    var row := Subscriber(NoProfile, Free, Some(15), Some(7), Some(99), None, None, Some(true));
    var t := map[1 := row];
    assert Downgraded(t, 1, 100) == t;
  }

  /** The reply as written and the corrected reply differ only on the free
      path of an existing row whose limit was not 15, or whose count was
      non-zero and is reset by this `/start`. */
  lemma GreetingsAgree(t: SubscriberTable, chatId: int, p: Profile, today: int, now: int)
    ensures var d := Downgraded(t, chatId, today);
      GreetingAsWritten(t, chatId, today) == StartGreeting(t, chatId, p, today, now) <==>
        (chatId !in d || PremiumValid(d[chatId], today)
         || (d[chatId].usageLimit == Some(FreeDailyLimit)
             && (!NeedsReset(d[chatId], today) || d[chatId].usageCount == Some(0))))
  {
  }

  /** On the free path the corrected reply always shows the free limit, and a
      zero count whenever the day's reset happened. */
  lemma GreetingShowsStored(t: SubscriberTable, chatId: int, p: Profile, today: int, now: int)
    ensures var d := Downgraded(t, chatId, today);
      var reply := StartGreeting(t, chatId, p, today, now);
      (chatId !in d || !PremiumValid(d[chatId], today)) ==>
        reply.FreeWelcome? && reply.limit == Some(FreeDailyLimit)
        && (chatId !in d || NeedsReset(d[chatId], today) ==> reply.count == Some(0))
  {
  }

  /** A premium subscriber whose expiry is today or later only gets the
      profile refreshed; tier, usage and expiry stay. */
  lemma StartKeepsValidPremium(t: SubscriberTable, chatId: int, p: Profile, today: int, now: int)
    requires chatId in t && PremiumValid(t[chatId], today)
    ensures StartTable(t, chatId, p, today, now) == t[chatId := t[chatId].(profile := p, isActive := Some(true))]
    ensures StartGreeting(t, chatId, p, today, now) == WelcomeBack(t[chatId].expiresAt.value)
  {
    DowngradedKeeps(t, chatId, today);
  }

  /** Every other known subscriber, a premium one with no expiry included,
      ends up free with the free limit; the count is zeroed and the reset
      date set exactly when the last reset is missing or before today. */
  lemma StartMakesFree(t: SubscriberTable, chatId: int, p: Profile, today: int, now: int)
    requires chatId in t && !PremiumValid(t[chatId], today)
    ensures var row := StartTable(t, chatId, p, today, now)[chatId];
      row.tier == Free && row.usageLimit == Some(FreeDailyLimit) && row.isActive == Some(true)
      && (NeedsReset(t[chatId], today) ==> row.usageCount == Some(0) && row.lastUsageReset == Some(today))
      && (!NeedsReset(t[chatId], today) ==>
            row.usageCount == t[chatId].usageCount && row.lastUsageReset == t[chatId].lastUsageReset)
  {
    var d := Downgraded(t, chatId, today);
    assert d[chatId].lastUsageReset == t[chatId].lastUsageReset && d[chatId].usageCount == t[chatId].usageCount;
    assert !PremiumValid(d[chatId], today);
  }

  /** An unknown chat gets a fresh free row: count 0, limit 15, reset today. */
  lemma StartRegisters(t: SubscriberTable, chatId: int, p: Profile, today: int, now: int)
    requires chatId !in t
    ensures StartTable(t, chatId, p, today, now)[chatId] == NewFreeRow(p, today, now)
    ensures StartGreeting(t, chatId, p, today, now) == FreeWelcome(Some(FreeDailyLimit), Some(0))
  {
  }

  /** Credits spent after a `/start` are not given back by a second `/start`
      on the same day. */
  lemma StartTwiceSameDay(t: SubscriberTable, chatId: int, p: Profile, p2: Profile, today: int, now: int, now2: int)
    ensures var t1 := Consumed(StartTable(t, chatId, p, today, now), chatId).0;
      chatId in t1 && StartTable(t1, chatId, p2, today, now2)[chatId].usageCount == t1[chatId].usageCount
  {
    var t0 := StartTable(t, chatId, p, today, now);
    var t1 := Consumed(t0, chatId).0;
    var d := Downgraded(t, chatId, today);
    assert chatId in t0;
    if chatId in d && PremiumValid(d[chatId], today) {
      assert t0[chatId].tier == Premium;
      assert t1 == t0;
      assert PremiumValid(t1[chatId], today);
    } else {
      assert t0[chatId].lastUsageReset.Some? && t0[chatId].lastUsageReset.value >= today;
      assert t1[chatId].lastUsageReset == t0[chatId].lastUsageReset;
      assert !NeedsReset(Downgraded(t1, chatId, today)[chatId], today);
    }
  }

  /** `/start` keeps the usage invariant. */
  lemma StartUsageSane(t: SubscriberTable, chatId: int, p: Profile, today: int, now: int)
    requires UsageSane(t)
    ensures UsageSane(StartTable(t, chatId, p, today, now))
  {
    DowngradedUsageSane(t, chatId, today);
    var d := Downgraded(t, chatId, today);
    StatementsKeepUsageSane(d, chatId, p, chatId in d && NeedsReset(d[chatId], today), today, now);
  }

  /** `start`, decorated with the subscription check. */
  method Start(db: Tables, chatId: int, p: Profile, today: int, now: int) returns (reply: Greeting)
    modifies db
    ensures db.subscribers == StartTable(old(db.subscribers), chatId, p, today, now)
    ensures reply == StartGreeting(old(db.subscribers), chatId, p, today, now)
    ensures db.premiumKeys == old(db.premiumKeys)
  {
    WithSubscriptionCheck(db, chatId, today);
    if chatId in db.subscribers {
      var row := db.subscribers[chatId];
      if row.tier == Premium && row.expiresAt.Some? && row.expiresAt.value >= today {
        db.UpdateProfile(chatId, p);
        reply := WelcomeBack(row.expiresAt.value);
        return;
      }
      var reset := row.lastUsageReset.None? || row.lastUsageReset.value < today;
      db.UpdateFree(chatId, p, reset, today);
    } else {
      db.Insert(chatId, p, today, now);
    }
    var stored := db.subscribers[chatId];
    reply := FreeWelcome(stored.usageLimit, stored.usageCount);
  }

  // ---------------------------------------------------------------------
  // /status

  datatype StatusReply =
    | NotRegistered
    | Inactive
    | PremiumStatus(expires: Option<int>)
    | FreeStatus(count: Option<int>, limit: Option<int>)

  /** The branch `status` takes for the row it reads. */
  function StatusOf(t: SubscriberTable, chatId: int): (reply: StatusReply)
    ensures reply == NotRegistered <==> chatId !in t
    ensures reply == Inactive <==> chatId in t && t[chatId].isActive != Some(true)
    ensures reply.PremiumStatus? ==> t[chatId].tier == Premium && reply.expires == t[chatId].expiresAt
    ensures reply.FreeStatus? ==> t[chatId].tier.Free?
    ensures reply.FreeStatus? ==> reply.count == t[chatId].usageCount
    ensures reply.FreeStatus? ==> reply.limit == t[chatId].usageLimit
  {
    if chatId !in t then NotRegistered
    else
      var row := t[chatId];
      if row.isActive != Some(true) then Inactive
      else if row.tier.Premium? then PremiumStatus(row.expiresAt)
      else FreeStatus(row.usageCount, row.usageLimit)
  }

  /** Because the downgrade runs first, `/status` never reports a premium
      subscription that expired before today. */
  lemma StatusNeverShowsExpired(t: SubscriberTable, chatId: int, today: int)
    ensures var reply := StatusOf(Downgraded(t, chatId, today), chatId);
      reply.PremiumStatus? && reply.expires.Some? ==> reply.expires.value >= today
  {
  }

  /** `status`, decorated with the subscription check. */
  method Status(db: Tables, chatId: int, today: int) returns (reply: StatusReply)
    modifies db
    ensures db.subscribers == Downgraded(old(db.subscribers), chatId, today)
    ensures reply == StatusOf(db.subscribers, chatId)
    ensures db.premiumKeys == old(db.premiumKeys)
  {
    WithSubscriptionCheck(db, chatId, today);
    if chatId !in db.subscribers {
      return NotRegistered;
    }
    var row := db.subscribers[chatId];
    if row.isActive != Some(true) {
      return Inactive;
    }
    if row.tier == Premium {
      reply := PremiumStatus(row.expiresAt);
    } else {
      reply := FreeStatus(row.usageCount, row.usageLimit);
    }
  }

  // ---------------------------------------------------------------------
  // /grant_premium

  datatype GrantReply = GrantUsage | GrantInvalid | Granted(chatId: int)

  /** The UPDATE of `grant_premium`: premium for 30 days, no limit, count 0. */
  function PremiumGranted(t: SubscriberTable, chatId: int, today: int): (r: SubscriberTable)
    ensures r.Keys == t.Keys
    ensures forall id :: id in t && id != chatId ==> r[id] == t[id]
    ensures chatId in t ==>
      r[chatId] == t[chatId].(tier := Premium, usageLimit := None, usageCount := Some(0),
                              expiresAt := Some(today + PremiumDays))
  {
    if chatId in t then
      t[chatId := t[chatId].(tier := Premium, usageLimit := None, usageCount := Some(0), expiresAt := Some(today + PremiumDays))]
    else t
  }

  /** `grant_premium` with the command arguments `args`: the reply and the
      table after it. */
  function Grant(t: SubscriberTable, args: seq<string>, today: int): (r: (GrantReply, SubscriberTable))
    ensures args == [] ==> r == (GrantUsage, t)
    ensures args != [] && ParseInt(args[0]).None? ==> r == (GrantInvalid, t)
    ensures r.0.Granted? ==>
      args != [] && ParseInt(args[0]) == Some(r.0.chatId) && r.1 == PremiumGranted(t, r.0.chatId, today)
  {
    if args == [] then (GrantUsage, t)
    else
      match ParseInt(args[0])
      case None => (GrantInvalid, t)
      case Some(id) => (Granted(id), PremiumGranted(t, id, today))
  }

  /** Granting to a chat id written in decimal reaches that chat; an active
      subscriber then shows as premium until `today + 30`. */
  lemma GrantThenStatus(t: SubscriberTable, chatId: int, rest: seq<string>, today: int)
    requires chatId in t && t[chatId].isActive == Some(true)
    ensures var r := Grant(t, [IntToString(chatId)] + rest, today);
      r.0 == Granted(chatId) && StatusOf(r.1, chatId) == PremiumStatus(Some(today + PremiumDays))
  {
    ParseIntRoundTrip(chatId);
    assert ([IntToString(chatId)] + rest)[0] == IntToString(chatId);
  }

  /** Granting to a chat that has no row changes nothing, though the reply
      still announces the upgrade. */
  lemma GrantUnknownChat(t: SubscriberTable, chatId: int, rest: seq<string>, today: int)
    requires chatId !in t
    ensures Grant(t, [IntToString(chatId)] + rest, today) == (Granted(chatId), t)
  {
    ParseIntRoundTrip(chatId);
    assert ([IntToString(chatId)] + rest)[0] == IntToString(chatId);
  }

  /** The grant keeps the usage invariant. */
  lemma GrantUsageSane(t: SubscriberTable, args: seq<string>, today: int)
    requires UsageSane(t)
    ensures UsageSane(Grant(t, args, today).1)
  {
  }

  /** `grant_premium`. */
  method GrantPremium(db: Tables, args: seq<string>, today: int) returns (reply: GrantReply)
    modifies db
    ensures (reply, db.subscribers) == Grant(old(db.subscribers), args, today)
    ensures db.premiumKeys == old(db.premiumKeys)
  {
    if args == [] {
      return GrantUsage;
    }
    var parsed := ParseInt(args[0]);
    if parsed.None? {
      return GrantInvalid;
    }
    var chatId := parsed.value;
    db.subscribers := PremiumGranted(db.subscribers, chatId, today);
    reply := Granted(chatId);
  }
}
