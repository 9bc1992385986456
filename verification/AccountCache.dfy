/** Billing checks over a cache of account records, with the locks of the sharded map behind it. The clock
    and the database contents are given with every operation: `now` is the reading and `db` what the
    database would answer at that moment (no entry: the fetch fails). Money is exact. */
module AccountCache {
  import opened Common

  datatype AccountType = Postpaid | Prepaid | Test | Internal

  datatype AccountStatus = Active | LowBalance | Suspended | Closed | UnderReview | GracePeriod

  datatype Account = Account(
    accountType: AccountType,
    status: AccountStatus,
    balance: real,
    creditLimit: Option<real>,
    gracePeriodEnd: Option<int>,
    minimumBalance: real)

  type Db = map<string, Account>

  datatype Cached = Cached(account: Account, cachedAt: int, expiresAt: int)

  datatype Stats = Stats(
    totalChecks: nat, approved: nat, blocked: nat,
    insufficientFunds: nat, suspendedBlocks: nat, creditLimitBlocks: nat, emergencyOverrides: nat,
    cacheHits: nat, cacheMisses: nat)

  /** The cache is a sharded map: `shardOf` says which shard a customer's record lives in, and `readersWait`
      whether a reader of a shard waits behind a writer that is already waiting for it. */
  datatype Config = Config(
    enabled: bool, cacheDuration: nat, allowEmergencyCalls: bool, emergencyNumbers: seq<string>,
    shardOf: string -> nat, readersWait: bool)

  /** `held` are the shards held for reading by lookups that will never return. */
  datatype Service = Service(cache: map<string, Cached>, stats: Stats, held: set<nat>)

  const NEW_SERVICE := Service(map[], Stats(0, 0, 0, 0, 0, 0, 0, 0, 0), {})

  /** An operation returns a value, or waits for a lock that is never released. */
  datatype Outcome<+T> = Returns(value: T) | Hangs

  datatype CheckResult =
    | Approved | InsufficientFunds | AccountSuspended | CreditLimitExceeded | AccountClosed | EmergencyAllowed

  // ---------- The cache ----------

  predicate Held(s: Service, cfg: Config, customer: string) {
    cfg.shardOf(customer) in s.held
  }

  predicate Expired(s: Service, customer: string, now: int) {
    customer in s.cache && now >= s.cache[customer].expiresAt
  }

  /** An expired record is removed while the guard that found it still holds its shard for reading, so the
      removal waits for its own caller: the lookup hangs and the shard stays held. */
  function GetAccountStatus(s: Service, cfg: Config, customer: string, now: int, db: Db):
    (Service, Outcome<Option<Account>>)
  {
    if Held(s, cfg, customer) && cfg.readersWait then (s, Hangs)
    else if Expired(s, customer, now) then (s.(held := s.held + {cfg.shardOf(customer)}), Hangs)
    else if customer in s.cache then
      (s.(stats := s.stats.(cacheHits := s.stats.cacheHits + 1)), Returns(Some(s.cache[customer].account)))
    else
      var missed := s.(stats := s.stats.(cacheMisses := s.stats.cacheMisses + 1));
      if customer !in db then (missed, Returns(None))
      else if Held(s, cfg, customer) then (missed, Hangs)
      else
        (missed.(cache := s.cache[customer := Cached(db[customer], now, now + cfg.cacheDuration)]),
         Returns(Some(db[customer])))
  }

  /** Whether it returns, too. */
  function Invalidate(s: Service, cfg: Config, customer: string): (Service, bool) {
    if Held(s, cfg, customer) then (s, false) else (s.(cache := s.cache - {customer}), true)
  }

  /** The shards are swept in order, up to the first that is held. */
  predicate SweepReaches(held: set<nat>, cfg: Config, customer: string) {
    forall h :: h in held ==> cfg.shardOf(customer) < h
  }

  function Cleanup(s: Service, cfg: Config, now: int): (Service, bool) {
    (s.(cache := map c | c in s.cache && !(Expired(s, c, now) && SweepReaches(s.held, cfg, c)) :: s.cache[c]),
     s.held == {})
  }

  // ---------- Authorization ----------

  function TrimStart(text: string, c: char): string {
    if text != "" && text[0] == c then TrimStart(text[1..], c) else text
  }

  predicate IsEmergencyNumber(cfg: Config, number: string) {
    TrimStart(TrimStart(number, '+'), '1') in cfg.emergencyNumbers || number in cfg.emergencyNumbers
  }

  function CheckCallFunds(account: Account, estimatedCost: real): CheckResult {
    match account.accountType
    case Prepaid =>
      if account.balance < estimatedCost then InsufficientFunds
      else if account.balance < account.minimumBalance then InsufficientFunds
      else Approved
    case Postpaid =>
      if account.creditLimit.None? then Approved
      else
        var currentDebt := -account.balance;
        var potentialDebt := currentDebt + estimatedCost;
        if potentialDebt > account.creditLimit.value then CreditLimitExceeded else Approved
    case _ => Approved
  }

  function JudgeAccount(account: Account, estimatedCost: real, now: int): CheckResult {
    match account.status
    case Closed => AccountClosed
    case Suspended => AccountSuspended
    case UnderReview => AccountSuspended
    case GracePeriod =>
      if account.gracePeriodEnd.Some? && now > account.gracePeriodEnd.value then AccountSuspended
      else CheckCallFunds(account, estimatedCost)
    case _ => CheckCallFunds(account, estimatedCost)
  }

  function CountResult(stats: Stats, result: CheckResult): Stats {
    match result
    case Approved => stats.(approved := stats.approved + 1)
    case InsufficientFunds => stats.(blocked := stats.blocked + 1, insufficientFunds := stats.insufficientFunds + 1)
    case AccountSuspended => stats.(blocked := stats.blocked + 1, suspendedBlocks := stats.suspendedBlocks + 1)
    case CreditLimitExceeded => stats.(blocked := stats.blocked + 1, creditLimitBlocks := stats.creditLimitBlocks + 1)
    case AccountClosed => stats.(blocked := stats.blocked + 1)
    case EmergencyAllowed => stats
  }

  datatype Request = Request(customer: string, toNumber: string, estimatedCost: real, isEmergency: bool)

  predicate EmergencyPasses(cfg: Config, r: Request) {
    (r.isEmergency || IsEmergencyNumber(cfg, r.toNumber)) && cfg.allowEmergencyCalls
  }

  /** A call that is not checked against an account: checks are off, or it is an emergency. */
  predicate PassesUnread(cfg: Config, r: Request) {
    !cfg.enabled || EmergencyPasses(cfg, r)
  }

  function CountCheck(s: Service): Service {
    s.(stats := s.stats.(totalChecks := s.stats.totalChecks + 1))
  }

  function CountEmergency(s: Service): Service {
    s.(stats := s.stats.(emergencyOverrides := s.stats.emergencyOverrides + 1, approved := s.stats.approved + 1))
  }

  function Authorize(s: Service, cfg: Config, r: Request, now: int, db: Db): (Service, Outcome<CheckResult>) {
    if !cfg.enabled then (s, Returns(Approved))
    else if EmergencyPasses(cfg, r) then (CountEmergency(CountCheck(s)), Returns(EmergencyAllowed))
    else CheckAccount(CountCheck(s), cfg, r, now, db)
  }

  /** A check that is neither switched off nor passed as an emergency, after it was counted. */
  function CheckAccount(s: Service, cfg: Config, r: Request, now: int, db: Db): (Service, Outcome<CheckResult>) {
    var (read, account) := GetAccountStatus(s, cfg, r.customer, now, db);
    if account.Hangs? then (read, Hangs)
    else
      var (concluded, result) := Conclude(read, account.value, r.estimatedCost, now);
      (concluded, Returns(result))
  }

  function Conclude(s: Service, account: Option<Account>, estimatedCost: real, now: int): (Service, CheckResult) {
    var result := if account.None? then AccountClosed else JudgeAccount(account.value, estimatedCost, now);
    (s.(stats := CountResult(s.stats, result)), result)
  }

  class BillingService {
    const config: Config
    var accountCache: map<string, Cached>
    var stats: Stats
    var held: set<nat>

    ghost function View(): Service
      reads this
    {
      Service(accountCache, stats, held)
    }

    constructor (config: Config)
      ensures this.config == config && View() == NEW_SERVICE
    {
      this.config := config;
      accountCache := map[];
      stats := Stats(0, 0, 0, 0, 0, 0, 0, 0, 0);
      held := {};
    }

    method AccountStatusOf(customer: string, now: int, db: Db) returns (account: Outcome<Option<Account>>)
      modifies this
      ensures (View(), account) == GetAccountStatus(old(View()), config, customer, now, db)
    {
      var shard := config.shardOf(customer);
      if shard in held && config.readersWait {
        return Hangs;
      }
      if customer in accountCache {
        var cached := accountCache[customer];
        if now < cached.expiresAt {
          stats := stats.(cacheHits := stats.cacheHits + 1);
          return Returns(Some(cached.account));
        } else {
          held := held + {shard};
          return Hangs;
        }
      }
      stats := stats.(cacheMisses := stats.cacheMisses + 1);
      if customer !in db {
        return Returns(None);
      }
      if shard in held {
        return Hangs;
      }
      accountCache := accountCache[customer := Cached(db[customer], now, now + config.cacheDuration)];
      account := Returns(Some(db[customer]));
    }

    method InvalidateAccountCache(customer: string) returns (returned: bool)
      modifies this`accountCache
      ensures (View(), returned) == Invalidate(old(View()), config, customer)
    {
      returned := config.shardOf(customer) !in held;
      if returned {
        accountCache := accountCache - {customer};
      }
    }

    method CleanupExpiredCache(now: int) returns (returned: bool)
      modifies this`accountCache
      ensures (View(), returned) == Cleanup(old(View()), config, now)
    {
      returned := held == {};
      accountCache := map c | c in accountCache &&
          !(now >= accountCache[c].expiresAt && SweepReaches(held, config, c)) :: accountCache[c];
      assert accountCache == Cleanup(old(View()), config, now).0.cache;
    }

    method CheckCallAuthorization(r: Request, now: int, db: Db) returns (result: Outcome<CheckResult>)
      modifies this
      ensures (View(), result) == Authorize(old(View()), config, r, now, db)
    {
      if !config.enabled {
        return Returns(Approved);
      }
      stats := stats.(totalChecks := stats.totalChecks + 1);
      if r.isEmergency || IsEmergencyNumber(config, r.toNumber) {
        if config.allowEmergencyCalls {
          stats := stats.(emergencyOverrides := stats.emergencyOverrides + 1, approved := stats.approved + 1);
          return Returns(EmergencyAllowed);
        }
      }
      var account := AccountStatusOf(r.customer, now, db);
      if account.Hangs? {
        return Hangs;
      }
      if account.value.None? {
        stats := stats.(blocked := stats.blocked + 1);
        return Returns(AccountClosed);
      }
      var verdict := JudgeAccount(account.value.value, r.estimatedCost, now);
      stats := CountResult(stats, verdict);
      result := Returns(verdict);
    }
  }
}
