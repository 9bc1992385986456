/** Runs of the billing service: which operations return, how old answers can be, what is counted, and
    what sweeping changes. Every operation runs until it returns or waits for good. */
module AccountRuns {
  import opened Common
  import opened AccountCache

  datatype Op = Read(customer: string) | Check(request: Request) | Forget(customer: string) | Sweep

  /** An operation, the clock reading it takes, and the database at that moment. */
  datatype Entry = Entry(op: Op, now: int, db: Db)

  datatype Answer = Status(account: Option<Account>) | Verdict(result: CheckResult) | Done | Hung

  function Step(s: Service, cfg: Config, e: Entry): (Service, Answer) {
    match e.op
    case Read(customer) =>
      var (s', account) := GetAccountStatus(s, cfg, customer, e.now, e.db);
      (s', if account.Hangs? then Hung else Status(account.value))
    case Check(request) =>
      var (s', result) := Authorize(s, cfg, request, e.now, e.db);
      (s', if result.Hangs? then Hung else Verdict(result.value))
    case Forget(customer) =>
      var (s', returned) := Invalidate(s, cfg, customer);
      (s', if returned then Done else Hung)
    case Sweep =>
      var (s', returned) := Cleanup(s, cfg, e.now);
      (s', if returned then Done else Hung)
  }

  /** The service after the first i entries of a trace. */
  function StateAt(cfg: Config, trace: seq<Entry>, i: nat): Service
    requires i <= |trace|
  {
    if i == 0 then NEW_SERVICE else Step(StateAt(cfg, trace, i - 1), cfg, trace[i - 1]).0
  }

  function AnswerAt(cfg: Config, trace: seq<Entry>, i: nat): Answer
    requires i < |trace|
  {
    Step(StateAt(cfg, trace, i), cfg, trace[i]).1
  }

  ghost predicate ClockForward(trace: seq<Entry>) {
    forall i, j :: 0 <= i < j < |trace| ==> trace[i].now <= trace[j].now
  }

  /** The customer whose record the operation looks up, if it looks one up. */
  function LookedUp(cfg: Config, op: Op): Option<string> {
    match op
    case Read(customer) => Some(customer)
    case Check(r) => if PassesUnread(cfg, r) then None else Some(r.customer)
    case _ => None
  }

  // ---------- Which lookups return ----------

  /** The entry that fetched the record cached for the customer, told from the entries alone: the first
      lookup that found the customer in the database, until the customer is forgotten or a sweep comes
      after the record has expired. */
  function FetchedBy(cfg: Config, trace: seq<Entry>, i: nat, customer: string): (j: Option<nat>)
    requires i <= |trace|
    ensures j.Some? ==> j.value < i && customer in trace[j.value].db
  {
    if i == 0 then None
    else
      var before, e := FetchedBy(cfg, trace, i - 1, customer), trace[i - 1];
      if e.op == Forget(customer) then None
      else if e.op.Sweep? && before.Some? && e.now >= trace[before.value].now + cfg.cacheDuration then None
      else if before.None? && LookedUp(cfg, e.op) == Some(customer) && customer in e.db then Some(i - 1)
      else before
  }

  /** Entry i looks up a customer whose record has expired and was neither swept nor forgotten since. */
  ghost predicate FindsStale(cfg: Config, trace: seq<Entry>, i: nat)
    requires i < |trace|
  {
    var customer := LookedUp(cfg, trace[i].op);
    customer.Some?
    && var fetched := FetchedBy(cfg, trace, i, customer.value);
       fetched.Some? && trace[i].now >= trace[fetched.value].now + cfg.cacheDuration
  }

  /** The cache is what the entries say it is, and no shard is held. */
  ghost predicate CacheAsFetched(s: Service, cfg: Config, trace: seq<Entry>, i: nat)
    requires i <= |trace|
  {
    && s.held == {}
    && (forall c :: c in s.cache <==> FetchedBy(cfg, trace, i, c).Some?)
    && (forall c :: c in s.cache ==> s.cache[c] == RecordOf(cfg, trace[FetchedBy(cfg, trace, i, c).value], c))
  }

  function RecordOf(cfg: Config, e: Entry, customer: string): Cached
    requires customer in e.db
  {
    Cached(e.db[customer], e.now, e.now + cfg.cacheDuration)
  }

  /** As long as no shard is held, an operation hangs exactly when it looks up an expired record. */
  lemma HangsExactly(s: Service, cfg: Config, e: Entry)
    requires s.held == {}
    ensures Step(s, cfg, e).1.Hung? <==>
            LookedUp(cfg, e.op).Some? && Expired(s, LookedUp(cfg, e.op).value, e.now)
    ensures !Step(s, cfg, e).1.Hung? ==> Step(s, cfg, e).0.held == {}
  {
  }

  lemma {:induction false} StaleIsExpired(cfg: Config, trace: seq<Entry>, i: nat)
    requires i < |trace| && CacheAsFetched(StateAt(cfg, trace, i), cfg, trace, i)
    ensures AnswerAt(cfg, trace, i).Hung? <==> FindsStale(cfg, trace, i)
  {
    HangsExactly(StateAt(cfg, trace, i), cfg, trace[i]);
    var customer := LookedUp(cfg, trace[i].op);
    if customer.Some? {
      assert customer.value in StateAt(cfg, trace, i).cache <==> FetchedBy(cfg, trace, i, customer.value).Some?;
    }
  }

  function CachedFor(s: Service, customer: string): Option<Cached> {
    if customer in s.cache then Some(s.cache[customer]) else None
  }

  /** What an operation that returns leaves cached for a customer, with no shard held. */
  lemma StepCaches(s: Service, cfg: Config, e: Entry, customer: string)
    requires s.held == {} && !Step(s, cfg, e).1.Hung?
    ensures CachedFor(Step(s, cfg, e).0, customer) ==
            if e.op == Forget(customer) then None
            else if e.op.Sweep? && Expired(s, customer, e.now) then None
            else if customer !in s.cache && LookedUp(cfg, e.op) == Some(customer) && customer in e.db
            then Some(RecordOf(cfg, e, customer))
            else CachedFor(s, customer)
  {
  }

  lemma {:induction false} CacheFollows(cfg: Config, trace: seq<Entry>, i: nat)
    requires i < |trace| && CacheAsFetched(StateAt(cfg, trace, i), cfg, trace, i)
    requires !AnswerAt(cfg, trace, i).Hung?
    ensures CacheAsFetched(StateAt(cfg, trace, i + 1), cfg, trace, i + 1)
  {
    var s, s' := StateAt(cfg, trace, i), StateAt(cfg, trace, i + 1);
    HangsExactly(s, cfg, trace[i]);
    forall c
      ensures c in s'.cache <==> FetchedBy(cfg, trace, i + 1, c).Some?
      ensures c in s'.cache ==> s'.cache[c] == RecordOf(cfg, trace[FetchedBy(cfg, trace, i + 1, c).value], c)
    {
      CustomerFollows(cfg, trace, i, c);
    }
  }

  lemma {:induction false} CustomerFollows(cfg: Config, trace: seq<Entry>, i: nat, customer: string)
    requires i < |trace| && StateAt(cfg, trace, i).held == {} && !AnswerAt(cfg, trace, i).Hung?
    requires RecordFollows(StateAt(cfg, trace, i), cfg, trace, i, customer)
    ensures RecordFollows(StateAt(cfg, trace, i + 1), cfg, trace, i + 1, customer)
  {
    StepCaches(StateAt(cfg, trace, i), cfg, trace[i], customer);
  }

  ghost predicate RecordFollows(s: Service, cfg: Config, trace: seq<Entry>, i: nat, customer: string)
    requires i <= |trace|
  {
    var fetched := FetchedBy(cfg, trace, i, customer);
    CachedFor(s, customer) == if fetched.Some? then Some(RecordOf(cfg, trace[fetched.value], customer)) else None
  }

  lemma {:induction false} NoneStaleBefore(cfg: Config, trace: seq<Entry>, i: nat)
    requires i <= |trace| && forall k :: 0 <= k < i ==> !FindsStale(cfg, trace, k)
    ensures CacheAsFetched(StateAt(cfg, trace, i), cfg, trace, i)
    ensures forall k :: 0 <= k < i ==> !AnswerAt(cfg, trace, k).Hung?
  {
    if i > 0 {
      NoneStaleBefore(cfg, trace, i - 1);
      StaleIsExpired(cfg, trace, i - 1);
      CacheFollows(cfg, trace, i - 1);
    }
  }

  lemma {:induction false} NoneHungBefore(cfg: Config, trace: seq<Entry>, i: nat)
    requires i <= |trace| && forall k :: 0 <= k < i ==> !AnswerAt(cfg, trace, k).Hung?
    ensures CacheAsFetched(StateAt(cfg, trace, i), cfg, trace, i)
    ensures forall k :: 0 <= k < i ==> !FindsStale(cfg, trace, k)
  {
    if i > 0 {
      NoneHungBefore(cfg, trace, i - 1);
      StaleIsExpired(cfg, trace, i - 1);
      CacheFollows(cfg, trace, i - 1);
    }
  }

  /** Every operation of a run returns if and only if no lookup finds a record that has expired and was
      neither swept nor forgotten since. */
  lemma {:induction false} AllReturnExactly(cfg: Config, trace: seq<Entry>)
    ensures (forall i :: 0 <= i < |trace| ==> !AnswerAt(cfg, trace, i).Hung?) <==>
            (forall i :: 0 <= i < |trace| ==> !FindsStale(cfg, trace, i))
  {
    if forall i :: 0 <= i < |trace| ==> !AnswerAt(cfg, trace, i).Hung? {
      NoneHungBefore(cfg, trace, |trace|);
    }
    if forall i :: 0 <= i < |trace| ==> !FindsStale(cfg, trace, i) {
      NoneStaleBefore(cfg, trace, |trace|);
    }
  }

  // ---------- What invalidations and sweeps do ----------

  /** An invalidation that returns takes away exactly the customer's record. */
  lemma ForgetExactly(s: Service, cfg: Config, customer: string)
    ensures var (s', returned) := Invalidate(s, cfg, customer);
            && (returned <==> cfg.shardOf(customer) !in s.held)
            && (forall c :: CachedFor(s', c) == if returned && c == customer then None else CachedFor(s, c))
            && s'.stats == s.stats && s'.held == s.held
  {
  }

  /** A sweep returns exactly if no shard is held, and then exactly the expired records are gone. With a shard
      held it clears the shards before the first held one and no other. */
  lemma SweepExactly(s: Service, cfg: Config, now: int)
    ensures var (s', returned) := Cleanup(s, cfg, now);
            && (returned <==> s.held == {})
            && (forall c :: CachedFor(s', c) ==
                  if c in s.cache && s.cache[c].expiresAt <= now && (forall h :: h in s.held ==> cfg.shardOf(c) < h)
                  then None else CachedFor(s, c))
            && s'.stats == s.stats && s'.held == s.held
  {
  }

  // ---------- What the answers are ----------

  /** A lookup that returns gives the cached account if there is one, else the database's, else none. */
  lemma LookupExactly(s: Service, cfg: Config, customer: string, now: int, db: Db)
    ensures var answer := GetAccountStatus(s, cfg, customer, now, db).1;
            answer.Returns? ==>
              answer.value == if customer in s.cache then Some(s.cache[customer].account)
                              else if customer in db then Some(db[customer]) else None
  {
  }

  /** The account that entry i reads: what the database held at the entry that fetched the cached record, or
      holds now if none is cached. */
  function AccountRead(cfg: Config, trace: seq<Entry>, i: nat, customer: string): Option<Account>
    requires i < |trace|
  {
    var fetched := FetchedBy(cfg, trace, i, customer);
    if fetched.Some? then Some(trace[fetched.value].db[customer])
    else if customer in trace[i].db then Some(trace[i].db[customer])
    else None
  }

  /** In a run that has returned throughout, every read answers exactly that account, and every check of an
      account is the verdict on exactly that account, or that it is closed if there is none. */
  lemma {:induction false} AnswersExactly(cfg: Config, trace: seq<Entry>, i: nat)
    requires i < |trace| && forall k :: 0 <= k <= i ==> !AnswerAt(cfg, trace, k).Hung?
    ensures match trace[i].op
            case Read(customer) => AnswerAt(cfg, trace, i) == Status(AccountRead(cfg, trace, i, customer))
            case Check(r) =>
              !PassesUnread(cfg, r) ==>
                var account := AccountRead(cfg, trace, i, r.customer);
                AnswerAt(cfg, trace, i) ==
                  Verdict(if account.None? then AccountClosed else JudgeAccount(account.value, r.estimatedCost, trace[i].now))
            case _ => AnswerAt(cfg, trace, i) == Done
  {
    NoneHungBefore(cfg, trace, i);
    var s, e := StateAt(cfg, trace, i), trace[i];
    match e.op
    case Read(customer) => CachedIsRead(cfg, trace, i, customer);
    case Check(r) =>
      if !PassesUnread(cfg, r) {
        CachedIsRead(cfg, trace, i, r.customer);
        CheckReads(s, cfg, r, e.now, e.db);
      }
    case _ =>
  }

  lemma {:induction false} CachedIsRead(cfg: Config, trace: seq<Entry>, i: nat, customer: string)
    requires i < |trace| && CacheAsFetched(StateAt(cfg, trace, i), cfg, trace, i)
    ensures var s, e := StateAt(cfg, trace, i), trace[i];
            var answer := GetAccountStatus(s, cfg, customer, e.now, e.db).1;
            answer.Returns? ==> answer.value == AccountRead(cfg, trace, i, customer)
  {
    var s, e := StateAt(cfg, trace, i), trace[i];
    assert customer in s.cache <==> FetchedBy(cfg, trace, i, customer).Some?;
    LookupExactly(s, cfg, customer, e.now, e.db);
  }

  /** A check reads the account a lookup would, and judges it. */
  lemma CheckReads(s: Service, cfg: Config, r: Request, now: int, db: Db)
    requires !PassesUnread(cfg, r)
    ensures var answer, result := GetAccountStatus(s, cfg, r.customer, now, db).1, Authorize(s, cfg, r, now, db).1;
            && (answer.Hangs? <==> result.Hangs?)
            && (answer.Returns? ==>
                  result == Returns(if answer.value.None? then AccountClosed
                                    else JudgeAccount(answer.value.value, r.estimatedCost, now)))
  {
  }

  // ---------- After a hang ----------

  /** An expired record in a held shard. */
  ghost predicate Stuck(s: Service, cfg: Config, customer: string, now: int) {
    Expired(s, customer, now) && Held(s, cfg, customer)
  }

  lemma StaleLookupSticks(s: Service, cfg: Config, e: Entry, customer: string)
    requires LookedUp(cfg, e.op) == Some(customer) && Expired(s, customer, e.now)
    ensures Step(s, cfg, e).1.Hung? && Stuck(Step(s, cfg, e).0, cfg, customer, e.now)
  {
  }

  /** What can no longer return: a lookup of the customer, an invalidation in its shard, any sweep. */
  ghost predicate NeedsShard(cfg: Config, op: Op, customer: string) {
    || LookedUp(cfg, op) == Some(customer)
    || (op.Forget? && cfg.shardOf(op.customer) == cfg.shardOf(customer))
    || op.Sweep?
  }

  lemma StuckStaysStuck(s: Service, cfg: Config, e: Entry, customer: string)
    requires Stuck(s, cfg, customer, e.now)
    ensures Stuck(Step(s, cfg, e).0, cfg, customer, e.now)
    ensures NeedsShard(cfg, e.op, customer) ==> Step(s, cfg, e).1.Hung?
  {
  }

  lemma {:induction false} StuckFrom(cfg: Config, trace: seq<Entry>, i: nat, j: nat, customer: string)
    requires i < j < |trace| && ClockForward(trace)
    requires LookedUp(cfg, trace[i].op) == Some(customer) && Expired(StateAt(cfg, trace, i), customer, trace[i].now)
    ensures Stuck(StateAt(cfg, trace, j), cfg, customer, trace[j].now)
    decreases j
  {
    if j == i + 1 {
      StaleLookupSticks(StateAt(cfg, trace, i), cfg, trace[i], customer);
    } else {
      StuckFrom(cfg, trace, i, j - 1, customer);
      StuckStaysStuck(StateAt(cfg, trace, j - 1), cfg, trace[j - 1], customer);
    }
  }

  /** One lookup of an expired record is final: with a clock that never runs backwards, that customer is
      never looked up successfully again, no invalidation in its shard returns, and no sweep does, in
      whatever way readers and writers share the locks. */
  lemma {:induction false} StaleLookupIsFinal(cfg: Config, trace: seq<Entry>, i: nat, j: nat, customer: string)
    requires i < j < |trace| && ClockForward(trace)
    requires LookedUp(cfg, trace[i].op) == Some(customer) && Expired(StateAt(cfg, trace, i), customer, trace[i].now)
    ensures AnswerAt(cfg, trace, i).Hung?
    ensures NeedsShard(cfg, trace[j].op, customer) ==> AnswerAt(cfg, trace, j).Hung?
  {
    StaleLookupSticks(StateAt(cfg, trace, i), cfg, trace[i], customer);
    StuckFrom(cfg, trace, i, j, customer);
    StuckStaysStuck(StateAt(cfg, trace, j), cfg, trace[j], customer);
  }

  // ---------- How old an answer can be ----------

  /** Entry k invalidated the customer, and returned. */
  ghost predicate Forgotten(cfg: Config, trace: seq<Entry>, k: nat, customer: string)
    requires k < |trace|
  {
    trace[k].op == Forget(customer) && !AnswerAt(cfg, trace, k).Hung?
  }

  /** The database held `account` for the customer at entry j, at or before entry i; the entry is less
      than one cache duration old (or is i itself) and the customer was not invalidated since. */
  ghost predicate RecentAt(cfg: Config, trace: seq<Entry>, i: nat, j: nat, customer: string, account: Account)
    requires i < |trace|
  {
    && j <= i && customer in trace[j].db && trace[j].db[customer] == account
    && (j == i || trace[i].now - cfg.cacheDuration < trace[j].now)
    && (forall k :: j < k < i ==> !Forgotten(cfg, trace, k, customer))
  }

  /** Each cached record was in the database at an earlier entry, expires one duration after it, and has
      not been invalidated since. */
  ghost predicate FetchedAt(cfg: Config, trace: seq<Entry>, i: nat, j: nat, customer: string, cached: Cached)
    requires i <= |trace|
  {
    && j < i && customer in trace[j].db && trace[j].db[customer] == cached.account
    && cached.expiresAt == trace[j].now + cfg.cacheDuration
    && (forall k :: j < k < i ==> !Forgotten(cfg, trace, k, customer))
  }

  lemma {:induction false} CacheIsFetched(cfg: Config, trace: seq<Entry>, i: nat, customer: string) returns (j: nat)
    requires i <= |trace| && customer in StateAt(cfg, trace, i).cache
    ensures FetchedAt(cfg, trace, i, j, customer, StateAt(cfg, trace, i).cache[customer])
  {
    var before := StateAt(cfg, trace, i - 1);
    var after := StateAt(cfg, trace, i);
    if customer in before.cache && before.cache[customer] == after.cache[customer]
       && !Forgotten(cfg, trace, i - 1, customer) {
      j := CacheIsFetched(cfg, trace, i - 1, customer);
    } else {
      j := i - 1;
    }
  }

  /** What an account lookup at entry i returns was the database's answer recently. */
  lemma {:induction false} LookupIsRecent(cfg: Config, trace: seq<Entry>, i: nat, s: Service, customer: string) returns (j: nat)
    requires i < |trace| && s.cache == StateAt(cfg, trace, i).cache
    requires var answer := GetAccountStatus(s, cfg, customer, trace[i].now, trace[i].db).1;
             answer.Returns? && answer.value.Some?
    ensures RecentAt(cfg, trace, i, j, customer,
                     GetAccountStatus(s, cfg, customer, trace[i].now, trace[i].db).1.value.value)
  {
    if customer in s.cache {
      j := CacheIsFetched(cfg, trace, i, customer);
    } else {
      j := i;
    }
  }

  /** Every account read that returns one equals the database value at some entry less than one cache
      duration before the read, or at the read itself, and after the customer's last invalidation. */
  lemma {:induction false} ReadsAreRecent(cfg: Config, trace: seq<Entry>, i: nat, customer: string) returns (j: nat)
    requires i < |trace| && trace[i].op == Read(customer)
    requires AnswerAt(cfg, trace, i).Status? && AnswerAt(cfg, trace, i).account.Some?
    ensures RecentAt(cfg, trace, i, j, customer, AnswerAt(cfg, trace, i).account.value)
  {
    j := LookupIsRecent(cfg, trace, i, StateAt(cfg, trace, i), customer);
  }

  lemma {:induction false} ForgottenIsGone(cfg: Config, trace: seq<Entry>, j: nat, i: nat, customer: string)
    requires j < i <= |trace| && Forgotten(cfg, trace, j, customer)
    requires forall k :: j < k < i ==> LookedUp(cfg, trace[k].op) != Some(customer)
    ensures customer !in StateAt(cfg, trace, i).cache
    decreases i
  {
    if i > j + 1 {
      ForgottenIsGone(cfg, trace, j, i - 1, customer);
    }
  }

  /** The first read after an invalidation, however much later, is the current database value, found or
      not; it fails to return only if its shard was lost to another customer's stale lookup since. */
  lemma {:induction false} ReadAfterInvalidation(cfg: Config, trace: seq<Entry>, j: nat, i: nat, customer: string)
    requires j < i < |trace| && Forgotten(cfg, trace, j, customer) && trace[i].op == Read(customer)
    requires forall k :: j < k < i ==> LookedUp(cfg, trace[k].op) != Some(customer)
    ensures var current := if customer in trace[i].db then Some(trace[i].db[customer]) else None;
            AnswerAt(cfg, trace, i) == Status(current)
            || (AnswerAt(cfg, trace, i).Hung? && Held(StateAt(cfg, trace, i), cfg, customer) && i > j + 1)
  {
    ForgottenIsGone(cfg, trace, j, i, customer);
  }

  // ---------- What approval means ----------

  /** An account that may make a call of this cost now: in good standing or still in its grace period,
      and able to pay. */
  ghost predicate MayCall(a: Account, cost: real, now: int) {
    && InStanding(a, now)
    && (a.accountType == Prepaid ==> cost <= a.balance && a.minimumBalance <= a.balance)
    && (a.accountType == Postpaid && a.creditLimit.Some? ==> cost <= a.balance + a.creditLimit.value)
  }

  /** In good standing, or still in its grace period. */
  ghost predicate InStanding(a: Account, now: int) {
    || a.status == Active || a.status == LowBalance
    || (a.status == GracePeriod && (a.gracePeriodEnd.Some? ==> now <= a.gracePeriodEnd.value))
  }

  /** Every verdict on an account and when it is given; in particular an account is approved exactly if it
      may call, so approving a call approves every cheaper one. */
  lemma JudgeExactly(a: Account, cost: real, now: int)
    ensures var r := JudgeAccount(a, cost, now);
            && (r == Approved <==> MayCall(a, cost, now))
            && (r == AccountClosed <==> a.status == Closed)
            && (r == AccountSuspended <==> a.status != Closed && !InStanding(a, now))
            && (r == InsufficientFunds <==>
                  InStanding(a, now) && a.accountType == Prepaid && (a.balance < cost || a.balance < a.minimumBalance))
            && (r == CreditLimitExceeded <==>
                  && InStanding(a, now) && a.accountType == Postpaid
                  && a.creditLimit.Some? && cost - a.balance > a.creditLimit.value)
            && r != EmergencyAllowed
    ensures JudgeAccount(a, cost, now) == Approved ==>
              forall cheaper :: cheaper <= cost ==> JudgeAccount(a, cheaper, now) == Approved
  {
  }

  function Repeat(c: char, n: nat): string {
    seq(n, _ => c)
  }

  /** Trimming takes off the whole run of the character at the start. */
  lemma {:induction false} TrimStartExactly(text: string, c: char) returns (n: nat)
    ensures text == Repeat(c, n) + TrimStart(text, c)
    ensures TrimStart(text, c) != "" ==> TrimStart(text, c)[0] != c
  {
    if text != "" && text[0] == c {
      var rest := TrimStartExactly(text[1..], c);
      n := rest + 1;
      assert Repeat(c, n) == [c] + Repeat(c, rest);
    } else {
      n := 0;
      assert Repeat(c, 0) + text == text;
    }
  }

  /** An emergency is passed exactly if that is allowed and the call is marked as one or its number is
      listed, as it is or after its leading plus signs and then its leading ones. */
  lemma {:induction false} EmergencyExactly(s: Service, cfg: Config, r: Request, now: int, db: Db) returns (p: nat, q: nat, bare: string)
    ensures r.toNumber == Repeat('+', p) + Repeat('1', q) + bare && (bare != "" ==> bare[0] != '1')
    ensures q > 0 || bare == "" || bare[0] != '+'
    ensures Authorize(s, cfg, r, now, db).1 == Returns(EmergencyAllowed) <==>
            && cfg.enabled && cfg.allowEmergencyCalls
            && (r.isEmergency || r.toNumber in cfg.emergencyNumbers || bare in cfg.emergencyNumbers)
  {
    p := TrimStartExactly(r.toNumber, '+');
    q := TrimStartExactly(TrimStart(r.toNumber, '+'), '1');
    bare := TrimStart(TrimStart(r.toNumber, '+'), '1');
    assert Repeat('+', p) + (Repeat('1', q) + bare) == Repeat('+', p) + Repeat('1', q) + bare;
    if q == 0 {
      assert Repeat('1', 0) + bare == bare;
    }
    if cfg.enabled && !EmergencyPasses(cfg, r) {
      var account := GetAccountStatus(CountCheck(s), cfg, r.customer, now, db).1;
      if account.Returns? && account.value.Some? {
        JudgeExactly(account.value.value, r.estimatedCost, now);
      }
    }
  }

  /** A call that is approved other than as an emergency was, less than one cache duration ago, a call its
      account in the database could make. */
  lemma {:induction false} ApprovalsAreRecent(cfg: Config, trace: seq<Entry>, i: nat, r: Request) returns (j: nat)
    requires cfg.enabled && i < |trace| && trace[i].op == Check(r) && AnswerAt(cfg, trace, i) == Verdict(Approved)
    ensures j <= i && r.customer in trace[j].db
    ensures RecentAt(cfg, trace, i, j, r.customer, trace[j].db[r.customer])
    ensures MayCall(trace[j].db[r.customer], r.estimatedCost, trace[i].now)
  {
    var s := StateAt(cfg, trace, i);
    var checked := CountCheck(s);
    var account := GetAccountStatus(checked, cfg, r.customer, trace[i].now, trace[i].db).1;
    j := LookupIsRecent(cfg, trace, i, checked, r.customer);
    JudgeExactly(account.value.value, r.estimatedCost, trace[i].now);
  }

  // ---------- What is counted ----------

  /** How many of the first i entries are checks with this answer. */
  function Checks(cfg: Config, trace: seq<Entry>, i: nat, answer: Answer): nat
    requires i <= |trace|
  {
    if i == 0 then 0
    else Checks(cfg, trace, i - 1, answer)
         + if trace[i - 1].op.Check? && AnswerAt(cfg, trace, i - 1) == answer then 1 else 0
  }

  /** What one check with this answer adds to the statistics. */
  ghost predicate CountsAs(before: Stats, after: Stats, answer: Answer) {
    var verdict := (r: CheckResult) => if answer == Verdict(r) then 1 else 0;
    && after.totalChecks == before.totalChecks + 1
    && after.approved == before.approved + verdict(Approved) + verdict(EmergencyAllowed)
    && after.emergencyOverrides == before.emergencyOverrides + verdict(EmergencyAllowed)
    && after.insufficientFunds == before.insufficientFunds + verdict(InsufficientFunds)
    && after.suspendedBlocks == before.suspendedBlocks + verdict(AccountSuspended)
    && after.creditLimitBlocks == before.creditLimitBlocks + verdict(CreditLimitExceeded)
    && after.blocked == before.blocked + verdict(InsufficientFunds) + verdict(AccountSuspended)
                        + verdict(CreditLimitExceeded) + verdict(AccountClosed)
  }

  ghost predicate SameChecks(before: Stats, after: Stats) {
    after.(cacheHits := 0, cacheMisses := 0) == before.(cacheHits := 0, cacheMisses := 0)
  }

  lemma LookupCountsNoCheck(s: Service, cfg: Config, customer: string, now: int, db: Db)
    ensures SameChecks(s.stats, GetAccountStatus(s, cfg, customer, now, db).0.stats)
  {
  }

  lemma AuthorizeCounts(s: Service, cfg: Config, r: Request, now: int, db: Db)
    requires cfg.enabled
    ensures var (s', result) := Authorize(s, cfg, r, now, db);
            CountsAs(s.stats, s'.stats, if result.Hangs? then Hung else Verdict(result.value))
  {
    if !EmergencyPasses(cfg, r) {
      CheckAccountCounts(CountCheck(s), cfg, r, now, db);
    }
  }

  lemma CheckAccountCounts(s: Service, cfg: Config, r: Request, now: int, db: Db)
    requires s.stats.totalChecks > 0
    ensures var (s', result) := CheckAccount(s, cfg, r, now, db);
            CountsAs(s.stats.(totalChecks := s.stats.totalChecks - 1), s'.stats,
                     if result.Hangs? then Hung else Verdict(result.value))
  {
    LookupCountsNoCheck(s, cfg, r.customer, now, db);
    var account := GetAccountStatus(s, cfg, r.customer, now, db).1;
    if account.Returns? && account.value.Some? {
      JudgeExactly(account.value.value, r.estimatedCost, now);
    }
  }

  lemma StepCounts(s: Service, cfg: Config, e: Entry)
    requires cfg.enabled
    ensures var (s', answer) := Step(s, cfg, e);
            if e.op.Check? then CountsAs(s.stats, s'.stats, answer) else SameChecks(s.stats, s'.stats)
  {
    match e.op
    case Read(customer) => LookupCountsNoCheck(s, cfg, customer, e.now, e.db);
    case Check(r) => AuthorizeCounts(s, cfg, r, e.now, e.db);
    case Forget(_) =>
    case Sweep =>
  }

  /** Each statistic of the checks is the number of checks with that answer. */
  ghost predicate Tallied(stats: Stats, cfg: Config, trace: seq<Entry>, i: nat)
    requires i <= |trace|
  {
    && stats.approved == Checks(cfg, trace, i, Verdict(Approved)) + Checks(cfg, trace, i, Verdict(EmergencyAllowed))
    && stats.emergencyOverrides == Checks(cfg, trace, i, Verdict(EmergencyAllowed))
    && stats.insufficientFunds == Checks(cfg, trace, i, Verdict(InsufficientFunds))
    && stats.suspendedBlocks == Checks(cfg, trace, i, Verdict(AccountSuspended))
    && stats.creditLimitBlocks == Checks(cfg, trace, i, Verdict(CreditLimitExceeded))
    && stats.blocked == stats.insufficientFunds + stats.suspendedBlocks + stats.creditLimitBlocks
                        + Checks(cfg, trace, i, Verdict(AccountClosed))
    && stats.totalChecks == stats.approved + stats.blocked + Checks(cfg, trace, i, Hung)
  }

  lemma {:induction false} TallyFollows(cfg: Config, trace: seq<Entry>, i: nat)
    requires cfg.enabled && i <= |trace|
    ensures Tallied(StateAt(cfg, trace, i).stats, cfg, trace, i)
  {
    if i > 0 {
      assert Tallied(StateAt(cfg, trace, i - 1).stats, cfg, trace, i - 1) by {
        TallyFollows(cfg, trace, i - 1);
      }
      StepCounts(StateAt(cfg, trace, i - 1), cfg, trace[i - 1]);
    }
  }

  lemma {:induction false} DisabledCountsNothing(cfg: Config, trace: seq<Entry>, i: nat)
    requires !cfg.enabled && i <= |trace|
    ensures SameChecks(NEW_SERVICE.stats, StateAt(cfg, trace, i).stats)
  {
    if i > 0 {
      DisabledCountsNothing(cfg, trace, i - 1);
      var s, e := StateAt(cfg, trace, i - 1), trace[i - 1];
      if e.op.Read? {
        LookupCountsNoCheck(s, cfg, e.op.customer, e.now, e.db);
      }
    }
  }

  /** Over every run each statistic is the number of checks answered so, and a check that hangs is counted
      only in the total: the total is the two outcomes if and only if no check hung. With checks switched
      off nothing is counted. */
  lemma {:induction false} ChecksAreCounted(cfg: Config, trace: seq<Entry>, i: nat)
    requires i <= |trace|
    ensures var stats := StateAt(cfg, trace, i).stats;
            if cfg.enabled
            then Tallied(stats, cfg, trace, i)
                 && (stats.totalChecks == stats.approved + stats.blocked <==> Checks(cfg, trace, i, Hung) == 0)
            else SameChecks(NEW_SERVICE.stats, stats)
  {
    if cfg.enabled {
      TallyFollows(cfg, trace, i);
    } else {
      DisabledCountsNothing(cfg, trace, i);
    }
  }

  /** How many of the first i entries look up a customer whose record is cached, or is not. */
  function Lookups(cfg: Config, trace: seq<Entry>, i: nat, cached: bool): nat
    requires i <= |trace|
  {
    if i == 0 then 0
    else
      var customer := LookedUp(cfg, trace[i - 1].op);
      Lookups(cfg, trace, i - 1, cached)
      + if customer.Some? && FetchedBy(cfg, trace, i - 1, customer.value).Some? == cached then 1 else 0
  }

  lemma StepHits(s: Service, cfg: Config, e: Entry)
    requires !Step(s, cfg, e).1.Hung?
    ensures var stats, customer := Step(s, cfg, e).0.stats, LookedUp(cfg, e.op);
            && stats.cacheHits == s.stats.cacheHits + (if customer.Some? && customer.value in s.cache then 1 else 0)
            && stats.cacheMisses == s.stats.cacheMisses + (if customer.Some? && customer.value !in s.cache then 1 else 0)
  {
  }

  /** In a run that has returned throughout, hits and misses are the lookups of customers whose record was
      cached and was not. */
  lemma {:induction false} HitsExactly(cfg: Config, trace: seq<Entry>, i: nat)
    requires i <= |trace| && forall k :: 0 <= k < i ==> !AnswerAt(cfg, trace, k).Hung?
    ensures var stats := StateAt(cfg, trace, i).stats;
            stats.cacheHits == Lookups(cfg, trace, i, true) && stats.cacheMisses == Lookups(cfg, trace, i, false)
  {
    if i > 0 {
      HitsExactly(cfg, trace, i - 1);
      NoneHungBefore(cfg, trace, i - 1);
      assert !AnswerAt(cfg, trace, i - 1).Hung?;
      StepHits(StateAt(cfg, trace, i - 1), cfg, trace[i - 1]);
      var customer := LookedUp(cfg, trace[i - 1].op);
      if customer.Some? {
        assert customer.value in StateAt(cfg, trace, i - 1).cache <==> FetchedBy(cfg, trace, i - 1, customer.value).Some?;
      }
    }
  }

  // ---------- What sweeping changes ----------

  /** The answers to everything but the sweeps. */
  function Answers(s: Service, cfg: Config, trace: seq<Entry>): (Service, seq<Answer>)
    decreases |trace|
  {
    if trace == [] then (s, [])
    else
      var (s', answer) := Step(s, cfg, trace[0]);
      var (s'', answers) := Answers(s', cfg, trace[1..]);
      (s'', (if trace[0].op.Sweep? then [] else [answer]) + answers)
  }

  function WithoutSweeps(trace: seq<Entry>): seq<Entry> {
    if trace == [] then []
    else (if trace[0].op.Sweep? then [] else [trace[0]]) + WithoutSweeps(trace[1..])
  }

  /** a and b count alike, hold no shard, and differ only in records that expired by `now`, which a may
      have lost. */
  ghost predicate SweptFrom(a: Service, b: Service, now: int) {
    && a.stats == b.stats && a.held == {} && b.held == {}
    && (forall c :: c in a.cache ==> c in b.cache && a.cache[c] == b.cache[c])
    && (forall c :: c in b.cache && c !in a.cache ==> b.cache[c].expiresAt <= now)
  }

  lemma LookupAgrees(a: Service, b: Service, cfg: Config, customer: string, now: int, db: Db)
    requires SweptFrom(a, b, now) && !Expired(b, customer, now)
    ensures var (a', x), (b', y) := GetAccountStatus(a, cfg, customer, now, db), GetAccountStatus(b, cfg, customer, now, db);
            SweptFrom(a', b', now) && x == y
  {
  }

  lemma StatsAgree(a: Service, b: Service, stats: Stats, now: int)
    requires SweptFrom(a, b, now)
    ensures SweptFrom(a.(stats := stats), b.(stats := stats), now)
  {
  }

  lemma CheckAccountAgrees(a: Service, b: Service, cfg: Config, r: Request, now: int, db: Db)
    requires SweptFrom(a, b, now) && !Expired(b, r.customer, now)
    ensures var (a', x), (b', y) := CheckAccount(a, cfg, r, now, db), CheckAccount(b, cfg, r, now, db);
            SweptFrom(a', b', now) && x == y
  {
    var (a', account) := GetAccountStatus(a, cfg, r.customer, now, db);
    LookupAgrees(a, b, cfg, r.customer, now, db);
    if account.Returns? {
      StatsAgree(a', GetAccountStatus(b, cfg, r.customer, now, db).0,
                 Conclude(a', account.value, r.estimatedCost, now).0.stats, now);
    }
  }

  lemma CheckAgrees(a: Service, b: Service, cfg: Config, r: Request, now: int, db: Db)
    requires SweptFrom(a, b, now) && (PassesUnread(cfg, r) || !Expired(b, r.customer, now))
    ensures var (a', x), (b', y) := Authorize(a, cfg, r, now, db), Authorize(b, cfg, r, now, db);
            SweptFrom(a', b', now) && x == y
  {
    StatsAgree(a, b, CountCheck(a).stats, now);
    if !PassesUnread(cfg, r) {
      CheckAccountAgrees(CountCheck(a), CountCheck(b), cfg, r, now, db);
    } else {
      StatsAgree(a, b, CountEmergency(CountCheck(a)).stats, now);
    }
  }

  lemma StepAgrees(a: Service, b: Service, cfg: Config, e: Entry)
    requires SweptFrom(a, b, e.now) && !Step(b, cfg, e).1.Hung?
    ensures var (a', x), (b', y) := Step(a, cfg, e), Step(b, cfg, e);
            SweptFrom(a', b', e.now) && x == y
  {
    HangsExactly(b, cfg, e);
    match e.op
    case Read(customer) => LookupAgrees(a, b, cfg, customer, e.now, e.db);
    case Check(r) => CheckAgrees(a, b, cfg, r, e.now, e.db);
    case Forget(_) =>
    case Sweep =>
  }

  lemma LaterAgrees(a: Service, b: Service, now: int, later: int)
    requires SweptFrom(a, b, now) && now <= later
    ensures SweptFrom(a, b, later)
  {
  }

  lemma {:induction false} AnswersCons(s: Service, cfg: Config, e: Entry, rest: seq<Entry>)
    requires !e.op.Sweep?
    ensures var (s', answer) := Step(s, cfg, e);
            && Answers(s, cfg, [e] + rest).1 == [answer] + Answers(s', cfg, rest).1
            && Answers(s, cfg, [e] + rest).0 == Answers(s', cfg, rest).0
            && (Hung !in Answers(s, cfg, [e] + rest).1 <==> !answer.Hung? && Hung !in Answers(s', cfg, rest).1)
  {
    assert ([e] + rest)[1..] == rest;
  }

  lemma {:induction false} AnswersSkip(s: Service, cfg: Config, e: Entry, rest: seq<Entry>)
    requires e.op.Sweep?
    ensures Answers(s, cfg, [e] + rest) == Answers(Cleanup(s, cfg, e.now).0, cfg, rest)
  {
    assert ([e] + rest)[1..] == rest;
    var (s', answers) := Answers(Cleanup(s, cfg, e.now).0, cfg, rest);
    assert [] + answers == answers;
  }

  lemma WithoutSweepsCons(e: Entry, rest: seq<Entry>)
    ensures WithoutSweeps([e] + rest) == if e.op.Sweep? then WithoutSweeps(rest) else [e] + WithoutSweeps(rest)
  {
    assert ([e] + rest)[1..] == rest;
    assert [] + WithoutSweeps(rest) == WithoutSweeps(rest);
  }

  lemma ClockTail(trace: seq<Entry>)
    requires trace != [] && ClockForward(trace)
    ensures ClockForward(trace[1..]) && (trace[1..] != [] ==> trace[0].now <= trace[1..][0].now)
  {
  }

  lemma SweepOnlyLoses(a: Service, b: Service, cfg: Config, now: int)
    requires SweptFrom(a, b, now)
    ensures SweptFrom(Cleanup(a, cfg, now).0, b, now)
  {
  }

  ghost predicate AnswersAlike(x: (Service, seq<Answer>), y: (Service, seq<Answer>)) {
    x.1 == y.1 && x.0.stats == y.0.stats
  }

  lemma {:induction false} SweepsInvisibleFrom(a: Service, b: Service, cfg: Config, trace: seq<Entry>, now: int)
    requires SweptFrom(a, b, now) && ClockForward(trace) && (trace != [] ==> now <= trace[0].now)
    requires Hung !in Answers(b, cfg, WithoutSweeps(trace)).1
    ensures AnswersAlike(Answers(a, cfg, trace), Answers(b, cfg, WithoutSweeps(trace)))
    decreases |trace|
  {
    if trace != [] {
      var e, later := trace[0], trace[1..];
      assert trace == [e] + later;
      LaterAgrees(a, b, now, e.now);
      ClockTail(trace);
      WithoutSweepsCons(e, later);
      if e.op.Sweep? {
        SweepOnlyLoses(a, b, cfg, e.now);
        AnswersSkip(a, cfg, e, later);
        SweepsInvisibleFrom(Cleanup(a, cfg, e.now).0, b, cfg, later, e.now);
      } else {
        AnswersCons(a, cfg, e, later);
        AnswersCons(b, cfg, e, WithoutSweeps(later));
        StepAgrees(a, b, cfg, e);
        SweepsInvisibleFrom(Step(a, cfg, e).0, Step(b, cfg, e).0, cfg, later, e.now);
      }
    }
  }

  /** With a clock that never runs backwards, adding sweeps anywhere to a run that returns throughout
      changes no answer and no statistic. And a run that returns throughout answers as it would without
      its sweeps exactly if it would return throughout without them: a sweep can turn a hang into an
      answer. */
  lemma {:induction false} SweepsInvisible(cfg: Config, trace: seq<Entry>)
    requires ClockForward(trace)
    ensures var (with, answers) := Answers(NEW_SERVICE, cfg, trace);
            var (without, unswept) := Answers(NEW_SERVICE, cfg, WithoutSweeps(trace));
            && (Hung !in unswept ==> answers == unswept && with.stats == without.stats)
            && (Hung !in answers ==> (answers == unswept <==> Hung !in unswept))
  {
    if trace != [] && Hung !in Answers(NEW_SERVICE, cfg, WithoutSweeps(trace)).1 {
      SweepsInvisibleFrom(NEW_SERVICE, NEW_SERVICE, cfg, trace, trace[0].now);
    }
  }

  lemma {:induction false} AfterFirstRead(cfg: Config, trace: seq<Entry>, customer: string, db: Db)
    requires |trace| > 0 && trace[0] == Entry(Read(customer), 0, db) && customer in db
    ensures StateAt(cfg, trace, 1) ==
            Service(map[customer := Cached(db[customer], 0, cfg.cacheDuration)],
                    NEW_SERVICE.stats.(cacheMisses := 1), {})
  {
    assert StateAt(cfg, trace, 0) == NEW_SERVICE;
  }

  /** A customer read twice, one cache duration apart: the second read hangs, and so does a check in its
      place, which is then counted in the total alone; with a sweep in between it is the database's. */
  lemma {:induction false} SweepRescues(cfg: Config, customer: string, r: Request, db: Db, db': Db)
    requires customer in db && customer in db' && r.customer == customer && !PassesUnread(cfg, r)
    ensures var first, later := Entry(Read(customer), 0, db), Entry(Read(customer), cfg.cacheDuration, db');
            && AnswerAt(cfg, [first, later], 1).Hung?
            && AnswerAt(cfg, [first, later.(op := Sweep), later], 2) == Status(Some(db'[customer]))
    ensures var first, check := Entry(Read(customer), 0, db), Entry(Check(r), cfg.cacheDuration, db');
            var stats := StateAt(cfg, [first, check], 2).stats;
            AnswerAt(cfg, [first, check], 1).Hung? && stats.totalChecks == 1 && stats.approved == stats.blocked == 0
  {
    var first, later := Entry(Read(customer), 0, db), Entry(Read(customer), cfg.cacheDuration, db');
    var swept := [first, later.(op := Sweep), later];
    AfterFirstRead(cfg, [first, later], customer, db);
    AfterFirstRead(cfg, [first, later.(op := Check(r))], customer, db);
    AfterFirstRead(cfg, swept, customer, db);
    assert StateAt(cfg, swept, 2).cache == map[] && StateAt(cfg, swept, 2).held == {};
  }
}
