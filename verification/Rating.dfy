/** The rating engine and the trunk rate overrides: both scan a prefix table for the longest match. Money
    and minutes are exact rationals. */
module Rating {
  import opened Common
  import opened LongestPrefix

  datatype RateTable = RateTable(
    destinationName: string,
    prefix: string,
    ratePerMinute: real,
    billingIncrementSeconds: nat,
    setupFee: real)

  datatype DefaultRates = DefaultRates(
    domestic: real, international: real, premium: real, minimumCharge: real, setupFee: real)

  datatype CallPricing = CallPricing(
    destination: string,
    ratePerMinute: real,
    setupFee: real,
    minimumCharge: real,
    billingIncrement: nat,
    estimatedCost: real,
    matchedPrefix: Option<string>)

  const ONE_CENT := 0.01

  function AtLeast(x: real, floor: real): real {
    if x < floor then floor else x
  }

  function DefaultRate(defaults: DefaultRates, destination: string): real {
    if "1" <= destination then defaults.domestic
    else if "900" <= destination || "976" <= destination then defaults.premium
    else defaults.international
  }

  /** The price once the table entry, or its absence, is known. */
  function Price(entry: Option<RateTable>, defaults: DefaultRates, destination: string, seconds: nat): CallPricing {
    var minutes := seconds as real / 60.0;
    match entry
    case Some(t) =>
      CallPricing(t.destinationName, t.ratePerMinute, t.setupFee, ONE_CENT, t.billingIncrementSeconds,
                  AtLeast(t.ratePerMinute * minutes + t.setupFee, ONE_CENT), Some(t.prefix))
    case None =>
      var rate := DefaultRate(defaults, destination);
      CallPricing("Unknown Destination", rate, defaults.setupFee, defaults.minimumCharge, 60,
                  AtLeast(rate * minutes + defaults.setupFee, defaults.minimumCharge), None)
  }

  /** Every entry is stored under its own prefix. */
  ghost predicate KeyedByPrefix(table: map<string, RateTable>) {
    forall p :: p in table ==> table[p].prefix == p
  }

  /** What a table prices a call at. */
  ghost function Quote(table: map<string, RateTable>, defaults: DefaultRates, destination: string, seconds: nat): CallPricing {
    Price(Found(table, destination), defaults, destination, seconds)
  }

  class RatingEngine {
    var rateTables: map<string, RateTable>
    var defaultRates: DefaultRates

    ghost predicate Valid()
      reads this
    {
      KeyedByPrefix(rateTables)
    }

    constructor (defaults: DefaultRates)
      ensures Valid() && rateTables == map[] && defaultRates == defaults
    {
      rateTables := map[];
      defaultRates := defaults;
    }

    method CalculatePricing(destination: string, seconds: nat) returns (pricing: CallPricing)
      requires Valid()
      ensures pricing == Quote(rateTables, defaultRates, destination, seconds)
      ensures IsLookup(rateTables, destination, pricing.matchedPrefix)
    {
      var best := Scan(rateTables, destination);
      var entry := if best.Some? then Some(rateTables[best.value]) else None;
      assert entry == Found(rateTables, destination);
      pricing := Price(entry, defaultRates, destination, seconds);
    }

    method UpdateRate(rate: RateTable)
      requires Valid()
      modifies this`rateTables
      ensures Valid() && rateTables == old(rateTables)[rate.prefix := rate]
    {
      rateTables := rateTables[rate.prefix := rate];
    }

    method RemoveRate(prefix: string)
      requires Valid()
      modifies this`rateTables
      ensures Valid() && rateTables == old(rateTables) - {prefix}
    {
      if prefix in rateTables {
        rateTables := rateTables - {prefix};
      } else {
        assert rateTables - {prefix} == rateTables;
      }
    }

    method UpdateDefaultRates(rates: DefaultRates)
      modifies this`defaultRates
      ensures defaultRates == rates
    {
      defaultRates := rates;
    }
  }

  /** Updating the entry of a prefix changes the price of exactly the destinations that start with it and
      have no longer match, and they are priced by the new entry. */
  lemma UpdateReprices(table: map<string, RateTable>, defaults: DefaultRates, rate: RateTable, destination: string, seconds: nat)
    ensures var table' := table[rate.prefix := rate];
            if rate.prefix != "" && rate.prefix <= destination
               && forall q :: Matches(table, destination, q) ==> |q| <= |rate.prefix|
            then Quote(table', defaults, destination, seconds) == Price(Some(rate), defaults, destination, seconds)
            else Quote(table', defaults, destination, seconds) == Quote(table, defaults, destination, seconds)
  {
    UpdateTouchesOnly(table, rate.prefix, rate, destination);
  }

  /** Removing a freshly added prefix restores every price, for every destination and duration. */
  lemma RemovalRestoresPrices(table: map<string, RateTable>, defaults: DefaultRates, rate: RateTable, destination: string, seconds: nat)
    requires rate.prefix !in table
    ensures Quote(table[rate.prefix := rate] - {rate.prefix}, defaults, destination, seconds) ==
            Quote(table, defaults, destination, seconds)
  {
    RemoveUndoesAdd(table, rate.prefix, rate, destination);
  }

  /** Removing any entry reprices exactly the destinations whose longest match was its prefix: by the
      entry of their next-longest match or, without one, by the default rates. */
  lemma RemovalReprices(table: map<string, RateTable>, defaults: DefaultRates, p: string, destination: string, seconds: nat)
    returns (next: Option<string>)
    ensures IsNextLongest(table, destination, p, next)
    ensures var entry := if next.Some? then Some(table[next.value]) else None;
            Quote(table - {p}, defaults, destination, seconds) ==
            if IsLongest(table, destination, p) then Price(entry, defaults, destination, seconds)
            else Quote(table, defaults, destination, seconds)
  {
    next := RemoveFallsBack(table, p, destination);
  }

  /** The cost of a call: its rate for its seconds and the setup fee, but never less than the floor. */
  ghost predicate IsCost(cost: real, rate: real, setupFee: real, seconds: nat, floor: real) {
    var sixtyfold := rate * seconds as real + 60.0 * setupFee;
    cost >= floor && 60.0 * cost >= sixtyfold && (cost == floor || 60.0 * cost == sixtyfold)
  }

  /** Every quote, by whether a prefix matches: the entry's own terms with a floor of one cent, or the default
      rate that the destination's first digits choose, in whole minutes, with the default floor. */
  lemma QuoteExactly(table: map<string, RateTable>, defaults: DefaultRates, destination: string, seconds: nat)
    ensures var quote := Quote(table, defaults, destination, seconds);
            match Found(table, destination)
            case Some(entry) =>
              && quote.destination == entry.destinationName && quote.matchedPrefix == Some(entry.prefix)
              && quote.ratePerMinute == entry.ratePerMinute && quote.setupFee == entry.setupFee
              && quote.billingIncrement == entry.billingIncrementSeconds && quote.minimumCharge == 0.01
              && IsCost(quote.estimatedCost, entry.ratePerMinute, entry.setupFee, seconds, 0.01)
            case None =>
              var premium := "900" <= destination || "976" <= destination;
              && quote.destination == "Unknown Destination" && quote.matchedPrefix == None
              && ("1" <= destination ==> quote.ratePerMinute == defaults.domestic)
              && (premium ==> quote.ratePerMinute == defaults.premium)
              && (!("1" <= destination) && !premium ==> quote.ratePerMinute == defaults.international)
              && quote.setupFee == defaults.setupFee && quote.billingIncrement == 60
              && quote.minimumCharge == defaults.minimumCharge
              && IsCost(quote.estimatedCost, quote.ratePerMinute, defaults.setupFee, seconds, defaults.minimumCharge)
  {
    if "1" <= destination {
      assert destination[0] == '1';
    }
  }


  // ---------- Trunk rate overrides ----------

  /** The rate fields of a call detail record and the numbers they are looked up by. */
  class CallRates {
    const ani: string
    const dnis: string
    var ingressRate: real
    var egressRate: real

    constructor (ani: string, dnis: string)
      ensures this.ani == ani && this.dnis == dnis && ingressRate == 0.0 && egressRate == 0.0
    {
      this.ani, this.dnis := ani, dnis;
      ingressRate, egressRate := 0.0, 0.0;
    }

    /** The override of the longest matching prefix sets the side's rate; without a match nothing
        changes, and the other side's rate never does. */
    method ApplyRateOverrides(overrides: map<string, real>, isIngress: bool)
      modifies this
      ensures var found := Found(overrides, if isIngress then ani else dnis);
              && ingressRate == (if isIngress && found.Some? then found.value else old(ingressRate))
              && egressRate == (if !isIngress && found.Some? then found.value else old(egressRate))
    {
      var number := if isIngress then ani else dnis;
      var best := Scan(overrides, number);
      assert Found(overrides, number) == if best.Some? then Some(overrides[best.value]) else None;
      if best.Some? {
        if isIngress {
          ingressRate := overrides[best.value];
        } else {
          egressRate := overrides[best.value];
        }
      }
    }
  }
}
