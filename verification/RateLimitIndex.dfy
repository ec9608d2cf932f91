/** The units, windows and counter keys of the rate limiter, and the index that
    `loadConfig` builds from the stored rules and `findDescriptor` looks up. */
module RateLimitIndex {
  import opened Text

  type uint32 = n: nat | n < 0x1_0000_0000

  // ---- Units and windows ----

  datatype RateUnit = Unknown | Second | Minute | Hour | Day

  /** `units.RateLimitUnit_value` applied to an upper-cased unit name. */
  function ParseUnit(name: string): Option<RateUnit> {
    var upper := ToUpper(name);
    if upper == "UNKNOWN" then Some(Unknown)
    else if upper == "SECOND" then Some(Second)
    else if upper == "MINUTE" then Some(Minute)
    else if upper == "HOUR" then Some(Hour)
    else if upper == "DAY" then Some(Day)
    else None
  }

  function UnitToDivider(unit: RateUnit): (d: nat)
    requires unit != Unknown
    ensures d > 0
  {
    match unit
    case Second => 1
    case Minute => 60
    case Hour => 60 * 60
    case Day => 60 * 60 * 24
  }

  /** The seconds of a unit's name in any letter case; other names are of no use. */
  function SecondsOf(name: string): Option<nat> {
    var lower := ToLower(name);
    if lower == "second" then Some(1)
    else if lower == "minute" then Some(60)
    else if lower == "hour" then Some(3600)
    else if lower == "day" then Some(86400)
    else None
  }

  lemma UnitNames()
    ensures ToUpper("second") == "SECOND" && ToLower("second") == "second"
    ensures ToUpper("minute") == "MINUTE" && ToLower("minute") == "minute"
    ensures ToUpper("hour") == "HOUR" && ToLower("hour") == "hour"
    ensures ToUpper("day") == "DAY" && ToLower("day") == "day"
  {
  }

  /** A unit is known, and lasts so many seconds, exactly by its name. */
  lemma UnitsByName(name: string)
    ensures var unit := ParseUnit(name);
      && (unit.Some? && unit.value != Unknown <==> SecondsOf(name).Some?)
      && (SecondsOf(name).Some? ==> UnitToDivider(unit.value) == SecondsOf(name).value)
  {
    UnitNames();
    SameLetters(name, "second");
    SameLetters(name, "minute");
    SameLetters(name, "hour");
    SameLetters(name, "day");
  }

  /** `(unit/divider)*divider` in unsigned arithmetic. */
  function WindowStart(now: nat, period: nat): (start: nat)
    requires period > 0
    ensures start <= now < start + period
  {
    assert now == period * (now / period) + now % period;
    (now / period) * period
  }

  /** One touch of one counter: what `findDescriptor` computes for a matching entry. */
  datatype Touch = Touch(prefix: string, start: nat, limit: uint32, hits: nat, period: nat) {
    /** The counter's key in Redis and in the local cache. */
    function Key(): string {
      prefix + Decimal(start)
    }

    /** The first second after the window that the key names. */
    function End(): nat {
      start + period
    }
  }

  // ---- Rules and their index ----

  datatype Rule = Rule(domain: string, key: string, value: string, limit: uint32, unit: string, stripDomain: bool) {
    predicate Usable() {
      ParseUnit(unit).Some? && ParseUnit(unit).value != Unknown
    }

    function Id(): string {
      key + value
    }
  }

  datatype CacheEntry = CacheEntry(limit: uint32, unit: RateUnit)
  datatype CacheDescriptors = CacheDescriptors(entries: map<string, CacheEntry>, stripDomain: bool) {
    predicate KnownUnits() {
      forall id :: id in entries ==> entries[id].unit != Unknown
    }
  }
  type CacheConfig = map<string, CacheDescriptors>

  datatype RequestEntry = RequestEntry(key: string, value: string)

  predicate InDomain(rule: Rule, domain: string) {
    rule.Usable() && rule.domain == domain
  }

  predicate Matches(rule: Rule, domain: string, id: string) {
    InDomain(rule, domain) && rule.Id() == id
  }

  /** The first usable rule of a domain. */
  function FirstRule(rules: seq<Rule>, domain: string): (r: Option<Rule>)
    ensures r.Some? <==> exists i :: 0 <= i < |rules| && InDomain(rules[i], domain)
    ensures r.Some? ==> exists i :: 0 <= i < |rules| && rules[i] == r.value && InDomain(rules[i], domain) &&
                                    forall j :: 0 <= j < i ==> !InDomain(rules[j], domain)
  {
    if rules == [] then None
    else if InDomain(rules[0], domain) then Some(rules[0])
    else
      assert forall j :: 0 < j < |rules| ==> rules[j] == rules[1..][j - 1];
      FirstRule(rules[1..], domain)
  }

  /** The last usable rule of a domain with the given concatenated key and value. */
  function LastRule(rules: seq<Rule>, domain: string, id: string): (r: Option<Rule>)
    ensures r.Some? ==> Matches(r.value, domain, id)
  {
    if rules == [] then None
    else
      var n := |rules| - 1;
      if Matches(rules[n], domain, id) then Some(rules[n])
      else LastRule(rules[..n], domain, id)
  }

  /** It is absent exactly when no rule matches; else no rule after it does. */
  lemma {:induction false} LastRuleIsLast(rules: seq<Rule>, domain: string, id: string) returns (i: int)
    ensures LastRule(rules, domain, id).None? <==> i < 0
    ensures -1 <= i < |rules| && (i >= 0 ==> LastRule(rules, domain, id) == Some(rules[i]))
    ensures forall j :: i < j < |rules| ==> !Matches(rules[j], domain, id)
  {
    i := |rules| - 1;
    if rules != [] && !Matches(rules[i], domain, id) {
      i := LastRuleIsLast(rules[..i], domain, id);
      assert forall j :: 0 <= j < |rules| - 1 ==> rules[..|rules| - 1][j] == rules[j];
    }
  }

  lemma {:induction false} FirstRuleExtends(rules: seq<Rule>, last: Rule, domain: string)
    ensures FirstRule(rules + [last], domain) ==
      if FirstRule(rules, domain).Some? then FirstRule(rules, domain)
      else if InDomain(last, domain) then Some(last) else None
  {
    if rules != [] {
      assert (rules + [last])[1..] == rules[1..] + [last];
      FirstRuleExtends(rules[1..], last, domain);
    }
  }

  function EntryOf(rule: Rule): CacheEntry
    requires rule.Usable()
  {
    CacheEntry(rule.limit, ParseUnit(rule.unit).value)
  }

  ghost predicate DomainIndexed(config: CacheConfig, rules: seq<Rule>, domain: string) {
    && (domain in config <==> FirstRule(rules, domain).Some?)
    && (domain in config ==> config[domain].stripDomain == FirstRule(rules, domain).value.stripDomain)
  }

  ghost predicate EntryIndexed(config: CacheConfig, rules: seq<Rule>, domain: string, id: string) {
    var last := LastRule(rules, domain, id);
    && (domain in config && id in config[domain].entries <==> last.Some?)
    && (last.Some? ==> config[domain].entries[id] == EntryOf(last.value))
  }

  /** The index answers every lookup as a scan of the rules would. */
  ghost predicate Indexes(config: CacheConfig, rules: seq<Rule>) {
    && (forall domain :: DomainIndexed(config, rules, domain))
    && (forall domain, id :: EntryIndexed(config, rules, domain, id))
  }

  /** Every indexed unit has a divider, so the panic after the switch is never reached. */
  lemma IndexedUnitsAreKnown(config: CacheConfig, rules: seq<Rule>)
    requires Indexes(config, rules)
    ensures forall domain :: domain in config ==> config[domain].KnownUnits()
  {
    forall domain, id | domain in config && id in config[domain].entries
      ensures config[domain].entries[id].unit != Unknown
    {
      assert EntryIndexed(config, rules, domain, id);
    }
  }

  /** What one turn of `loadConfig`'s loop does to the index. */
  ghost predicate AddsRule(before: CacheConfig, rule: Rule, config: CacheConfig) {
    if !rule.Usable() then config == before
    else
      var index := if rule.domain in before then before[rule.domain] else CacheDescriptors(map[], rule.stripDomain);
      config == before[rule.domain := index.(entries := index.entries[rule.Id() := EntryOf(rule)])]
  }

  /** The body of the loop: a domain's first usable rule creates its descriptors,
      every usable rule then overwrites the entry under its concatenated key. */
  method AddRule(before: CacheConfig, rule: Rule) returns (config: CacheConfig)
    ensures AddsRule(before, rule, config)
  {
    config := before;
    if rule.Usable() {
      if rule.domain !in config {
        config := config[rule.domain := CacheDescriptors(map[], rule.stripDomain)];
      }
      var index := config[rule.domain];
      config := config[rule.domain := index.(entries := index.entries[rule.Id() := EntryOf(rule)])];
    }
  }

  /** `loadConfig` once the stored documents are decoded. */
  method LoadConfig(rules: seq<Rule>) returns (config: CacheConfig)
    ensures Indexes(config, rules)
  {
    config := map[];
    var n := 0;
    while n < |rules|
      invariant 0 <= n <= |rules|
      invariant Indexes(config, rules[..n])
    {
      ghost var before := config;
      config := AddRule(config, rules[n]);
      IndexExtends(before, rules[..n], rules[n], config);
      assert rules[..n + 1] == rules[..n] + [rules[n]];
      n := n + 1;
    }
    assert rules[..n] == rules;
  }

  lemma LastRuleExtends(rules: seq<Rule>, last: Rule, domain: string, id: string)
    ensures LastRule(rules + [last], domain, id) ==
      if Matches(last, domain, id) then Some(last) else LastRule(rules, domain, id)
  {
    var all := rules + [last];
    assert all[..|all| - 1] == rules;
  }

  lemma IndexExtends(before: CacheConfig, rules: seq<Rule>, rule: Rule, config: CacheConfig)
    requires Indexes(before, rules) && AddsRule(before, rule, config)
    ensures Indexes(config, rules + [rule])
  {
    forall domain
      ensures DomainIndexed(config, rules + [rule], domain)
    {
      assert DomainIndexed(before, rules, domain);
      FirstRuleExtends(rules, rule, domain);
    }
    forall domain, id
      ensures EntryIndexed(config, rules + [rule], domain, id)
    {
      assert EntryIndexed(before, rules, domain, id);
      LastRuleExtends(rules, rule, domain, id);
    }
  }

  // ---- Looking a request up ----

  /** `strings.Split(value, ".")[0]` when the domain strips host names. */
  function StripValue(value: string, strip: bool): string {
    if strip then Split(value, ".")[0] else value
  }

  function RequestId(entry: RequestEntry, strip: bool): string {
    entry.key + StripValue(entry.value, strip)
  }

  function TouchOf(id: string, entry: CacheEntry, hits: nat, now: nat): Touch
    requires entry.unit != Unknown
  {
    var period := UnitToDivider(entry.unit);
    Touch(id, WindowStart(now, period), entry.limit, hits, period)
  }

  /** The touches that an index yields for the entries of one descriptor, in order. */
  function NameTouches(index: CacheDescriptors, request: seq<RequestEntry>, hits: nat, now: nat): seq<Touch>
    requires index.KnownUnits()
  {
    if request == [] then []
    else
      var n := |request| - 1;
      var id := RequestId(request[n], index.stripDomain);
      NameTouches(index, request[..n], hits, now) +
      if id in index.entries then [TouchOf(id, index.entries[id], hits, now)] else []
  }

  /** `findDescriptor`. */
  method FindDescriptor(index: CacheDescriptors, request: seq<RequestEntry>, hits: nat, now: nat)
    returns (touches: seq<Touch>)
    requires index.KnownUnits()
    ensures touches == NameTouches(index, request, hits, now)
  {
    touches := [];
    var n := 0;
    while n < |request|
      invariant 0 <= n <= |request|
      invariant touches == NameTouches(index, request[..n], hits, now)
    {
      assert request[..n + 1][..n] == request[..n];
      var id := request[n].key;
      if index.stripDomain {
        id := id + Split(request[n].value, ".")[0];
      } else {
        id := id + request[n].value;
      }
      if id in index.entries {
        var period := UnitToDivider(index.entries[id].unit);
        touches := touches + [Touch(id, (now / period) * period, index.entries[id].limit, hits, period)];
      }
      n := n + 1;
    }
    assert request[..n] == request;
  }

  /** The reference lookup: no index, just a scan of the rules for every request entry. */
  function Scanned(rules: seq<Rule>, domain: string, request: seq<RequestEntry>, hits: nat, now: nat): seq<Touch> {
    if request == [] || FirstRule(rules, domain).None? then []
    else
      var n := |request| - 1;
      var id := RequestId(request[n], FirstRule(rules, domain).value.stripDomain);
      var rule := LastRule(rules, domain, id);
      Scanned(rules, domain, request[..n], hits, now) +
      if rule.Some? then [TouchOf(id, EntryOf(rule.value), hits, now)] else []
  }

  /** The touches of a request against a configuration, none for an unknown domain. */
  function Resolve(config: CacheConfig, domain: string, request: seq<RequestEntry>, hits: nat, now: nat): seq<Touch>
    requires forall d :: d in config ==> config[d].KnownUnits()
  {
    if domain in config then NameTouches(config[domain], request, hits, now) else []
  }

  lemma {:induction false} IndexRefinesScan(config: CacheConfig, rules: seq<Rule>, domain: string,
                                            request: seq<RequestEntry>, hits: nat, now: nat)
    requires Indexes(config, rules)
    ensures forall d :: d in config ==> config[d].KnownUnits()
    ensures Resolve(config, domain, request, hits, now) == Scanned(rules, domain, request, hits, now)
  {
    IndexedUnitsAreKnown(config, rules);
    assert DomainIndexed(config, rules, domain);
    if request != [] && domain in config {
      var n := |request| - 1;
      IndexRefinesScan(config, rules, domain, request[..n], hits, now);
      var id := RequestId(request[n], config[domain].stripDomain);
      assert EntryIndexed(config, rules, domain, id);
    }
  }

  /** The touch is what the rule says: its key and value as the prefix, its limit, the asked hits,
      the seconds of its unit's name, and the aligned window around the moment. */
  predicate TouchesFor(touch: Touch, rule: Rule, hits: nat, now: nat) {
    && touch.prefix == rule.key + rule.value && touch.limit == rule.limit && touch.hits == hits
    && SecondsOf(rule.unit) == Some(touch.period) && touch.period > 0
    && touch.start % touch.period == 0 && touch.start <= now < touch.start + touch.period
  }

  /** The value as the domain's requests are looked up: up to the first dot if it strips. */
  predicate LookedUpAs(value: string, strip: bool, cut: string) {
    if strip then UpTo(value, '.', cut) else cut == value
  }

  /** A rule that may be used, of this domain. */
  predicate RuleOf(rule: Rule, domain: string) {
    rule.domain == domain && SecondsOf(rule.unit).Some?
  }

  /** Rule f is the domain's first. */
  predicate FirstOf(rules: seq<Rule>, domain: string, f: nat) {
    f < |rules| && RuleOf(rules[f], domain) && forall j :: 0 <= j < f ==> !RuleOf(rules[j], domain)
  }

  lemma UsableByName(rules: seq<Rule>, domain: string)
    ensures forall i :: 0 <= i < |rules| ==> (InDomain(rules[i], domain) <==> RuleOf(rules[i], domain))
  {
    forall i | 0 <= i < |rules|
      ensures InDomain(rules[i], domain) <==> RuleOf(rules[i], domain)
    {
      UnitsByName(rules[i].unit);
    }
  }

  lemma {:induction false} FirstRuleAt(rules: seq<Rule>, domain: string, f: nat)
    requires f < |rules| && InDomain(rules[f], domain) && forall j :: 0 <= j < f ==> !InDomain(rules[j], domain)
    ensures FirstRule(rules, domain) == Some(rules[f])
  {
    if f > 0 {
      FirstRuleAt(rules[1..], domain, f - 1);
    }
  }

  lemma AlignedStart(now: nat, period: nat)
    requires period > 0
    ensures WindowStart(now, period) % period == 0
  {
    MultipleIsAligned(now / period, period);
  }

  lemma MultipleIsAligned(w: nat, d: nat)
    requires d > 0
    ensures (w * d) % d == 0
  {
    QuotientOf(w * d, w, d);
    var n := w * d;
    assert n == d * (n / d) + n % d;
  }

  /** A number between w*d and w*d + d has quotient w. */
  lemma QuotientOf(n: nat, w: nat, d: nat)
    requires d > 0 && w * d <= n < w * d + d
    ensures n / d == w
  {
    var q := n / d;
    assert q * d <= n < q * d + d by {
      assert n == d * q + n % d;
    }
    assert (q + 1) * d == q * d + d && (w + 1) * d == w * d + d;
    FactorsCompare(q, w + 1, d);
    FactorsCompare(w, q + 1, d);
  }

  lemma FactorsCompare(a: nat, b: nat, d: nat)
    requires a * d < b * d
    ensures a < b
  {
    if b <= a {
      MulMonotone(b, a, d);
    }
  }

  lemma {:induction false} MulMonotone(a: nat, b: nat, d: nat)
    requires a <= b
    ensures a * d <= b * d
  {
    if a < b {
      MulMonotone(a, b - 1, d);
      assert b * d == (b - 1) * d + d;
    }
  }

  /** What limits a request entry, from the stored rules alone: the domain's last usable rule
      whose key and value, put together, are the entry's key and looked-up value, if there is
      one, and nothing otherwise; whether the value is cut, the domain's first usable rule says. */
  lemma LastRuleLimits(config: CacheConfig, rules: seq<Rule>, domain: string, f: nat, entry: RequestEntry, cut: string,
                       hits: nat, now: nat) returns (i: int)
    requires Indexes(config, rules) && FirstOf(rules, domain, f) && LookedUpAs(entry.value, rules[f].stripDomain, cut)
    ensures forall d :: d in config ==> config[d].KnownUnits()
    ensures -1 <= i < |rules|
    ensures forall j :: i < j < |rules| ==> !(RuleOf(rules[j], domain) && rules[j].key + rules[j].value == entry.key + cut)
    ensures var touches := Resolve(config, domain, [entry], hits, now);
      if i < 0 then touches == []
      else
        && RuleOf(rules[i], domain) && rules[i].key + rules[i].value == entry.key + cut
        && |touches| == 1 && TouchesFor(touches[0], rules[i], hits, now)
  {
    UsableByName(rules, domain);
    FirstRuleAt(rules, domain, f);
    IndexRefinesScan(config, rules, domain, [entry], hits, now);
    if rules[f].stripDomain {
      FirstPieceIsUpTo(entry.value, '.', cut);
    }
    var id := entry.key + cut;
    i := LastRuleIsLast(rules, domain, id);
    assert [entry][..0] == [];
    assert Scanned(rules, domain, [], hits, now) == [];
    if i >= 0 {
      UnitsByName(rules[i].unit);
      AlignedStart(now, SecondsOf(rules[i].unit).value);
    }
  }

  /** A stripped value is the part before its first dot. */
  lemma StripKeepsFirstLabel(host: string, rest: string)
    requires '.' !in host
    ensures StripValue(host + "." + rest, true) == host
    ensures StripValue(host, true) == host
  {
    CleanBeforeChar(host, '.');
    FirstPiece(host, ".", rest);
  }

  // ---- Counter keys ----

  const EARLIEST: nat := 1_000_000_000
  const LATEST: nat := 10_000_000_000

  lemma DecimalInjective(a: nat, b: nat)
    requires Decimal(a) == Decimal(b)
    ensures a == b
  {
    DecimalValue(a);
    DecimalValue(b);
  }

  lemma TenDigits(start: nat)
    requires EARLIEST <= start < LATEST
    ensures |Decimal(start)| == 10
  {
    assert Pow10(1) == 10 && Pow10(2) == 100 && Pow10(3) == 1000 && Pow10(4) == 10_000;
    assert Pow10(5) == 100_000 && Pow10(6) == 1_000_000 && Pow10(7) == 10_000_000;
    assert Pow10(8) == 100_000_000 && Pow10(9) == EARLIEST && Pow10(10) == LATEST;
    DecimalLength(start, 10);
  }

  /** For one prefix, equal keys name the same window. */
  lemma SamePrefixKeys(prefix: string, a: nat, b: nat)
    requires prefix + Decimal(a) == prefix + Decimal(b)
    ensures a == b
  {
    assert Decimal(a) == (prefix + Decimal(a))[|prefix|..];
    assert Decimal(b) == (prefix + Decimal(b))[|prefix|..];
    DecimalInjective(a, b);
  }

  /** A key determines prefix and window start exactly when the starts have equally many digits. */
  lemma KeysDecode(p: string, a: nat, q: string, b: nat)
    requires p + Decimal(a) == q + Decimal(b)
    ensures p == q && a == b <==> |Decimal(a)| == |Decimal(b)|
  {
    if |Decimal(a)| == |Decimal(b)| {
      var k := p + Decimal(a);
      assert |p| == |q|;
      assert p == k[..|p|] && q == k[..|p|];
      SamePrefixKeys(p, a, b);
    }
  }

  /** Ten-digit starts, those from September 2001 to November 2286, are always told apart. */
  lemma KeysDecodeInRange(p: string, a: nat, q: string, b: nat)
    requires EARLIEST <= a < LATEST && EARLIEST <= b < LATEST
    requires p + Decimal(a) == q + Decimal(b)
    ensures p == q && a == b
  {
    TenDigits(a);
    TenDigits(b);
    KeysDecode(p, a, q, b);
  }

  /** Outside that range two prefixes can share a counter. */
  lemma KeysCollide()
    ensures Touch("ip", 10, 1, 1, 1).Key() == Touch("ip1", 0, 1, 1, 1).Key()
  {
    assert Decimal(1) == "1" && Decimal(0) == "0";
    assert Decimal(10) == Decimal(1) + "0";
    calc {
      "ip" + Decimal(10);
      "ip" + ("1" + "0");
      "ip1" + "0";
    }
  }
}
