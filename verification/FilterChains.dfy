/** `parseListener` around its route tables: filter chains, network filters and the HTTP
    filters of connection managers. */
module FilterChains {
  import opened Text
  import opened RouteTables

  // ---- Stored configuration ----

  const EXT_AUTHZ := "envoy.filters.http.ext_authz"
  const HTTP_RATE_LIMIT := "envoy.filters.http.ratelimit"
  const LOCAL_RATE_LIMIT := "envoy.filters.network.local_ratelimit"
  const TCP_PROXY := "envoy.filters.network.tcp_proxy"
  const CONNECTION_MANAGER := "envoy.filters.network.http_connection_manager"

  datatype HttpFilterConfig = HttpFilterConfig(name: string, failureModeAllow: Option<bool>, domain: Option<string>,
                                               failureModeDeny: Option<bool>, vhRateLimits: Option<string>)

  /** `accessLog` is absent for a nil list and has the names of its entries, absent for nil
      ones; `fillInterval` is absent for a missing token bucket. */
  datatype FilterConfig = FilterConfig(name: string, fillInterval: Option<string>, cluster: Option<string>,
                                       accessLog: Option<seq<Option<string>>>, hosts: Option<seq<HostConfig>>,
                                       httpFilters: seq<HttpFilterConfig>)

  /** `serverNames` is absent for a chain without a match. */
  datatype ChainConfig = ChainConfig(serverNames: Option<seq<string>>, filters: seq<FilterConfig>)

  // ---- Translated listeners ----

  datatype HttpFilter =
    | ExtAuthz(failureModeAllow: bool)
    | RateLimit(domain: string, failureModeDeny: bool)
    | RateLimitPerRoute(option: string)
    | Router

  /** A local rate limit with an unreadable interval leaves a nil filter in the list. */
  datatype NetworkFilter =
    | NilFilter
    | LocalRateLimit(fillInterval: string)
    | TcpProxy(cluster: string, logName: Option<string>)
    | ConnectionManager(httpFilters: seq<HttpFilter>, logged: bool, hosts: seq<VirtualHost>)

  datatype ListenerFilter = TlsInspector
  datatype Chain = Chain(serverNames: Option<seq<string>>, filters: seq<NetworkFilter>)
  datatype Listener = Listener(listenerFilters: seq<ListenerFilter>, chains: seq<Chain>)

  // ---- What the translation of each part is ----

  predicate KnownOption(option: string) {
    option in {"OVERRIDE", "INCLUDE", "IGNORE"}
  }

  predicate PerRoute(config: HttpFilterConfig) {
    config.name == HTTP_RATE_LIMIT && config.vhRateLimits.Some? && KnownOption(ToUpper(config.vhRateLimits.value))
  }

  function OrElse(o: Option<bool>, d: bool): bool {
    if o.Some? then o.value else d
  }

  function HttpFilterOf(config: HttpFilterConfig): seq<HttpFilter> {
    (if config.name == EXT_AUTHZ then [ExtAuthz(OrElse(config.failureModeAllow, true))] else [])
    + (if config.name == HTTP_RATE_LIMIT && config.domain.Some?
       then [RateLimit(config.domain.value, OrElse(config.failureModeDeny, false))] else [])
    + (if PerRoute(config) then [RateLimitPerRoute(ToUpper(config.vhRateLimits.value))] else [])
  }

  function FlatMap<A, B>(s: seq<A>, f: A -> seq<B>): seq<B> {
    if s == [] then [] else f(s[0]) + FlatMap(s[1..], f)
  }

  function HttpFiltersOf(configs: seq<HttpFilterConfig>): seq<HttpFilter> {
    FlatMap(configs, HttpFilterOf)
  }

  predicate Loggable(accessLog: Option<seq<Option<string>>>) {
    accessLog.Some? ==> accessLog.value != [] && accessLog.value[0].Some?
  }

  /** There is a list of logs, but no first entry in it. */
  predicate FirstEntryMissing(accessLog: Option<seq<Option<string>>>) {
    accessLog.Some? && (|accessLog.value| == 0 || accessLog.value[0].None?)
  }

  predicate AllTranslatable(hosts: seq<HostConfig>) {
    forall i :: 0 <= i < |hosts| ==> HostTranslatable(hosts[i])
  }

  /** What a network filter must have for its translation not to follow a nil pointer or
      index an empty list. */
  predicate FilterTranslatable(config: FilterConfig) {
    && (config.name == LOCAL_RATE_LIMIT ==> config.fillInterval.Some?)
    && (config.name == TCP_PROXY ==> config.cluster.Some?)
    && (config.name == TCP_PROXY || config.name == CONNECTION_MANAGER ==> Loggable(config.accessLog))
    && (config.name == CONNECTION_MANAGER ==> config.hosts.Some? && AllTranslatable(config.hosts.value))
  }

  predicate FiltersTranslatable(configs: seq<FilterConfig>) {
    forall i :: 0 <= i < |configs| ==> FilterTranslatable(configs[i])
  }

  predicate KnownFilter(config: FilterConfig) {
    config.name == LOCAL_RATE_LIMIT || config.name == TCP_PROXY || config.name == CONNECTION_MANAGER
  }

  /** The stored filters that are translated; one of any other name is dropped. */
  function Kept(configs: seq<FilterConfig>): seq<FilterConfig> {
    if configs == [] then []
    else
      var n := |configs| - 1;
      Kept(configs[..n]) + if KnownFilter(configs[n]) then [configs[n]] else []
  }

  /** A translated filter and the stored filter that it stands for. */
  predicate FilterTranslated(config: FilterConfig, filter: NetworkFilter, readable: string -> bool) {
    FilterTranslatable(config) &&
    if config.name == LOCAL_RATE_LIMIT then
      filter == if readable(config.fillInterval.value) then LocalRateLimit(config.fillInterval.value) else NilFilter
    else if config.name == TCP_PROXY then
      filter == TcpProxy(config.cluster.value, if config.accessLog.Some? then config.accessLog.value[0] else None)
    else
      && config.name == CONNECTION_MANAGER && filter.ConnectionManager?
      && filter.httpFilters == HttpFiltersOf(config.httpFilters) + [Router]
      && filter.logged == config.accessLog.Some?
      && HostsTranslated(config.hosts.value, filter.hosts)
  }

  /** One translated filter for each of the stored ones, in their order. */
  predicate FiltersTranslated(configs: seq<FilterConfig>, filters: seq<NetworkFilter>, readable: string -> bool) {
    && |filters| == |configs|
    && forall k :: 0 <= k < |configs| ==> FilterTranslated(configs[k], filters[k], readable)
  }

  predicate ChainTranslated(config: ChainConfig, chain: Chain, readable: string -> bool) {
    && FiltersTranslatable(config.filters) && chain.serverNames == config.serverNames
    && FiltersTranslated(Kept(config.filters), chain.filters, readable)
  }

  predicate ChainsTranslated(configs: seq<ChainConfig>, chains: seq<Chain>, readable: string -> bool) {
    && |chains| == |configs|
    && forall i :: 0 <= i < |configs| ==> ChainTranslated(configs[i], chains[i], readable)
  }

  /** One TLS inspector if some chain has a match, and none otherwise. */
  function Inspectors(configs: seq<ChainConfig>): seq<ListenerFilter> {
    if exists i :: 0 <= i < |configs| && configs[i].serverNames.Some? then [TlsInspector] else []
  }

  // ---- The loops ----

  /** One turn of the loop over the HTTP filters of a connection manager. */
  method AddHttpFilter(before: seq<HttpFilter>, config: HttpFilterConfig) returns (filters: seq<HttpFilter>)
    ensures filters == before + HttpFilterOf(config)
  {
    filters := before;
    if config.name == EXT_AUTHZ {
      var allow := true;
      if config.failureModeAllow.Some? {
        allow := config.failureModeAllow.value;
      }
      filters := filters + [ExtAuthz(allow)];
    }
    if config.name == HTTP_RATE_LIMIT && config.domain.Some? {
      var deny := false;
      if config.failureModeDeny.Some? {
        deny := config.failureModeDeny.value;
      }
      filters := filters + [RateLimit(config.domain.value, deny)];
    }
    if config.name == HTTP_RATE_LIMIT && config.vhRateLimits.Some? {
      var option := ToUpper(config.vhRateLimits.value);
      if KnownOption(option) {
        filters := filters + [RateLimitPerRoute(option)];
      }
    }
  }

  method TranslateHttpFilters(configs: seq<HttpFilterConfig>) returns (filters: seq<HttpFilter>)
    ensures filters == HttpFiltersOf(configs) + [Router]
  {
    filters := [];
    for i := 0 to |configs|
      invariant filters + HttpFiltersOf(configs[i..]) == HttpFiltersOf(configs)
    {
      HttpFiltersFrom(filters, configs, i);
      filters := AddHttpFilter(filters, configs[i]);
    }
    filters := filters + [Router];
  }

  lemma HttpFiltersFrom(before: seq<HttpFilter>, configs: seq<HttpFilterConfig>, i: nat)
    requires i < |configs|
    ensures (before + HttpFilterOf(configs[i])) + HttpFiltersOf(configs[i + 1..]) == before + HttpFiltersOf(configs[i..])
  {
    assert configs[i..][1..] == configs[i + 1..];
  }

  /** One turn of the loop over the filters of a chain: a known filter is appended. */
  method AddFilter(before: seq<NetworkFilter>, config: FilterConfig, readable: string -> bool)
    returns (result: Outcome<seq<NetworkFilter>>)
    ensures result.Done? <==> FilterTranslatable(config)
    ensures result.Panic? <==>
      || (config.name == "envoy.filters.network.local_ratelimit" && config.fillInterval.None?)
      || (config.name == "envoy.filters.network.tcp_proxy" && (config.cluster.None? || FirstEntryMissing(config.accessLog)))
      || (config.name == "envoy.filters.network.http_connection_manager" &&
           (config.hosts.None? || FirstEntryMissing(config.accessLog) || !AllTranslatable(config.hosts.value)))
    ensures result.Done? && !KnownFilter(config) ==> result.value == before
    ensures result.Done? && KnownFilter(config) ==>
      && |result.value| == |before| + 1 && result.value[..|before|] == before
      && FilterTranslated(config, result.value[|before|], readable)
  {
    var filters := before;
    if config.name == LOCAL_RATE_LIMIT {
      if config.fillInterval.None? {
        return Panic;
      }
      var filter := NilFilter;
      if readable(config.fillInterval.value) {
        filter := LocalRateLimit(config.fillInterval.value);
      }
      filters := filters + [filter];
    }
    if config.name == TCP_PROXY {
      if config.cluster.None? {
        return Panic;
      }
      var logName := None;
      if config.accessLog.Some? {
        if config.accessLog.value == [] || config.accessLog.value[0].None? {
          return Panic;
        }
        logName := config.accessLog.value[0];
      }
      filters := filters + [TcpProxy(config.cluster.value, logName)];
    }
    if config.name == CONNECTION_MANAGER {
      if config.hosts.None? {
        return Panic;
      }
      var httpFilters := TranslateHttpFilters(config.httpFilters);
      if config.accessLog.Some? && (config.accessLog.value == [] || config.accessLog.value[0].None?) {
        return Panic;
      }
      var hosts := TranslateHosts(config.hosts.value);
      if hosts.Panic? {
        assert !AllTranslatable(config.hosts.value);
        return Panic;
      }
      filters := filters + [ConnectionManager(httpFilters, config.accessLog.Some?, hosts.value)];
    }
    return Done(filters);
  }

  lemma FiltersExtend(configs: seq<FilterConfig>, i: nat, before: seq<NetworkFilter>, after: seq<NetworkFilter>,
                      readable: string -> bool)
    requires i < |configs| && FiltersTranslated(Kept(configs[..i]), before, readable)
    requires if KnownFilter(configs[i])
             then |after| == |before| + 1 && after[..|before|] == before
                  && FilterTranslated(configs[i], after[|before|], readable)
             else after == before
    ensures FiltersTranslated(Kept(configs[..i + 1]), after, readable)
  {
    assert configs[..i + 1][..i] == configs[..i];
    if KnownFilter(configs[i]) {
      assert Kept(configs[..i + 1]) == Kept(configs[..i]) + [configs[i]];
      assert forall k :: 0 <= k < |before| ==> after[k] == before[k];
    }
  }

  method TranslateFilters(configs: seq<FilterConfig>, readable: string -> bool) returns (result: Outcome<seq<NetworkFilter>>)
    ensures result.Done? <==> FiltersTranslatable(configs)
    ensures result.Done? ==> FiltersTranslated(Kept(configs), result.value, readable)
  {
    var filters: seq<NetworkFilter> := [];
    for i := 0 to |configs|
      invariant forall k :: 0 <= k < i ==> FilterTranslatable(configs[k])
      invariant FiltersTranslated(Kept(configs[..i]), filters, readable)
    {
      result := AddFilter(filters, configs[i], readable);
      if result.Panic? {
        assert !FiltersTranslatable(configs);
        return;
      }
      FiltersExtend(configs, i, filters, result.value, readable);
      filters := result.value;
    }
    assert configs[..|configs|] == configs;
    return Done(filters);
  }

  lemma ChainsExtend(configs: seq<ChainConfig>, c: nat, chains: seq<Chain>, chain: Chain, readable: string -> bool)
    requires c < |configs| && ChainsTranslated(configs[..c], chains, readable) && ChainTranslated(configs[c], chain, readable)
    ensures ChainsTranslated(configs[..c + 1], chains + [chain], readable)
  {
    assert forall i :: 0 <= i < c ==> configs[..c + 1][i] == configs[..c][i];
  }

  lemma InspectorsExtend(configs: seq<ChainConfig>, c: nat)
    requires c < |configs|
    ensures Inspectors(configs[..c + 1]) == if configs[c].serverNames.Some? then [TlsInspector] else Inspectors(configs[..c])
  {
    var more := configs[..c + 1];
    assert more[c] == configs[c];
    assert forall i :: 0 <= i < c ==> configs[..c][i] == more[i];
  }

  /** The chains of a listener; the first chain with a match adds the TLS inspector. */
  method ParseListener(configs: seq<ChainConfig>, readable: string -> bool) returns (result: Outcome<Listener>)
    ensures result.Panic? ==> exists i :: 0 <= i < |configs| && !FiltersTranslatable(configs[i].filters)
    ensures result.Done? ==> ChainsTranslated(configs, result.value.chains, readable)
    ensures result.Done? ==> result.value.listenerFilters == Inspectors(configs)
    ensures result.Done? ==>
      && |result.value.chains| == |configs|
      && (forall i :: 0 <= i < |configs| ==> result.value.chains[i].serverNames == configs[i].serverNames)
      && |result.value.listenerFilters| <= 1
      && (|result.value.listenerFilters| == 1 <==> exists i :: 0 <= i < |configs| && configs[i].serverNames.Some?)
  {
    var listener := Listener([], []);
    for c := 0 to |configs|
      invariant ChainsTranslated(configs[..c], listener.chains, readable)
      invariant listener.listenerFilters == Inspectors(configs[..c])
    {
      InspectorsExtend(configs, c);
      var chain := Chain(None, []);
      if configs[c].serverNames.Some? {
        chain := chain.(serverNames := configs[c].serverNames);
        if |listener.listenerFilters| == 0 {
          listener := listener.(listenerFilters := listener.listenerFilters + [TlsInspector]);
        }
      }
      var filters := TranslateFilters(configs[c].filters, readable);
      if filters.Panic? {
        assert !FiltersTranslatable(configs[c].filters);
        return Panic;
      }
      chain := chain.(filters := filters.value);
      ChainsExtend(configs, c, listener.chains, chain, readable);
      listener := listener.(chains := listener.chains + [chain]);
    }
    assert configs[..|configs|] == configs;
    return Done(listener);
  }

  // ---- Which filter comes from which ----

  /** The positions of the known filters. */
  function Positions(configs: seq<FilterConfig>): (r: seq<nat>)
    ensures forall k :: 0 <= k < |r| ==> r[k] < |configs|
  {
    if configs == [] then []
    else
      var n := |configs| - 1;
      Positions(configs[..n]) + if KnownFilter(configs[n]) then [n] else []
  }

  lemma {:induction false} PositionsOfKept(configs: seq<FilterConfig>)
    ensures |Kept(configs)| == |Positions(configs)|
    ensures forall k :: 0 <= k < |Positions(configs)| ==>
      Kept(configs)[k] == configs[Positions(configs)[k]] && KnownFilter(configs[Positions(configs)[k]])
  {
    if configs != [] {
      PositionsOfKept(configs[..|configs| - 1]);
    }
  }

  lemma {:induction false} PositionsRise(configs: seq<FilterConfig>)
    ensures forall j, k :: 0 <= j < k < |Positions(configs)| ==> Positions(configs)[j] < Positions(configs)[k]
  {
    if configs != [] {
      PositionsRise(configs[..|configs| - 1]);
    }
  }

  lemma {:induction false} PositionsCover(configs: seq<FilterConfig>, i: nat)
    requires i < |configs| && KnownFilter(configs[i])
    ensures i in Positions(configs)
  {
    var n := |configs| - 1;
    if i < n {
      PositionsCover(configs[..n], i);
    } else {
      assert Positions(configs)[|Positions(configs[..n])|] == n;
    }
  }

  /** The kept filters are exactly the known ones, each once and in their stored order. */
  lemma {:induction false} KeptInOrder(configs: seq<FilterConfig>)
    ensures var at := Positions(configs);
      && |Kept(configs)| == |at|
      && (forall k :: 0 <= k < |at| ==> Kept(configs)[k] == configs[at[k]] && KnownFilter(configs[at[k]]))
      && (forall j, k :: 0 <= j < k < |at| ==> at[j] < at[k])
      && (forall i :: 0 <= i < |configs| ==>
           (i in at <==>
             || configs[i].name == "envoy.filters.network.local_ratelimit"
             || configs[i].name == "envoy.filters.network.tcp_proxy"
             || configs[i].name == "envoy.filters.network.http_connection_manager"))
  {
    PositionsOfKept(configs);
    PositionsRise(configs);
    forall i | 0 <= i < |configs| && KnownFilter(configs[i])
      ensures i in Positions(configs)
    {
      PositionsCover(configs, i);
    }
  }

  // ---- The shape of a translated listener ----

  predicate OneRouterLast(filters: seq<HttpFilter>) {
    && filters != [] && filters[|filters| - 1] == Router
    && forall i :: 0 <= i < |filters| - 1 ==> filters[i] != Router
  }

  lemma {:induction false} NoRouterConfigured(configs: seq<HttpFilterConfig>)
    ensures Router !in HttpFiltersOf(configs)
  {
    if configs != [] {
      NoRouterConfigured(configs[1..]);
    }
  }

  lemma RouterComesLast(configs: seq<HttpFilterConfig>)
    ensures OneRouterLast(HttpFiltersOf(configs) + [Router])
  {
    NoRouterConfigured(configs);
  }

  /** The k-th filter of a translated chain is of the kind of the k-th known filter of the stored
      chain, the one at position k of `Positions`. A proxy has that filter's cluster and log, a
      local rate limit its interval, or is nil if that cannot be read. A connection manager has that
      filter's own HTTP filters and exactly one router, at the end, and sends every request to
      the host and the route, and with the safe action, that this filter's own tables name. */
  lemma ChainsRouteAsStored(config: ChainConfig, chain: Chain, readable: string -> bool, k: nat, request: Request,
                            choose: Chooser, engine: Engine)
    requires ChainTranslated(config, chain, readable) && k < |chain.filters|
    ensures |chain.filters| == |Positions(config.filters)|
    ensures var stored, filter := config.filters[Positions(config.filters)[k]], chain.filters[k];
      && (filter.ConnectionManager? <==> stored.name == "envoy.filters.network.http_connection_manager")
      && (filter.ConnectionManager? ==>
          && stored.hosts.Some? && RoutedAlike(stored.hosts.value, filter.hosts, request, choose, engine)
          && filter.httpFilters == HttpFiltersOf(stored.httpFilters) + [Router] && OneRouterLast(filter.httpFilters)
          && (filter.logged <==> stored.accessLog.Some?))
      && (filter.TcpProxy? <==> stored.name == "envoy.filters.network.tcp_proxy")
      && (filter.TcpProxy? ==>
          && stored.cluster == Some(filter.cluster)
          && (filter.logName.Some? <==> stored.accessLog.Some?)
          && (filter.logName.Some? ==> stored.accessLog.value != [] && stored.accessLog.value[0] == filter.logName))
      && (filter.LocalRateLimit? || filter.NilFilter? <==> stored.name == "envoy.filters.network.local_ratelimit")
      && (filter.LocalRateLimit? ==> stored.fillInterval == Some(filter.fillInterval) && readable(filter.fillInterval))
      && (filter.NilFilter? ==> stored.fillInterval.Some? && !readable(stored.fillInterval.value))
  {
    KeptInOrder(config.filters);
    var stored := Kept(config.filters)[k];
    assert FilterTranslated(stored, chain.filters[k], readable);
    if stored.name == CONNECTION_MANAGER {
      RoutingIsPreserved(stored.hosts.value, chain.filters[k].hosts, request, choose, engine);
      RouterComesLast(stored.httpFilters);
    }
  }

  // ---- Which HTTP filters come through ----

  /** The settings of a translated filter, if it is of the kind. */
  function Authorization(filter: HttpFilter): seq<bool> {
    if filter.ExtAuthz? then [filter.failureModeAllow] else []
  }

  function DomainLimit(filter: HttpFilter): seq<(string, bool)> {
    if filter.RateLimit? then [(filter.domain, filter.failureModeDeny)] else []
  }

  function RouteLimit(filter: HttpFilter): seq<string> {
    if filter.RateLimitPerRoute? then [filter.option] else []
  }

  /** What a stored filter asks for of each kind. */
  function AskedAuthorization(config: HttpFilterConfig): seq<bool> {
    if config.name == EXT_AUTHZ then [config.failureModeAllow != Some(false)] else []
  }

  function AskedDomainLimit(config: HttpFilterConfig): seq<(string, bool)> {
    if config.name == HTTP_RATE_LIMIT && config.domain.Some?
    then [(config.domain.value, config.failureModeDeny == Some(true))] else []
  }

  function AskedRouteLimit(config: HttpFilterConfig): seq<string> {
    if PerRoute(config) then [ToUpper(config.vhRateLimits.value)] else []
  }

  lemma {:induction false} FlatMapConcat<A, B>(a: seq<A>, b: seq<A>, f: A -> seq<B>)
    ensures FlatMap(a + b, f) == FlatMap(a, f) + FlatMap(b, f)
  {
    if a == [] {
      assert a + b == b;
    } else {
      assert (a + b)[1..] == a[1..] + b;
      FlatMapConcat(a[1..], b, f);
    }
  }

  lemma {:induction false} FlatMapComposes<A(!new), B, C>(s: seq<A>, f: A -> seq<B>, g: B -> seq<C>, h: A -> seq<C>)
    requires forall x :: FlatMap(f(x), g) == h(x)
    ensures FlatMap(FlatMap(s, f), g) == FlatMap(s, h)
  {
    if s != [] {
      FlatMapConcat(f(s[0]), FlatMap(s[1..], f), g);
      FlatMapComposes(s[1..], f, g, h);
    }
  }

  lemma FlatMapOne<A, B>(x: A, f: A -> seq<B>)
    ensures FlatMap([x], f) == f(x)
  {
    assert [x][1..] == [] && FlatMap([], f) == [];
  }

  lemma FlatMapTwo<A, B>(x: A, y: A, f: A -> seq<B>)
    ensures FlatMap([x, y], f) == f(x) + f(y)
  {
    assert [x, y] == [x] + [y];
    FlatMapConcat([x], [y], f);
    FlatMapOne(x, f);
    FlatMapOne(y, f);
  }

  /** The HTTP filters of a list are those of its parts, one after the other. */
  lemma FiltersKeepOrder(a: seq<HttpFilterConfig>, b: seq<HttpFilterConfig>)
    ensures HttpFiltersOf(a + b) == HttpFiltersOf(a) + HttpFiltersOf(b)
  {
    FlatMapConcat(a, b, HttpFilterOf);
  }

  lemma OptionNames()
    ensures ToUpper("override") == "OVERRIDE" && ToLower("override") == "override"
    ensures ToUpper("include") == "INCLUDE" && ToLower("include") == "include"
    ensures ToUpper("ignore") == "IGNORE" && ToLower("ignore") == "ignore"
  {
  }

  /** An option is known by its name in any letter case. */
  lemma OptionsByName(option: string)
    ensures KnownOption(ToUpper(option)) <==>
      ToLower(option) == "override" || ToLower(option) == "include" || ToLower(option) == "ignore"
  {
    OptionNames();
    SameLetters(option, "override");
    SameLetters(option, "include");
    SameLetters(option, "ignore");
  }

  /** One stored filter: authorization allows on failure unless told not to; a rate limit
      becomes a filter by its domain, denying on failure only if told to, and then one by its
      option; a filter of any other name becomes nothing. */
  lemma FiltersOfOne(config: HttpFilterConfig)
    ensures HttpFiltersOf([config]) ==
      if config.name == "envoy.filters.http.ext_authz" then [ExtAuthz(config.failureModeAllow != Some(false))]
      else if config.name != "envoy.filters.http.ratelimit" then []
      else
        (match config.domain
         case Some(domain) => [RateLimit(domain, config.failureModeDeny == Some(true))]
         case None => [])
        + (match config.vhRateLimits
           case Some(option) =>
             if ToLower(option) == "override" || ToLower(option) == "include" || ToLower(option) == "ignore"
             then [RateLimitPerRoute(ToUpper(option))] else []
           case None => [])
  {
    FlatMapOne(config, HttpFilterOf);
    NameDecidesKind();
    if config.vhRateLimits.Some? {
      OptionsByName(config.vhRateLimits.value);
    }
  }

  lemma NameDecidesKind()
    ensures EXT_AUTHZ != HTTP_RATE_LIMIT
  {
    assert EXT_AUTHZ[|EXT_AUTHZ| - 1] != HTTP_RATE_LIMIT[|HTTP_RATE_LIMIT| - 1];
  }

  /** The kinds of what one stored filter becomes. */
  lemma OwnKinds(config: HttpFilterConfig)
    ensures FlatMap(HttpFilterOf(config), Authorization) == AskedAuthorization(config)
    ensures FlatMap(HttpFilterOf(config), DomainLimit) == AskedDomainLimit(config)
    ensures FlatMap(HttpFilterOf(config), RouteLimit) == AskedRouteLimit(config)
  {
    NameDecidesKind();
    var own := HttpFilterOf(config);
    if |own| == 1 {
      assert own == [own[0]];
      FlatMapOne(own[0], Authorization);
      FlatMapOne(own[0], DomainLimit);
      FlatMapOne(own[0], RouteLimit);
    } else if |own| == 2 {
      assert own == [own[0], own[1]];
      FlatMapTwo(own[0], own[1], Authorization);
      FlatMapTwo(own[0], own[1], DomainLimit);
      FlatMapTwo(own[0], own[1], RouteLimit);
    }
  }

  /** Of each kind exactly the filters that are asked for come through, with their settings
      and in their order: authorization, limits by domain, limits by route. */
  lemma FiltersComeThrough(configs: seq<HttpFilterConfig>)
    ensures FlatMap(HttpFiltersOf(configs), Authorization) == FlatMap(configs, AskedAuthorization)
    ensures FlatMap(HttpFiltersOf(configs), DomainLimit) == FlatMap(configs, AskedDomainLimit)
    ensures FlatMap(HttpFiltersOf(configs), RouteLimit) == FlatMap(configs, AskedRouteLimit)
  {
    forall config
      ensures FlatMap(HttpFilterOf(config), Authorization) == AskedAuthorization(config)
      ensures FlatMap(HttpFilterOf(config), DomainLimit) == AskedDomainLimit(config)
      ensures FlatMap(HttpFilterOf(config), RouteLimit) == AskedRouteLimit(config)
    {
      OwnKinds(config);
    }
    FlatMapComposes(configs, HttpFilterOf, Authorization, AskedAuthorization);
    FlatMapComposes(configs, HttpFilterOf, DomainLimit, AskedDomainLimit);
    FlatMapComposes(configs, HttpFilterOf, RouteLimit, AskedRouteLimit);
  }
}
