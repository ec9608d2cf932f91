/** The virtual-host and route part of `parseListener`: nested loops that append an element
    and then patch the last one, and the routing that their result keeps. */
module RouteTables {
  import opened Text

  // ---- Stored configuration ----

  datatype HeaderRule = HeaderRule(name: string, exact: Option<string>, regex: Option<string>)

  /** `headers` is absent for a nil list: an empty list is a list. */
  datatype MatchRule = MatchRule(prefix: Option<string>, path: Option<string>, regex: Option<string>,
                                 headers: Option<seq<HeaderRule>>)

  datatype RequestHeaders = RequestHeaders(headerName: string, descriptorKey: string, skipIfAbsent: bool)
  datatype GenericKey = GenericKey(descriptorValue: string, descriptorKey: string)
  datatype ActionRule = ActionRule(requestHeaders: Option<RequestHeaders>, genericKey: Option<GenericKey>)
  datatype RateLimitRule = RateLimitRule(actions: seq<ActionRule>)

  datatype RouteRule = RouteRule(cluster: string, rateLimits: seq<RateLimitRule>, prefixRewrite: Option<string>,
                                 hostRewrite: Option<string>)
  datatype RedirectRule = RedirectRule(https: Option<bool>, host: Option<string>, path: Option<string>,
                                       prefixRewrite: Option<string>)
  datatype RouteConfig = RouteConfig(name: string, matcher: Option<MatchRule>, route: Option<RouteRule>,
                                     redirect: Option<RedirectRule>)
  datatype HostConfig = HostConfig(name: string, domains: seq<string>, rateLimits: seq<RateLimitRule>,
                                   routes: seq<RouteConfig>)

  // ---- Translated tables ----

  datatype HeaderSpecifier = Present | Exact(value: string) | Regex(regex: string)
  datatype HeaderMatcher = HeaderMatcher(name: string, specifier: HeaderSpecifier)
  datatype PathSpecifier = Prefix(prefix: string) | Path(path: string) | SafeRegex(regex: string)
  datatype RouteMatch = RouteMatch(path: PathSpecifier, headers: seq<HeaderMatcher>)
  datatype LimitAction = ByRequestHeaders(request: RequestHeaders) | ByGenericKey(generic: GenericKey)
  datatype PathRewrite = KeepPath | ReplacePath(path: string) | ReplacePrefix(prefix: string)

  datatype Action =
    | NoAction
    | RouteTo(cluster: string, rateLimits: seq<seq<LimitAction>>, prefixRewrite: string, hostRewrite: Option<string>)
    | RedirectTo(https: bool, host: string, rewrite: PathRewrite)

  datatype Route = Route(name: string, matcher: Option<RouteMatch>, action: Action)
  datatype VirtualHost = VirtualHost(name: string, domains: seq<string>, rateLimits: seq<seq<LimitAction>>,
                                     routes: seq<Route>)

  // ---- What the translation of each part is ----

  function HeaderOf(rule: HeaderRule): HeaderMatcher {
    HeaderMatcher(rule.name,
                  if rule.regex.Some? then Regex(rule.regex.value)
                  else if rule.exact.Some? then Exact(rule.exact.value)
                  else Present)
  }

  function PathOf(rule: MatchRule): Option<PathSpecifier> {
    if rule.regex.Some? then Some(SafeRegex(rule.regex.value))
    else if rule.path.Some? then Some(Path(rule.path.value))
    else if rule.prefix.Some? then Some(Prefix(rule.prefix.value))
    else None
  }

  function HeadersOf(rules: seq<HeaderRule>): seq<HeaderMatcher> {
    seq(|rules|, i requires 0 <= i < |rules| => HeaderOf(rules[i]))
  }

  function MatchOf(rule: MatchRule): Option<RouteMatch> {
    if PathOf(rule).None? then None
    else Some(RouteMatch(PathOf(rule).value, if rule.headers.None? then [] else HeadersOf(rule.headers.value)))
  }

  function OwnActions(rule: ActionRule): seq<LimitAction> {
    (if rule.requestHeaders.Some? then [ByRequestHeaders(rule.requestHeaders.value)] else [])
    + (if rule.genericKey.Some? then [ByGenericKey(rule.genericKey.value)] else [])
  }

  function ActionsOf(rules: seq<ActionRule>): seq<LimitAction> {
    if rules == [] then [] else OwnActions(rules[0]) + ActionsOf(rules[1..])
  }

  /** The list is made anew for every rule, so that only the last one stays in it. */
  function LimitsOf(rules: seq<RateLimitRule>): seq<seq<LimitAction>> {
    if rules == [] then [] else [ActionsOf(rules[|rules| - 1].actions)]
  }

  function RouteActionOf(rule: RouteRule): Action {
    RouteTo(rule.cluster, LimitsOf(rule.rateLimits),
            if rule.prefixRewrite.Some? then rule.prefixRewrite.value else "", rule.hostRewrite)
  }

  /** Any https setting, even false, turns https on. */
  function RedirectActionOf(rule: RedirectRule): Action {
    RedirectTo(rule.https.Some?, if rule.host.Some? then rule.host.value else "",
               if rule.prefixRewrite.Some? then ReplacePrefix(rule.prefixRewrite.value)
               else if rule.path.Some? then ReplacePath(rule.path.value)
               else KeepPath)
  }

  function ActionOf(config: RouteConfig): Action {
    if config.redirect.Some? then RedirectActionOf(config.redirect.value)
    else if config.route.Some? then RouteActionOf(config.route.value)
    else NoAction
  }

  /** Headers are stored into the match that a path specifier made: without one they follow
      a nil pointer. */
  predicate Translatable(config: RouteConfig) {
    config.matcher.Some? && config.matcher.value.headers.Some? ==> PathOf(config.matcher.value).Some?
  }

  function RouteOf(config: RouteConfig): Route {
    Route(config.name, if config.matcher.None? then None else MatchOf(config.matcher.value), ActionOf(config))
  }

  predicate HostTranslatable(host: HostConfig) {
    forall i :: 0 <= i < |host.routes| ==> Translatable(host.routes[i])
  }

  function RoutesOf(configs: seq<RouteConfig>): (r: seq<Route>)
    ensures |r| == |configs|
  {
    seq(|configs|, i requires 0 <= i < |configs| => RouteOf(configs[i]))
  }

  function HostOf(host: HostConfig): VirtualHost {
    VirtualHost(host.name, host.domains, LimitsOf(host.rateLimits), RoutesOf(host.routes))
  }

  // ---- The loops ----

  function Last<T>(s: seq<T>): T
    requires s != []
  {
    s[|s| - 1]
  }

  function PatchLast<T>(s: seq<T>, x: T): (r: seq<T>)
    requires s != []
    ensures r != [] && Last(r) == x
  {
    s[|s| - 1 := x]
  }

  lemma PatchTwice<T>(s: seq<T>, x: T, y: T)
    requires s != []
    ensures PatchLast(PatchLast(s, x), y) == PatchLast(s, y)
  {
  }

  lemma PatchAppended<T>(s: seq<T>, x: T, y: T)
    ensures Last(s + [x]) == x && PatchLast(s + [x], y) == s + [y]
  {
  }

  lemma ActionsFrom(before: seq<LimitAction>, rules: seq<ActionRule>, i: nat)
    requires i < |rules|
    ensures (before + OwnActions(rules[i])) + ActionsOf(rules[i + 1..]) == before + ActionsOf(rules[i..])
  {
    assert rules[i..][1..] == rules[i + 1..];
  }

  /** One turn: the actions of one rule. */
  method AddActions(before: seq<LimitAction>, rule: ActionRule) returns (actions: seq<LimitAction>)
    ensures actions == before + OwnActions(rule)
  {
    actions := before;
    if rule.requestHeaders.Some? {
      actions := actions + [ByRequestHeaders(rule.requestHeaders.value)];
    }
    if rule.genericKey.Some? {
      actions := actions + [ByGenericKey(rule.genericKey.value)];
    }
  }

  method TranslateActions(rules: seq<ActionRule>) returns (actions: seq<LimitAction>)
    ensures actions == ActionsOf(rules)
  {
    actions := [];
    for i := 0 to |rules|
      invariant actions + ActionsOf(rules[i..]) == ActionsOf(rules)
    {
      ActionsFrom(actions, rules, i);
      actions := AddActions(actions, rules[i]);
    }
  }

  method TranslateLimits(rules: seq<RateLimitRule>) returns (limits: seq<seq<LimitAction>>)
    ensures limits == LimitsOf(rules)
  {
    limits := [];
    for i := 0 to |rules|
      invariant limits == LimitsOf(rules[..i])
    {
      limits := [];
      var entry := TranslateActions(rules[i].actions);
      limits := limits + [entry];
    }
    assert rules[..|rules|] == rules;
  }

  /** The header list that is built up on the match of the last route. */
  method TranslateHeaders(routes: seq<Route>, path: PathSpecifier, rules: seq<HeaderRule>) returns (patched: seq<Route>)
    requires routes != [] && Last(routes).matcher == Some(RouteMatch(path, []))
    ensures patched == PatchLast(routes, Last(routes).(matcher := Some(RouteMatch(path, HeadersOf(rules)))))
  {
    patched := routes;
    assert HeadersOf(rules[..0]) == [];
    for i := 0 to |rules|
      invariant patched == PatchLast(routes, Last(routes).(matcher := Some(RouteMatch(path, HeadersOf(rules[..i])))))
    {
      var matcher := HeaderMatcher(rules[i].name, Present);
      if rules[i].exact.Some? {
        matcher := matcher.(specifier := Exact(rules[i].exact.value));
      }
      if rules[i].regex.Some? {
        matcher := matcher.(specifier := Regex(rules[i].regex.value));
      }
      assert HeadersOf(rules[..i + 1]) == HeadersOf(rules[..i]) + [matcher];
      var last := Last(patched);
      var grown := last.(matcher := Some(last.matcher.value.(headers := last.matcher.value.headers + [matcher])));
      PatchTwice(routes, last, grown);
      patched := PatchLast(patched, grown);
    }
    assert rules[..|rules|] == rules;
  }

  /** The match that is built up on the last route. */
  method TranslateMatch(routes: seq<Route>, rule: MatchRule) returns (result: Outcome<seq<Route>>)
    requires routes != [] && Last(routes).matcher == None
    ensures result.Panic? <==> rule.headers.Some? && PathOf(rule).None?
    ensures result.Done? ==> result.value == PatchLast(routes, Last(routes).(matcher := MatchOf(rule)))
  {
    var patched := routes;
    if rule.prefix.Some? {
      patched := PatchLast(patched, Last(patched).(matcher := Some(RouteMatch(Prefix(rule.prefix.value), []))));
    }
    if rule.path.Some? {
      patched := PatchLast(patched, Last(patched).(matcher := Some(RouteMatch(Path(rule.path.value), []))));
    }
    if rule.regex.Some? {
      patched := PatchLast(patched, Last(patched).(matcher := Some(RouteMatch(SafeRegex(rule.regex.value), []))));
    }
    assert patched == PatchLast(routes, Last(routes).(matcher := MatchOf(rule.(headers := None))));
    if rule.headers.Some? {
      if Last(patched).matcher.None? {
        return Panic;
      }
      patched := TranslateHeaders(patched, PathOf(rule).value, rule.headers.value);
    }
    return Done(patched);
  }

  /** The route action that is built up on the last route. */
  method TranslateRoute(routes: seq<Route>, rule: RouteRule) returns (patched: seq<Route>)
    requires routes != []
    ensures patched == PatchLast(routes, Last(routes).(action := RouteActionOf(rule)))
  {
    ghost var plain := Last(routes);
    patched := PatchLast(routes, Last(routes).(action := RouteTo(rule.cluster, [], "", None)));
    var limits := TranslateLimits(rule.rateLimits);
    patched := PatchLast(patched, Last(patched).(action := Last(patched).action.(rateLimits := limits)));
    assert patched == PatchLast(routes, plain.(action := RouteTo(rule.cluster, limits, "", None)));
    if rule.prefixRewrite.Some? {
      patched := PatchLast(patched, Last(patched).(action := Last(patched).action.(prefixRewrite := rule.prefixRewrite.value)));
    }
    assert patched == PatchLast(routes, plain.(action := RouteActionOf(rule.(hostRewrite := None))));
    if rule.hostRewrite.Some? {
      patched := PatchLast(patched, Last(patched).(action := Last(patched).action.(hostRewrite := rule.hostRewrite)));
    }
  }

  /** The redirect that is built up on the last route. */
  method TranslateRedirect(routes: seq<Route>, rule: RedirectRule) returns (patched: seq<Route>)
    requires routes != []
    ensures patched == PatchLast(routes, Last(routes).(action := RedirectActionOf(rule)))
  {
    ghost var plain := Last(routes);
    patched := PatchLast(routes, Last(routes).(action := RedirectTo(false, "", KeepPath)));
    if rule.https.Some? {
      patched := PatchLast(patched, Last(patched).(action := Last(patched).action.(https := true)));
    }
    assert patched == PatchLast(routes, plain.(action := RedirectTo(rule.https.Some?, "", KeepPath)));
    if rule.host.Some? {
      patched := PatchLast(patched, Last(patched).(action := Last(patched).action.(host := rule.host.value)));
    }
    assert patched == PatchLast(routes, plain.(action := RedirectActionOf(rule.(path := None, prefixRewrite := None))));
    if rule.path.Some? {
      patched := PatchLast(patched, Last(patched).(action := Last(patched).action.(rewrite := ReplacePath(rule.path.value))));
    }
    assert patched == PatchLast(routes, plain.(action := RedirectActionOf(rule.(prefixRewrite := None))));
    if rule.prefixRewrite.Some? {
      patched := PatchLast(patched, Last(patched).(action := Last(patched).action.(rewrite := ReplacePrefix(rule.prefixRewrite.value))));
    }
  }

  /** One turn of the loop over the routes of a virtual host. */
  method AddRoute(before: seq<Route>, config: RouteConfig) returns (result: Outcome<seq<Route>>)
    ensures result.Done? <==> Translatable(config)
    ensures result.Panic? <==>
      && config.matcher.Some? && config.matcher.value.headers.Some?
      && config.matcher.value.regex.None? && config.matcher.value.path.None? && config.matcher.value.prefix.None?
    ensures result.Done? ==> result.value == before + [RouteOf(config)]
  {
    var added := Route(config.name, None, NoAction);
    ghost var matched := RouteOf(config).(action := NoAction);
    var routes := before + [added];
    if config.matcher.Some? {
      result := TranslateMatch(routes, config.matcher.value);
      if result.Panic? {
        return;
      }
      PatchAppended(before, added, matched);
      routes := result.value;
    }
    assert routes == before + [matched];
    if config.route.Some? {
      PatchAppended(before, matched, matched.(action := RouteActionOf(config.route.value)));
      routes := TranslateRoute(routes, config.route.value);
    }
    if config.redirect.Some? {
      PatchAppended(before, Last(routes), RouteOf(config));
      routes := TranslateRedirect(routes, config.redirect.value);
    }
    return Done(routes);
  }

  method TranslateHosts(configs: seq<HostConfig>) returns (result: Outcome<seq<VirtualHost>>)
    ensures result.Done? <==> forall i :: 0 <= i < |configs| ==> HostTranslatable(configs[i])
    ensures result.Done? ==> |result.value| == |configs|
    ensures result.Done? ==> forall i :: 0 <= i < |configs| ==> result.value[i] == HostOf(configs[i])
    ensures result.Done? ==> forall i :: 0 <= i < |configs| ==>
      result.value[i].name == configs[i].name && result.value[i].domains == configs[i].domains &&
      |result.value[i].routes| == |configs[i].routes|
    ensures result.Done? ==> forall i, j :: 0 <= i < |configs| && 0 <= j < |configs[i].routes| ==>
      result.value[i].routes[j].name == configs[i].routes[j].name
  {
    var hosts: seq<VirtualHost> := [];
    for v := 0 to |configs|
      invariant |hosts| == v
      invariant forall i :: 0 <= i < v ==> HostTranslatable(configs[i]) && hosts[i] == HostOf(configs[i])
    {
      var config := configs[v];
      hosts := hosts + [VirtualHost(config.name, [], [], [])];
      hosts := hosts[v := hosts[v].(domains := config.domains)];
      var limits := TranslateLimits(config.rateLimits);
      hosts := hosts[v := hosts[v].(rateLimits := limits)];
      for r := 0 to |config.routes|
        invariant |hosts| == v + 1
        invariant forall i :: 0 <= i < v ==> hosts[i] == HostOf(configs[i])
        invariant forall i :: 0 <= i < r ==> Translatable(config.routes[i])
        invariant hosts[v] == VirtualHost(config.name, config.domains, limits, RoutesOf(config.routes[..r]))
      {
        var added := AddRoute(hosts[v].routes, config.routes[r]);
        if added.Panic? {
          assert !HostTranslatable(config);
          return Panic;
        }
        assert RoutesOf(config.routes[..r + 1]) == RoutesOf(config.routes[..r]) + [RouteOf(config.routes[r])];
        hosts := hosts[v := hosts[v].(routes := added.value)];
      }
      assert config.routes[..|config.routes|] == config.routes;
    }
    return Done(hosts);
  }

  // ---- Routing ----

  datatype Request = Request(host: string, path: string, headers: map<string, string>)

  /** Whether a regular expression matches a whole text. */
  type Engine = (string, string) -> bool

  predicate RuleHolds(rule: HeaderRule, request: Request, engine: Engine) {
    && rule.name in request.headers
    && (rule.regex.Some? ==> engine(rule.regex.value, request.headers[rule.name]))
    && (rule.regex.None? && rule.exact.Some? ==> request.headers[rule.name] == rule.exact.value)
  }

  /** A stored match: the regular expression decides where there is one, else the path, else
      the prefix, and every header rule holds; without any of the three nothing matches. */
  predicate ConfigMatches(config: RouteConfig, request: Request, engine: Engine) {
    config.matcher.Some? &&
    var rule := config.matcher.value;
    && (rule.regex.Some? || rule.path.Some? || rule.prefix.Some?)
    && (rule.regex.Some? ==> engine(rule.regex.value, request.path))
    && (rule.regex.None? && rule.path.Some? ==> request.path == rule.path.value)
    && (rule.regex.None? && rule.path.None? && rule.prefix.Some? ==> HasPrefix(request.path, rule.prefix.value))
    && (rule.headers.Some? ==> forall h :: h in rule.headers.value ==> RuleHolds(h, request, engine))
  }

  predicate MatcherHolds(matcher: HeaderMatcher, request: Request, engine: Engine) {
    matcher.name in request.headers &&
    match matcher.specifier
    case Present => true
    case Exact(value) => request.headers[matcher.name] == value
    case Regex(regex) => engine(regex, request.headers[matcher.name])
  }

  predicate PathHolds(path: PathSpecifier, request: Request, engine: Engine) {
    match path
    case Prefix(prefix) => HasPrefix(request.path, prefix)
    case Path(p) => request.path == p
    case SafeRegex(regex) => engine(regex, request.path)
  }

  predicate RouteMatches(route: Route, request: Request, engine: Engine) {
    && route.matcher.Some?
    && PathHolds(route.matcher.value.path, request, engine)
    && forall m :: m in route.matcher.value.headers ==> MatcherHolds(m, request, engine)
  }

  function FirstConfig(configs: seq<RouteConfig>, request: Request, engine: Engine): Option<nat> {
    if configs == [] then None
    else if ConfigMatches(configs[0], request, engine) then Some(0)
    else match FirstConfig(configs[1..], request, engine)
      case None => None
      case Some(i) => Some(i + 1)
  }

  function FirstRoute(routes: seq<Route>, request: Request, engine: Engine): Option<nat> {
    if routes == [] then None
    else if RouteMatches(routes[0], request, engine) then Some(0)
    else match FirstRoute(routes[1..], request, engine)
      case None => None
      case Some(i) => Some(i + 1)
  }

  lemma HeaderIsPreserved(rule: HeaderRule, request: Request, engine: Engine)
    ensures MatcherHolds(HeaderOf(rule), request, engine) <==> RuleHolds(rule, request, engine)
  {
  }

  lemma MatchIsPreserved(config: RouteConfig, request: Request, engine: Engine)
    requires Translatable(config)
    ensures RouteMatches(RouteOf(config), request, engine) <==> ConfigMatches(config, request, engine)
  {
    if config.matcher.Some? && config.matcher.value.headers.Some? {
      var rules := config.matcher.value.headers.value;
      var matchers := HeadersOf(rules);
      forall i | 0 <= i < |rules|
        ensures rules[i] in rules && matchers[i] in matchers
        ensures MatcherHolds(matchers[i], request, engine) <==> RuleHolds(rules[i], request, engine)
      {
        HeaderIsPreserved(rules[i], request, engine);
      }
    }
  }

  lemma {:induction false} SelectionIsPreserved(configs: seq<RouteConfig>, request: Request, engine: Engine)
    requires forall i :: 0 <= i < |configs| ==> Translatable(configs[i])
    ensures FirstRoute(RoutesOf(configs), request, engine) == FirstConfig(configs, request, engine)
  {
    if configs != [] {
      MatchIsPreserved(configs[0], request, engine);
      assert RoutesOf(configs)[1..] == RoutesOf(configs[1..]);
      SelectionIsPreserved(configs[1..], request, engine);
    }
  }

  /** Any way to choose a virtual host by the hosts' domain lists. */
  type Chooser = (seq<seq<string>>, string) -> nat

  function ConfigDomains(configs: seq<HostConfig>): seq<seq<string>> {
    seq(|configs|, i requires 0 <= i < |configs| => configs[i].domains)
  }

  function HostDomains(hosts: seq<VirtualHost>): seq<seq<string>> {
    seq(|hosts|, i requires 0 <= i < |hosts| => hosts[i].domains)
  }

  // ---- What a rate limit asks the limiter ----

  datatype DescriptorEntry = DescriptorEntry(key: string, value: string)

  /** The entries of a descriptor; without a value, the descriptor is not sent at all. */
  type Entries = Option<seq<DescriptorEntry>>

  function Both(a: Entries, b: Entries): Entries {
    if a.Some? && b.Some? then Some(a.value + b.value) else None
  }

  /** A header gives its value under the key; a missing one is skipped or stops the descriptor. */
  function HeaderEntry(header: string, key: string, skip: bool, headers: map<string, string>): Entries {
    if header in headers then Some([DescriptorEntry(key, headers[header])])
    else if skip then Some([])
    else None
  }

  function FixedEntry(key: string, value: string): Entries {
    Some([DescriptorEntry(if key == "" then "generic_key" else key, value)])
  }

  /** What the stored rules of a limit ask for: each rule its header, then its fixed value. */
  function RuleDescriptor(rules: seq<ActionRule>, headers: map<string, string>): Entries {
    if rules == [] then Some([])
    else
      var h, g := rules[0].requestHeaders, rules[0].genericKey;
      var own := Both(
        if h.Some? then HeaderEntry(h.value.headerName, h.value.descriptorKey, h.value.skipIfAbsent, headers) else Some([]),
        if g.Some? then FixedEntry(g.value.descriptorKey, g.value.descriptorValue) else Some([]));
      Both(own, RuleDescriptor(rules[1..], headers))
  }

  /** What the translated actions of a limit make. */
  function ActionEntry(action: LimitAction, headers: map<string, string>): Entries {
    match action
    case ByRequestHeaders(r) => HeaderEntry(r.headerName, r.descriptorKey, r.skipIfAbsent, headers)
    case ByGenericKey(g) => FixedEntry(g.descriptorKey, g.descriptorValue)
  }

  function ActionsDescriptor(actions: seq<LimitAction>, headers: map<string, string>): Entries {
    if actions == [] then Some([]) else Both(ActionEntry(actions[0], headers), ActionsDescriptor(actions[1..], headers))
  }

  lemma BothAssociates(a: Entries, b: Entries, c: Entries)
    ensures Both(Both(a, b), c) == Both(a, Both(b, c))
    ensures Both(a, Some([])) == a && Both(Some([]), a) == a
  {
    if a.Some? {
      assert a.value + [] == a.value && [] + a.value == a.value;
      if b.Some? && c.Some? {
        assert (a.value + b.value) + c.value == a.value + (b.value + c.value);
      }
    }
  }

  lemma {:induction false} DescriptorConcat(a: seq<LimitAction>, b: seq<LimitAction>, headers: map<string, string>)
    ensures ActionsDescriptor(a + b, headers) == Both(ActionsDescriptor(a, headers), ActionsDescriptor(b, headers))
  {
    if a == [] {
      assert a + b == b;
      BothAssociates(ActionsDescriptor(b, headers), Some([]), Some([]));
    } else {
      assert (a + b)[1..] == a[1..] + b;
      DescriptorConcat(a[1..], b, headers);
      BothAssociates(ActionEntry(a[0], headers), ActionsDescriptor(a[1..], headers), ActionsDescriptor(b, headers));
    }
  }

  lemma OneAction(action: LimitAction, headers: map<string, string>)
    ensures ActionsDescriptor([action], headers) == ActionEntry(action, headers)
  {
    assert [action][1..] == [];
    BothAssociates(ActionEntry(action, headers), Some([]), Some([]));
  }

  lemma OwnDescriptor(rule: ActionRule, headers: map<string, string>)
    ensures var h, g := rule.requestHeaders, rule.genericKey;
      ActionsDescriptor(OwnActions(rule), headers) == Both(
        if h.Some? then HeaderEntry(h.value.headerName, h.value.descriptorKey, h.value.skipIfAbsent, headers) else Some([]),
        if g.Some? then FixedEntry(g.value.descriptorKey, g.value.descriptorValue) else Some([]))
  {
    var first := if rule.requestHeaders.Some? then [ByRequestHeaders(rule.requestHeaders.value)] else [];
    var second := if rule.genericKey.Some? then [ByGenericKey(rule.genericKey.value)] else [];
    DescriptorConcat(first, second, headers);
    if rule.requestHeaders.Some? {
      OneAction(first[0], headers);
    }
    if rule.genericKey.Some? {
      OneAction(second[0], headers);
    }
  }

  /** A translated limit asks exactly what its stored rules ask, for every request. */
  lemma {:induction false} LimitIsPreserved(rules: seq<ActionRule>, headers: map<string, string>)
    ensures ActionsDescriptor(ActionsOf(rules), headers) == RuleDescriptor(rules, headers)
  {
    if rules != [] {
      LimitIsPreserved(rules[1..], headers);
      DescriptorConcat(OwnActions(rules[0]), ActionsOf(rules[1..]), headers);
      OwnDescriptor(rules[0], headers);
    }
  }

  function StoredDescriptors(rules: seq<RateLimitRule>, headers: map<string, string>): seq<Entries> {
    seq(|rules|, i requires 0 <= i < |rules| => RuleDescriptor(rules[i].actions, headers))
  }

  function SentDescriptors(limits: seq<seq<LimitAction>>, headers: map<string, string>): seq<Entries> {
    seq(|limits|, i requires 0 <= i < |limits| => ActionsDescriptor(limits[i], headers))
  }

  /** Of a list of rate limits the last one, and no other, is asked for; so all are exactly
      when there is at most one. */
  lemma RateLimitsSurvive(rules: seq<RateLimitRule>, headers: map<string, string>)
    ensures SentDescriptors(LimitsOf(rules), headers) ==
      if rules == [] then [] else [RuleDescriptor(rules[|rules| - 1].actions, headers)]
    ensures SentDescriptors(LimitsOf(rules), headers) == StoredDescriptors(rules, headers) <==> |rules| <= 1
  {
    assert |StoredDescriptors(rules, headers)| == |rules|;
    if rules != [] {
      LimitIsPreserved(rules[|rules| - 1].actions, headers);
    }
  }

  // ---- What becomes of a routed request ----

  /** A forwarded request has a cluster, its path and host as they are sent on, and the rate
      limits that are asked; a redirected one says whether https is turned on, and where to. */
  datatype Sent =
    | Unrouted
    | Forwarded(cluster: string, path: string, host: string, limits: seq<Entries>)
    | Redirected(https: bool, host: string, path: string)

  /** The path with its first `matched` characters replaced. */
  function Rewritten(path: string, matched: nat, prefix: string): string {
    if matched <= |path| then prefix + path[matched..] else prefix
  }

  /** What the stored route asks for: a redirect before a route, https only where it is set to
      true, a prefix rewrite before a path; the first `matched` characters of the path matched. */
  function Asked(config: RouteConfig, request: Request, matched: nat): Sent {
    match config.redirect
    case Some(rule) =>
      Redirected(rule.https == Some(true),
                 if rule.host.Some? && rule.host.value != "" then rule.host.value else request.host,
                 match rule.prefixRewrite
                 case Some(prefix) => Rewritten(request.path, matched, prefix)
                 case None => if rule.path.Some? then rule.path.value else request.path)
    case None =>
      match config.route
      case None => Unrouted
      case Some(rule) =>
        Forwarded(rule.cluster,
                  if rule.prefixRewrite.Some? && rule.prefixRewrite.value != ""
                  then Rewritten(request.path, matched, rule.prefixRewrite.value) else request.path,
                  if rule.hostRewrite.Some? && rule.hostRewrite.value != "" then rule.hostRewrite.value else request.host,
                  StoredDescriptors(rule.rateLimits, request.headers))
  }

  /** What a translated action does with a request; an empty host or prefix rewrites nothing. */
  function Effect(action: Action, request: Request, matched: nat): Sent {
    match action
    case NoAction => Unrouted
    case RouteTo(cluster, limits, prefix, host) =>
      Forwarded(cluster,
                if prefix == "" then request.path else Rewritten(request.path, matched, prefix),
                if host.None? || host.value == "" then request.host else host.value,
                SentDescriptors(limits, request.headers))
    case RedirectTo(https, host, rewrite) =>
      Redirected(https,
                 if host == "" then request.host else host,
                 match rewrite
                 case KeepPath => request.path
                 case ReplacePath(path) => path
                 case ReplacePrefix(prefix) => Rewritten(request.path, matched, prefix))
  }

  /** How much of a path a match matches: its prefix, or all of it. */
  function ConfigMatched(config: RouteConfig, path: string): nat {
    if config.matcher.Some? && config.matcher.value.regex.None? && config.matcher.value.path.None?
       && config.matcher.value.prefix.Some?
    then |config.matcher.value.prefix.value| else |path|
  }

  function RouteMatched(route: Route, path: string): nat {
    if route.matcher.Some? && route.matcher.value.path.Prefix? then |route.matcher.value.path.prefix| else |path|
  }

  /** The condition under which a route's action comes through unchanged. */
  predicate ActionSafe(config: RouteConfig) {
    && (config.redirect.Some? ==> config.redirect.value.https != Some(false))
    && (config.redirect.None? && config.route.Some? ==> |config.route.value.rateLimits| <= 1)
  }

  /** Every request is treated as the stored route asks exactly under that condition. */
  lemma ActionIsPreserved(config: RouteConfig, request: Request, matched: nat)
    ensures Effect(RouteOf(config).action, request, matched) == Asked(config, request, matched) <==> ActionSafe(config)
  {
    if config.redirect.Some? {
      match config.redirect.value.https {
        case None =>
        case Some(enabled) => assert Some(enabled) == Some(true) <==> enabled;
      }
    } else if config.route.Some? {
      RateLimitsSurvive(config.route.value.rateLimits, request.headers);
    }
  }

  /** Where a request goes: the virtual host, the route in it, what becomes of it there, and
      what the host's own rate limits ask. */
  datatype Routing = Routing(host: nat, route: nat, sent: Sent, hostLimits: seq<Entries>)

  function ConfigRouting(configs: seq<HostConfig>, request: Request, choose: Chooser, engine: Engine): Option<Routing> {
    var h := choose(ConfigDomains(configs), request.host);
    if h >= |configs| then None
    else match FirstConfig(configs[h].routes, request, engine)
      case None => None
      case Some(r) =>
        if r >= |configs[h].routes| then None
        else
          var config := configs[h].routes[r];
          Some(Routing(h, r, Asked(config, request, ConfigMatched(config, request.path)),
                       StoredDescriptors(configs[h].rateLimits, request.headers)))
  }

  function HostRouting(hosts: seq<VirtualHost>, request: Request, choose: Chooser, engine: Engine): Option<Routing> {
    var h := choose(HostDomains(hosts), request.host);
    if h >= |hosts| then None
    else match FirstRoute(hosts[h].routes, request, engine)
      case None => None
      case Some(r) =>
        if r >= |hosts[h].routes| then None
        else
          var route := hosts[h].routes[r];
          Some(Routing(h, r, Effect(route.action, request, RouteMatched(route, request.path)),
                       SentDescriptors(hosts[h].rateLimits, request.headers)))
  }

  lemma {:induction false} FirstConfigInRange(configs: seq<RouteConfig>, request: Request, engine: Engine)
    ensures FirstConfig(configs, request, engine).Some? ==>
      FirstConfig(configs, request, engine).value < |configs| &&
      ConfigMatches(configs[FirstConfig(configs, request, engine).value], request, engine)
  {
    if configs != [] {
      FirstConfigInRange(configs[1..], request, engine);
    }
  }

  /** Both tables pick the same virtual host and the same route in it, or none; what becomes of
      the request is what that stored route asks exactly when its action is safe, and the host's
      rate limits all ask exactly when there is at most one. */
  predicate RoutedAlike(configs: seq<HostConfig>, hosts: seq<VirtualHost>, request: Request, choose: Chooser, engine: Engine) {
    var stored, translated := ConfigRouting(configs, request, choose, engine), HostRouting(hosts, request, choose, engine);
    && (stored.Some? <==> translated.Some?)
    && (stored.Some? ==>
        && translated.value.host == stored.value.host < |configs|
        && translated.value.route == stored.value.route < |configs[stored.value.host].routes|
        && (translated.value.sent == stored.value.sent <==> ActionSafe(configs[stored.value.host].routes[stored.value.route]))
        && (translated.value.hostLimits == stored.value.hostLimits <==> |configs[stored.value.host].rateLimits| <= 1))
  }

  predicate HostsTranslated(configs: seq<HostConfig>, hosts: seq<VirtualHost>) {
    && (forall i :: 0 <= i < |configs| ==> HostTranslatable(configs[i]))
    && |hosts| == |configs| && forall i :: 0 <= i < |configs| ==> hosts[i] == HostOf(configs[i])
  }

  /** The translated tables send every request where the stored ones do. */
  lemma RoutingIsPreserved(configs: seq<HostConfig>, hosts: seq<VirtualHost>, request: Request, choose: Chooser, engine: Engine)
    requires HostsTranslated(configs, hosts)
    ensures RoutedAlike(configs, hosts, request, choose, engine)
  {
    assert HostDomains(hosts) == ConfigDomains(configs);
    var h := choose(ConfigDomains(configs), request.host);
    if h < |configs| {
      SelectionIsPreserved(configs[h].routes, request, engine);
      FirstConfigInRange(configs[h].routes, request, engine);
      var first := FirstConfig(configs[h].routes, request, engine);
      if first.Some? {
        var config := configs[h].routes[first.value];
        ActionIsPreserved(config, request, ConfigMatched(config, request.path));
        RateLimitsSurvive(configs[h].rateLimits, request.headers);
      }
    }
  }
}
