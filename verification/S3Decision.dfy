/** The S3 authorization service: which namespace a request belongs to, and whether the
    request may pass. */
module S3Decision {
  import opened Text
  import opened AccessKeys

  // ---- Configuration and requests ----

  datatype NamespaceConfig = NamespaceConfig(action: bool, sources: Option<map<string, bool>>)
  datatype Config = Config(namespaces: Option<map<string, NamespaceConfig>>)

  datatype Http = Http(headers: map<string, string>, path: string, host: string)
  datatype Address = Socket(address: string) | NoSocket

  /** Without `source`, the request has no source peer or the peer no address. */
  datatype Attributes = Attributes(http: Option<Http>, source: Option<Address>)

  datatype Reply = OkReply(headers: map<string, string>) | DeniedReply(status: nat, headers: map<string, string>)
  datatype Answer = Answer(code: nat, reply: Reply)

  const OK: nat := 0
  const PERMISSION_DENIED: nat := 7
  const NAMESPACE_HEADER := "x-envoy-s3-namespace"

  // ---- The rule ----

  /** A key only decides when it is mapped to a namespace. */
  function Mapped(key: Outcome<string>, namespaces: map<string, string>): Outcome<Option<string>> {
    if key.Panic? then Panic
    else Done(if key.value in namespaces then Some(namespaces[key.value]) else None)
  }

  function FromHeader(http: Http, namespaces: map<string, string>): Outcome<Option<string>> {
    if "authorization" in http.headers then Mapped(HeaderKey(Fields(http.headers["authorization"])), namespaces) else Done(None)
  }

  function FromQuery(http: Http, namespaces: map<string, string>): Outcome<Option<string>> {
    var pieces := Split(http.path, "?");
    if |pieces| > 1 then Mapped(QueryKey(Split(pieces[1], "&")), namespaces) else Done(None)
  }

  function FromNamespaceHeader(http: Http): Option<string> {
    if "x-emc-namespace" in http.headers then Some(http.headers["x-emc-namespace"]) else None
  }

  function FromHost(http: Http): Option<string> {
    var labels := Split(http.host, ".");
    if |labels| >= 3 then Some(labels[0]) else None
  }

  /** The first place that names a namespace, in this order. */
  function FirstNamed(places: seq<Outcome<Option<string>>>): Outcome<Option<string>> {
    if places == [] then Done(None)
    else if places[0].Panic? || places[0].value.Some? then places[0]
    else FirstNamed(places[1..])
  }

  lemma FirstNamedOfFour(a: Outcome<Option<string>>, b: Outcome<Option<string>>, c: Outcome<Option<string>>,
                         d: Outcome<Option<string>>)
    ensures FirstNamed([a, b, c, d]) ==
      if a != Done(None) then a else if b != Done(None) then b else if c != Done(None) then c else d
  {
    assert FirstNamed([d]) == d;
    assert [c, d][1..] == [d] && FirstNamed([c, d]) == if c != Done(None) then c else d;
    assert [b, c, d][1..] == [c, d] && [a, b, c, d][1..] == [b, c, d];
  }

  function RequestNamespace(http: Http, namespaces: map<string, string>): Outcome<Option<string>> {
    FirstNamed([FromHeader(http, namespaces), FromQuery(http, namespaces), Done(FromNamespaceHeader(http)), Done(FromHost(http))])
  }

  function Configured(config: Option<Config>, namespace: string): Option<NamespaceConfig> {
    if config.None? || config.value.namespaces.None? || namespace !in config.value.namespaces.value then None
    else Some(config.value.namespaces.value[namespace])
  }

  /** The action for a source: its own one where it has one, else the namespace's. */
  function Effective(entry: NamespaceConfig, source: Option<Address>): Outcome<bool> {
    if entry.sources.None? then Done(entry.action)
    else match source
      case None => Panic
      case Some(Socket(address)) =>
        Done(if address in entry.sources.value then entry.sources.value[address] else entry.action)
      case Some(NoSocket) => Done(entry.action)
  }

  /** Whether a request of a namespace may pass. */
  function Permitted(config: Option<Config>, namespace: string, source: Option<Address>): Outcome<bool> {
    var entry := Configured(config, namespace);
    if entry.None? then Done(true) else Effective(entry.value, source)
  }

  function NamespaceHeaders(namespace: string): map<string, string> {
    if namespace == "" then map[] else map[NAMESPACE_HEADER := namespace]
  }

  function AnswerFor(action: bool, namespace: string): Answer {
    if action then Answer(OK, OkReply(NamespaceHeaders(namespace)))
    else Answer(PERMISSION_DENIED, DeniedReply(403, NamespaceHeaders(namespace)))
  }

  /** A request that is not HTTP gets the answer that was set up at the start. */
  function Decide(attributes: Option<Attributes>, config: Option<Config>, namespaces: map<string, string>): Outcome<Answer> {
    if attributes.None? then Panic
    else if attributes.value.http.None? then Done(Answer(200, OkReply(map[])))
    else match RequestNamespace(attributes.value.http.value, namespaces)
      case Panic => Panic
      case Done(None) => Done(AnswerFor(true, ""))
      case Done(Some(namespace)) =>
        var permitted := Permitted(config, namespace, attributes.value.source);
        if permitted.Panic? then Panic else Done(AnswerFor(permitted.value, namespace))
  }

  // ---- The rule, read off the text of a request ----

  predicate HeaderGives(http: Http, key: string) {
    "authorization" in http.headers && HeaderCarries(Fields(http.headers["authorization"]), key)
  }

  predicate QueryGives(http: Http, key: string) {
    var pieces := Split(http.path, "?");
    |pieces| > 1 && QueryCarries(Split(pieces[1], "&"), key)
  }

  /** Two fields or more, or one that does not start with AWS. */
  predicate HeaderReadable(http: Http) {
    "authorization" in http.headers ==>
      var fields := Fields(http.headers["authorization"]);
      |fields| >= 2 || (|fields| == 1 && !IsAws(fields[0]))
  }

  /** The first parameter that carries a key is not a bare name. */
  predicate QueryReadable(http: Http) {
    var pieces := Split(http.path, "?");
    |pieces| > 1 ==>
      var parameters := Split(pieces[1], "&");
      forall i :: 0 <= i < |parameters| && FirstCarrierIs(parameters, i) ==> !Bare(parameters[i])
  }

  ghost predicate HeaderMaps(http: Http, namespaces: map<string, string>) {
    exists key :: HeaderGives(http, key) && key in namespaces
  }

  ghost predicate QueryMaps(http: Http, namespaces: map<string, string>) {
    exists key :: QueryGives(http, key) && key in namespaces
  }

  /** The namespace of a request: that of the key in its header; if the header has none, or an
      unmapped one, that of the key in its query; then its namespace header, then the first of
      three or more labels of its host. */
  ghost predicate Belongs(http: Http, namespaces: map<string, string>, namespace: string) {
    HeaderReadable(http) &&
    if HeaderMaps(http, namespaces) then
      exists key :: HeaderGives(http, key) && key in namespaces && namespaces[key] == namespace
    else
      QueryReadable(http) &&
      if QueryMaps(http, namespaces) then
        exists key :: QueryGives(http, key) && key in namespaces && namespaces[key] == namespace
      else if "x-emc-namespace" in http.headers then namespace == http.headers["x-emc-namespace"]
      else |Split(http.host, ".")| >= 3 && namespace == Split(http.host, ".")[0]
  }

  /** The namespace is configured, and the source's action, or else its own, is to refuse. */
  predicate Refuses(config: Option<Config>, namespace: string, source: Option<Address>) {
    var entry := Configured(config, namespace);
    && entry.Some?
    && if entry.value.sources.Some? && source.Some? && source.value.Socket? && source.value.address in entry.value.sources.value
       then !entry.value.sources.value[source.value.address]
       else !entry.value.action
  }

  lemma FromHeaderIsGiven(http: Http, namespaces: map<string, string>)
    ensures FromHeader(http, namespaces).Done? <==> HeaderReadable(http)
    ensures FromHeader(http, namespaces).Done? && FromHeader(http, namespaces) != Done(None) <==>
      HeaderReadable(http) && HeaderMaps(http, namespaces)
    ensures forall key :: HeaderGives(http, key) && key in namespaces ==> FromHeader(http, namespaces) == Done(Some(namespaces[key]))
  {
    if "authorization" in http.headers {
      var fields := Fields(http.headers["authorization"]);
      HeaderParserIsDefined(fields);
      forall key
        ensures HeaderGives(http, key) <==> HeaderKey(fields) == Done(key)
      {
        HeaderKeyIsCarried(fields, key);
      }
      if HeaderKey(fields).Done? {
        assert HeaderGives(http, HeaderKey(fields).value);
      }
    }
  }

  lemma FromQueryIsGiven(http: Http, namespaces: map<string, string>)
    ensures FromQuery(http, namespaces).Done? <==> QueryReadable(http)
    ensures FromQuery(http, namespaces).Done? && FromQuery(http, namespaces) != Done(None) <==>
      QueryReadable(http) && QueryMaps(http, namespaces)
    ensures forall key :: QueryGives(http, key) && key in namespaces ==> FromQuery(http, namespaces) == Done(Some(namespaces[key]))
  {
    var pieces := Split(http.path, "?");
    if |pieces| > 1 {
      var parameters := Split(pieces[1], "&");
      QueryParserIsDefined(parameters);
      forall key
        ensures QueryGives(http, key) <==> QueryKey(parameters) == Done(key)
      {
        QueryKeyIsCarried(parameters, key);
      }
      if QueryKey(parameters).Done? {
        assert QueryGives(http, QueryKey(parameters).value);
      }
    }
  }

  /** What the four places come to is what the request's text says. */
  lemma NamespaceIsAsWritten(http: Http, namespaces: map<string, string>)
    ensures RequestNamespace(http, namespaces).Done? <==>
      HeaderReadable(http) && (HeaderMaps(http, namespaces) || QueryReadable(http))
    ensures forall namespace :: Belongs(http, namespaces, namespace) <==>
      RequestNamespace(http, namespaces) == Done(Some(namespace))
  {
    FirstNamedOfFour(FromHeader(http, namespaces), FromQuery(http, namespaces), Done(FromNamespaceHeader(http)),
                     Done(FromHost(http)));
    FromHeaderIsGiven(http, namespaces);
    FromQueryIsGiven(http, namespaces);
  }

  // ---- The service ----

  class Response {
    var code: nat
    var reply: Reply

    constructor ()
      ensures Value() == Answer(200, OkReply(map[]))
    {
      code, reply := 200, OkReply(map[]);
    }

    function Value(): Answer
      reads this
    {
      Answer(code, reply)
    }

    method SetStatus(action: bool, namespace: string)
      modifies this
      ensures Value() == AnswerFor(action, namespace)
      ensures code == (if action then 0 else 7) && (action <==> reply.OkReply?) && (!action ==> reply.status == 403)
      ensures reply.headers == if namespace == "" then map[] else map["x-envoy-s3-namespace" := namespace]
    {
      if action {
        if |namespace| > 0 {
          reply := OkReply(map[NAMESPACE_HEADER := namespace]);
        } else {
          reply := OkReply(map[]);
        }
        code := OK;
      } else {
        if |namespace| > 0 {
          reply := DeniedReply(403, map[NAMESPACE_HEADER := namespace]);
        } else {
          reply := DeniedReply(403, map[]);
        }
        code := PERMISSION_DENIED;
      }
    }
  }

  method GetRequestNamespace(http: Http, namespaces: map<string, string>) returns (found: Outcome<Option<string>>)
    ensures found == RequestNamespace(http, namespaces)
  {
    FirstNamedOfFour(FromHeader(http, namespaces), FromQuery(http, namespaces), Done(FromNamespaceHeader(http)),
                     Done(FromHost(http)));
    if "authorization" in http.headers {
      var key := GetHeaderNamespace(http.headers["authorization"]);
      if key.Panic? {
        return Panic;
      }
      if key.value in namespaces {
        return Done(Some(namespaces[key.value]));
      }
    }
    var query := Split(http.path, "?");
    if |query| > 1 {
      var key := GetQueryNamespace(query[1]);
      if key.Panic? {
        return Panic;
      }
      if key.value in namespaces {
        return Done(Some(namespaces[key.value]));
      }
    }
    if "x-emc-namespace" in http.headers {
      return Done(Some(http.headers["x-emc-namespace"]));
    }
    var hosts := Split(http.host, ".");
    if |hosts| >= 3 {
      return Done(Some(hosts[0]));
    }
    return Done(None);
  }

  class Service {
    var config: Option<Config>
    var namespaces: map<string, string>

    constructor ()
      ensures config == None && namespaces == map[]
    {
      config, namespaces := None, map[];
    }

    method SetConfig(newConfig: Option<Config>)
      modifies this`config
      ensures config == newConfig
    {
      config := newConfig;
    }

    method SetNamespaces(newNamespaces: map<string, string>)
      modifies this`namespaces
      ensures namespaces == newNamespaces
    {
      namespaces := newNamespaces;
    }

    /** A panic leaves the response unused. */
    method Check(attributes: Option<Attributes>) returns (panicked: bool, response: Response)
      ensures fresh(response)
      ensures panicked == Decide(attributes, config, namespaces).Panic?
      ensures !panicked ==> Decide(attributes, config, namespaces) == Done(response.Value())
      ensures panicked <==> attributes.None? || (attributes.value.http.Some? && !Decidable(attributes.value, config, namespaces))
      ensures !panicked && attributes.value.http.Some? ==> Right(attributes.value, config, namespaces, response.Value())
      ensures !panicked && attributes.value.http.None? ==> response.code == 200 && response.reply == OkReply(map[])
    {
      if attributes.Some? && attributes.value.http.Some? {
        DecisionIsDefined(attributes.value, config, namespaces);
        DecisionIsRight(attributes.value, config, namespaces);
      }
      response := new Response();
      panicked := false;
      if attributes.None? {
        panicked := true;
        return;
      }
      if attributes.value.http.None? {
        return;
      }
      var found := GetRequestNamespace(attributes.value.http.value, namespaces);
      if found.Panic? {
        panicked := true;
        return;
      }
      if found.value.None? {
        response.SetStatus(true, "");
        return;
      }
      var namespace := found.value.value;
      response.SetStatus(true, namespace);
      if config.None? || config.value.namespaces.None? {
        return;
      }
      if namespace in config.value.namespaces.value {
        var entry := config.value.namespaces.value[namespace];
        response.SetStatus(entry.action, namespace);
        if entry.sources.None? {
          return;
        }
        if attributes.value.source.None? {
          panicked := true;
          return;
        }
        match attributes.value.source.value {
          case Socket(address) =>
            if address in entry.sources.value {
              response.SetStatus(entry.sources.value[address], namespace);
            }
          case NoSocket =>
        }
      }
    }
  }

  // ---- What the answers mean ----

  predicate HasSourceRules(config: Option<Config>, namespace: string) {
    var entry := Configured(config, namespace);
    entry.Some? && entry.value.sources.Some?
  }

  /** What a request must be like to be decided: its header can be read; its query can, if the
      header names no namespace; and it names its source, if its namespace has source rules. */
  ghost predicate Decidable(attributes: Attributes, config: Option<Config>, namespaces: map<string, string>)
    requires attributes.http.Some?
  {
    var http := attributes.http.value;
    && HeaderReadable(http)
    && (HeaderMaps(http, namespaces) || QueryReadable(http))
    && (forall namespace :: Belongs(http, namespaces, namespace) && HasSourceRules(config, namespace) ==> attributes.source.Some?)
  }

  /** A decision is reached on exactly these requests, and on no others without a panic. */
  lemma DecisionIsDefined(attributes: Attributes, config: Option<Config>, namespaces: map<string, string>)
    requires attributes.http.Some?
    ensures Decide(Some(attributes), config, namespaces).Done? <==> Decidable(attributes, config, namespaces)
  {
    var http := attributes.http.value;
    NamespaceIsAsWritten(http, namespaces);
    var found := RequestNamespace(http, namespaces);
    if found.Done? && found.value.Some? {
      assert Belongs(http, namespaces, found.value.value);
    }
  }

  /** Refused, with code 7 and a reply of status 403, exactly when the namespace that the request
      belongs to refuses it: what is not configured passes, with code 0 and an allowing reply.
      The namespace, unless it is empty, is the only header of either reply. */
  ghost predicate Right(attributes: Attributes, config: Option<Config>, namespaces: map<string, string>, answer: Answer)
    requires attributes.http.Some?
  {
    var http, headers := attributes.http.value, answer.reply.headers;
    && (answer.code == 0 || answer.code == 7)
    && (answer.code == 0 <==> answer.reply.OkReply?)
    && (answer.code == 7 ==> answer.reply.status == 403)
    && (answer.code == 7 <==>
        exists namespace :: Belongs(http, namespaces, namespace) && Refuses(config, namespace, attributes.source))
    && (forall name :: name in headers ==> name == "x-envoy-s3-namespace" && Belongs(http, namespaces, headers[name]))
    && (forall namespace :: Belongs(http, namespaces, namespace) && namespace != "" ==>
         headers == map["x-envoy-s3-namespace" := namespace])
  }

  lemma DecisionIsRight(attributes: Attributes, config: Option<Config>, namespaces: map<string, string>)
    requires attributes.http.Some?
    ensures Decide(Some(attributes), config, namespaces).Done? ==>
      Right(attributes, config, namespaces, Decide(Some(attributes), config, namespaces).value)
  {
    var http := attributes.http.value;
    NamespaceIsAsWritten(http, namespaces);
    var found := RequestNamespace(http, namespaces);
    if found.Done? && found.value.Some? {
      assert Belongs(http, namespaces, found.value.value);
    }
  }

  // ---- Which namespace decides ----

  /** The outcome of a request that belongs to a namespace: a panic where the namespace has source
      rules and the request no source, else an answer that carries the namespace, denying with
      code 7 and status 403 if the namespace refuses and allowing with code 0 if not. */
  predicate AnsweredIn(config: Option<Config>, namespace: string, source: Option<Address>, outcome: Outcome<Answer>) {
    if HasSourceRules(config, namespace) && source.None? then outcome.Panic?
    else
      && outcome.Done?
      && outcome.value.reply.headers == (if namespace == "" then map[] else map["x-envoy-s3-namespace" := namespace])
      && if Refuses(config, namespace, source)
         then outcome.value.code == 7 && outcome.value.reply.DeniedReply? && outcome.value.reply.status == 403
         else outcome.value.code == 0 && outcome.value.reply.OkReply?
  }

  lemma BelongingDecides(attributes: Attributes, http: Http, config: Option<Config>, namespaces: map<string, string>,
                         namespace: string)
    requires attributes.http == Some(http) && Belongs(http, namespaces, namespace)
    ensures AnsweredIn(config, namespace, attributes.source, Decide(Some(attributes), config, namespaces))
  {
    NamespaceIsAsWritten(http, namespaces);
  }

  lemma HeaderKeyDecides(attributes: Attributes, http: Http, config: Option<Config>, namespaces: map<string, string>, key: string)
    requires attributes.http == Some(http) && HeaderGives(http, key) && key in namespaces
    ensures Belongs(http, namespaces, namespaces[key])
    ensures AnsweredIn(config, namespaces[key], attributes.source, Decide(Some(attributes), config, namespaces))
  {
    FromHeaderIsGiven(http, namespaces);
    BelongingDecides(attributes, http, config, namespaces, namespaces[key]);
  }

  /** A request signed with Version 4 is decided by the namespace of its key alone, whatever
      its path, its host and its other headers say. */
  lemma SignedRequestIsDecidedByItsKey(attributes: Attributes, http: Http, config: Option<Config>,
                                       namespaces: map<string, string>, gaps: seq<string>, fields: seq<string>,
                                       tail: string, i: nat, name: string, key: string, rest: string)
    requires attributes.http == Some(http)
    requires Layout(gaps, fields, tail) && 0 < i < |fields| && IsAws4(fields[0])
    requires forall j :: 0 <= j < i ==> !IsCredential(fields[j])
    requires ToLower(name) == "credential=" && fields[i] == name + (key + "/" + rest)
    requires "authorization" in http.headers && http.headers["authorization"] == Spread(gaps, fields, tail)
    requires '/' !in key && key in namespaces
    ensures Belongs(http, namespaces, namespaces[key])
    ensures AnsweredIn(config, namespaces[key], attributes.source, Decide(Some(attributes), config, namespaces))
  {
    Version4HeaderRoundTrip(gaps, fields, tail, i, name, key, rest);
    HeaderKeyIsCarried(Fields(Spread(gaps, fields, tail)), key);
    HeaderKeyDecides(attributes, http, config, namespaces, key);
  }

  /** So is a request signed with Version 2. */
  lemma Version2SignedRequestIsDecidedByItsKey(attributes: Attributes, http: Http, config: Option<Config>,
                                               namespaces: map<string, string>, gaps: seq<string>, fields: seq<string>,
                                               tail: string, key: string, signature: string)
    requires attributes.http == Some(http)
    requires Layout(gaps, fields, tail) && |fields| >= 2 && IsAws(fields[0])
    requires IsAws4(fields[0]) ==> forall j :: 0 <= j < |fields| ==> !IsCredential(fields[j])
    requires fields[1] == key + ":" + signature && ':' !in key && key in namespaces
    requires "authorization" in http.headers && http.headers["authorization"] == Spread(gaps, fields, tail)
    ensures Belongs(http, namespaces, namespaces[key])
    ensures AnsweredIn(config, namespaces[key], attributes.source, Decide(Some(attributes), config, namespaces))
  {
    Version2HeaderRoundTrip(gaps, fields, tail, key, signature);
    HeaderKeyIsCarried(Fields(Spread(gaps, fields, tail)), key);
    HeaderKeyDecides(attributes, http, config, namespaces, key);
  }

  /** The header, if there is one, can be read and names no namespace. */
  ghost predicate HeaderSilent(http: Http, namespaces: map<string, string>) {
    HeaderReadable(http) && !HeaderMaps(http, namespaces)
  }

  ghost predicate QuerySilent(http: Http, namespaces: map<string, string>) {
    QueryReadable(http) && !QueryMaps(http, namespaces)
  }

  lemma QueryKeyDecides(attributes: Attributes, http: Http, config: Option<Config>, namespaces: map<string, string>,
                        target: string, query: string, key: string)
    requires attributes.http == Some(http) && HeaderSilent(http, namespaces)
    requires '?' !in target && '?' !in query && http.path == target + "?" + query
    requires QueryKey(Split(query, "&")) == Done(key) && key in namespaces
    ensures Belongs(http, namespaces, namespaces[key])
    ensures AnsweredIn(config, namespaces[key], attributes.source, Decide(Some(attributes), config, namespaces))
  {
    SplitOnChar([target, query], '?');
    assert [target, query][1..] == [query];
    assert Join([target, query], "?") == http.path;
    QueryKeyIsCarried(Split(query, "&"), key);
    assert QueryGives(http, key);
    FromQueryIsGiven(http, namespaces);
    BelongingDecides(attributes, http, config, namespaces, namespaces[key]);
  }

  /** A pre-signed request whose header names no namespace is decided by the key in its query. */
  lemma PresignedRequestIsDecidedByItsKey(attributes: Attributes, http: Http, config: Option<Config>,
                                          namespaces: map<string, string>, target: string, before: seq<string>,
                                          name: string, key: string, rest: string, after: seq<string>)
    requires attributes.http == Some(http) && HeaderSilent(http, namespaces)
    requires '?' !in target && Parameters(before + [name + key + "%2F" + rest] + after)
    requires forall p :: p in before ==> !CarriesKey(p)
    requires var query := Join(before + [name + key + "%2F" + rest] + after, "&");
      '?' !in query && http.path == target + "?" + query
    requires ToUpper(name) == "X-AMZ-CREDENTIAL=" && Find(key, "%2F").None? && key in namespaces
    ensures Belongs(http, namespaces, namespaces[key])
    ensures AnsweredIn(config, namespaces[key], attributes.source, Decide(Some(attributes), config, namespaces))
  {
    Version4QueryRoundTrip(before, name, key, rest, after);
    QueryKeyDecides(attributes, http, config, namespaces, target, Join(before + [name + key + "%2F" + rest] + after, "&"), key);
  }

  /** So is one of Version 2. */
  lemma Version2PresignedRequestIsDecidedByItsKey(attributes: Attributes, http: Http, config: Option<Config>,
                                                  namespaces: map<string, string>, target: string, before: seq<string>,
                                                  name: string, key: string, after: seq<string>)
    requires attributes.http == Some(http) && HeaderSilent(http, namespaces)
    requires '?' !in target && Parameters(before + [name + "=" + key] + after)
    requires forall p :: p in before ==> !CarriesKey(p)
    requires var query := Join(before + [name + "=" + key] + after, "&");
      '?' !in query && http.path == target + "?" + query
    requires ToLower(name) == "awsaccesskeyid" && key in namespaces
    ensures Belongs(http, namespaces, namespaces[key])
    ensures AnsweredIn(config, namespaces[key], attributes.source, Decide(Some(attributes), config, namespaces))
  {
    Version2QueryRoundTrip(before, name, key, after);
    QueryKeyDecides(attributes, http, config, namespaces, target, Join(before + [name + "=" + key] + after, "&"), key);
  }

  /** Where neither key names a namespace, the namespace header does, if there is one. */
  lemma NamespaceHeaderDecides(attributes: Attributes, http: Http, config: Option<Config>, namespaces: map<string, string>)
    requires attributes.http == Some(http) && HeaderSilent(http, namespaces) && QuerySilent(http, namespaces)
    requires "x-emc-namespace" in http.headers
    ensures AnsweredIn(config, http.headers["x-emc-namespace"], attributes.source, Decide(Some(attributes), config, namespaces))
  {
    BelongingDecides(attributes, http, config, namespaces, http.headers["x-emc-namespace"]);
  }

  /** Else the first label of a host of three labels or more does; with fewer labels the
      request passes without a namespace. */
  lemma HostLabelDecides(attributes: Attributes, http: Http, config: Option<Config>, namespaces: map<string, string>,
                         labels: seq<string>)
    requires attributes.http == Some(http) && HeaderSilent(http, namespaces) && QuerySilent(http, namespaces)
    requires "x-emc-namespace" !in http.headers
    requires labels != [] && (forall l :: l in labels ==> '.' !in l) && http.host == Join(labels, ".")
    ensures var outcome := Decide(Some(attributes), config, namespaces);
      if |labels| >= 3 then AnsweredIn(config, labels[0], attributes.source, outcome)
      else outcome == Done(Answer(0, OkReply(map[])))
  {
    SplitOnChar(labels, '.');
    if |labels| >= 3 {
      BelongingDecides(attributes, http, config, namespaces, labels[0]);
    } else {
      NamespaceIsAsWritten(http, namespaces);
      var found := RequestNamespace(http, namespaces);
      assert found.value.Some? ==> Belongs(http, namespaces, found.value.value);
    }
  }
}
