/** The access keys that the S3 authorization service reads from the Authorization header
    and from the query: AWS Signature Version 4 ("Authenticating Requests") and Version 2. */
module AccessKeys {
  import opened Text

  // ---- The Authorization header ----

  predicate IsAws(field: string) {
    HasPrefix(ToUpper(field), "AWS")
  }

  predicate IsAws4(field: string) {
    HasPrefix(ToUpper(field), "AWS4")
  }

  predicate IsCredential(field: string) {
    HasPrefix(ToLower(field), "credential=")
  }

  /** The three prefixes, in lower case and in upper case. */
  lemma PrefixesInAnyCase(field: string)
    ensures IsAws(field) <==> HasPrefix(ToLower(field), "aws")
    ensures IsAws4(field) <==> HasPrefix(ToLower(field), "aws4")
    ensures IsCredential(field) <==> HasPrefix(ToUpper(field), "CREDENTIAL=")
  {
    assert ToUpper("aws") == "AWS" && ToUpper("aws4") == "AWS4" && ToUpper("credential=") == "CREDENTIAL=";
    assert ToLower("aws") == "aws" && ToLower("aws4") == "aws4" && ToLower("credential=") == "credential=";
    PrefixInTwoCases(field, "aws", "AWS");
    PrefixInTwoCases(field, "aws4", "AWS4");
    PrefixInTwoCases(field, "credential=", "CREDENTIAL=");
  }

  function FirstCredential(fields: seq<string>): (r: Option<string>)
    ensures r.Some? ==> IsCredential(r.value)
  {
    if fields == [] then None
    else if IsCredential(fields[0]) then Some(fields[0])
    else FirstCredential(fields[1..])
  }

  /** A Version 4 header without a credential is read like a Version 2 header. */
  function HeaderKey(fields: seq<string>): Outcome<string> {
    if fields == [] then Panic
    else if IsAws4(fields[0]) && FirstCredential(fields).Some?
    then Done(Split(FirstCredential(fields).value[11..], "/")[0])
    else if !IsAws(fields[0]) then Done("")
    else if |fields| < 2 then Panic
    else Done(Split(fields[1], ":")[0])
  }

  method GetHeaderNamespace(header: string) returns (key: Outcome<string>)
    ensures key == HeaderKey(Fields(header))
  {
    var fields := Fields(header);
    if fields == [] {
      return Panic;
    }
    if HasPrefix(ToUpper(fields[0]), "AWS4") {
      for i := 0 to |fields|
        invariant FirstCredential(fields) == FirstCredential(fields[i..])
      {
        if HasPrefix(ToLower(fields[i]), "credential=") {
          var creds := Split(fields[i][11..], "/");
          return Done(creds[0]);
        }
        assert fields[i..][1..] == fields[i + 1..];
      }
    }
    if HasPrefix(ToUpper(fields[0]), "AWS") {
      if |fields| < 2 {
        return Panic;
      }
      var creds := Split(fields[1], ":");
      return Done(creds[0]);
    }
    return Done("");
  }

  lemma {:induction false} FirstCredentialAt(fields: seq<string>, i: nat)
    requires i < |fields| && IsCredential(fields[i])
    requires forall j :: 0 <= j < i ==> !IsCredential(fields[j])
    ensures FirstCredential(fields) == Some(fields[i])
  {
    if i > 0 {
      FirstCredentialAt(fields[1..], i - 1);
    }
  }

  lemma {:induction false} NoCredential(fields: seq<string>)
    requires forall j :: 0 <= j < |fields| ==> !IsCredential(fields[j])
    ensures FirstCredential(fields).None?
  {
    if fields != [] {
      NoCredential(fields[1..]);
    }
  }

  lemma AwsIsNoCredential(field: string)
    requires IsAws(field)
    ensures !IsCredential(field)
  {
    assert ToUpper(field)[0] == 'A' == UpperChar(field[0]);
    assert ToLower(field)[0] == LowerChar(field[0]) == 'a' != "credential="[0];
  }

  /** The parser is defined on exactly the headers with two fields or more and those whose
      only field does not start with AWS in any letter case. */
  lemma HeaderParserIsDefined(fields: seq<string>)
    ensures HeaderKey(fields).Done? <==> |fields| >= 2 || (|fields| == 1 && !IsAws(fields[0]))
  {
    if |fields| == 1 && IsAws(fields[0]) {
      AwsIsNoCredential(fields[0]);
      NoCredential(fields);
    }
  }

  /** The key that a header carries: that of its first credential, if it is of Version 4 and
      has one, else that in front of its signature, else none. */
  predicate HeaderCarries(fields: seq<string>, key: string) {
    fields != [] &&
    if IsAws4(fields[0]) && exists i :: 0 <= i < |fields| && IsCredential(fields[i]) then
      exists i :: 0 <= i < |fields| && FirstCredentialIs(fields, i) && UpTo(fields[i][11..], '/', key)
    else if IsAws(fields[0]) then |fields| >= 2 && UpTo(fields[1], ':', key)
    else key == ""
  }

  predicate FirstCredentialIs(fields: seq<string>, i: nat)
    requires i < |fields|
  {
    IsCredential(fields[i]) && forall j :: 0 <= j < i ==> !IsCredential(fields[j])
  }

  lemma {:induction false} FirstCredentialFound(fields: seq<string>) returns (i: nat)
    requires FirstCredential(fields).Some?
    ensures i < |fields| && FirstCredentialIs(fields, i) && FirstCredential(fields).value == fields[i]
  {
    i := 0;
    if !IsCredential(fields[0]) {
      var k := FirstCredentialFound(fields[1..]);
      i := k + 1;
      assert forall j :: 0 < j < |fields| ==> fields[j] == fields[1..][j - 1];
    }
  }

  /** The parser reads the key that the header carries, and fails where it carries none. */
  lemma HeaderKeyIsCarried(fields: seq<string>, key: string)
    ensures HeaderKey(fields) == Done(key) <==> HeaderCarries(fields, key)
  {
    if fields != [] {
      if FirstCredential(fields).Some? {
        var i := FirstCredentialFound(fields);
        forall k | 0 <= k < |fields| && FirstCredentialIs(fields, k)
          ensures k == i
        {
          assert !(k < i) && !(i < k);
        }
        FirstPieceIsUpTo(fields[i][11..], '/', key);
      } else {
        forall i | 0 <= i < |fields|
          ensures !IsCredential(fields[i])
        {
          NoneIsCredential(fields, i);
        }
      }
      if |fields| >= 2 {
        FirstPieceIsUpTo(fields[1], ':', key);
      }
    }
  }

  lemma {:induction false} NoneIsCredential(fields: seq<string>, i: nat)
    requires FirstCredential(fields).None? && i < |fields|
    ensures !IsCredential(fields[i])
  {
    if i > 0 {
      NoneIsCredential(fields[1..], i - 1);
    }
  }

  /** Fields laid out in a header with any white space between and around them. */
  predicate Layout(gaps: seq<string>, fields: seq<string>, tail: string) {
    && |gaps| == |fields| && Blank(tail)
    && (forall i :: 0 <= i < |fields| ==> Token(fields[i]) && Blank(gaps[i]))
    && (forall i :: 0 < i < |gaps| ==> gaps[i] != "")
  }

  /** A Version 4 header gives the key of its first credential, wherever that stands and
      whatever else the header has, exactly when the key has no slash in it. */
  lemma Version4HeaderRoundTrip(gaps: seq<string>, fields: seq<string>, tail: string, i: nat,
                                name: string, key: string, rest: string)
    requires Layout(gaps, fields, tail) && 0 < i < |fields| && IsAws4(fields[0])
    requires forall j :: 0 <= j < i ==> !IsCredential(fields[j])
    requires ToLower(name) == "credential=" && fields[i] == name + (key + "/" + rest)
    ensures HeaderKey(Fields(Spread(gaps, fields, tail))) == Done(key) <==> '/' !in key
  {
    FieldsOfSpread(gaps, fields, tail);
    LowerConcat(name, key + "/" + rest);
    FirstCredentialAt(fields, i);
    assert fields[i][11..] == key + "/" + rest;
    FirstPiece(key, "/", rest);
    CleanBeforeChar(key, '/');
  }

  /** A Version 2 header gives the part of its second field before the signature, exactly
      when the key has no colon in it. */
  lemma Version2HeaderRoundTrip(gaps: seq<string>, fields: seq<string>, tail: string, key: string, signature: string)
    requires Layout(gaps, fields, tail) && |fields| >= 2 && IsAws(fields[0])
    requires IsAws4(fields[0]) ==> forall j :: 0 <= j < |fields| ==> !IsCredential(fields[j])
    requires fields[1] == key + ":" + signature
    ensures HeaderKey(Fields(Spread(gaps, fields, tail))) == Done(key) <==> ':' !in key
  {
    FieldsOfSpread(gaps, fields, tail);
    if IsAws4(fields[0]) {
      NoCredential(fields);
    }
    FirstPiece(key, ":", signature);
    CleanBeforeChar(key, ':');
  }

  // ---- The query ----

  predicate IsVersion2(parameter: string) {
    HasPrefix(ToLower(parameter), "awsaccesskeyid=")
  }

  predicate IsVersion4(parameter: string) {
    HasPrefix(ToUpper(parameter), "X-AMZ-CREDENTIAL")
  }

  lemma ParametersInAnyCase(parameter: string)
    ensures IsVersion2(parameter) <==> HasPrefix(ToUpper(parameter), "AWSACCESSKEYID=")
    ensures IsVersion4(parameter) <==> HasPrefix(ToLower(parameter), "x-amz-credential")
  {
    assert ToUpper("awsaccesskeyid=") == "AWSACCESSKEYID=" && ToLower("awsaccesskeyid=") == "awsaccesskeyid=";
    assert ToUpper("x-amz-credential") == "X-AMZ-CREDENTIAL" && ToLower("x-amz-credential") == "x-amz-credential";
    PrefixInTwoCases(parameter, "awsaccesskeyid=", "AWSACCESSKEYID=");
    PrefixInTwoCases(parameter, "x-amz-credential", "X-AMZ-CREDENTIAL");
  }

  predicate CarriesKey(parameter: string) {
    IsVersion2(parameter) || IsVersion4(parameter)
  }

  /** The Version 4 name is matched without its equals sign, which is then cut off blindly. */
  function ParameterKey(parameter: string): Outcome<string>
    requires CarriesKey(parameter)
  {
    if IsVersion2(parameter) then Done(parameter[15..])
    else
      var scope := Split(parameter, "%2F")[0];
      if |scope| < 17 then Panic else Done(scope[17..])
  }

  function QueryKey(parameters: seq<string>): Outcome<string> {
    if parameters == [] then Done("")
    else if CarriesKey(parameters[0]) then ParameterKey(parameters[0])
    else QueryKey(parameters[1..])
  }

  method GetQueryNamespace(query: string) returns (key: Outcome<string>)
    ensures key == QueryKey(Split(query, "&"))
  {
    var fields := Split(query, "&");
    for i := 0 to |fields|
      invariant QueryKey(fields) == QueryKey(fields[i..])
    {
      if HasPrefix(ToLower(fields[i]), "awsaccesskeyid=") {
        return Done(fields[i][15..]);
      }
      if HasPrefix(ToUpper(fields[i]), "X-AMZ-CREDENTIAL") {
        var creds := Split(fields[i], "%2F");
        if |creds[0]| < 17 {
          return Panic;
        }
        return Done(creds[0][17..]);
      }
      assert fields[i..][1..] == fields[i + 1..];
    }
    return Done("");
  }

  /** Parameters that carry no key, before the first one that does, change nothing, and
      neither does anything after it. */
  lemma {:induction false} FirstParameterDecides(before: seq<string>, parameter: string, after: seq<string>)
    requires forall p :: p in before ==> !CarriesKey(p)
    requires CarriesKey(parameter)
    ensures QueryKey(before + [parameter] + after) == ParameterKey(parameter)
  {
    var all := before + [parameter] + after;
    if before == [] {
      assert all[0] == parameter;
    } else {
      assert all[0] == before[0] && all[1..] == before[1..] + [parameter] + after;
      FirstParameterDecides(before[1..], parameter, after);
    }
  }

  lemma {:induction false} NoKeyInQuery(parameters: seq<string>)
    requires forall p :: p in parameters ==> !CarriesKey(p)
    ensures QueryKey(parameters) == Done("")
  {
    if parameters != [] {
      NoKeyInQuery(parameters[1..]);
    }
  }

  /** A query as it is read: the parameters in order, none with an ampersand in it. */
  predicate Parameters(parameters: seq<string>) {
    parameters != [] && forall p :: p in parameters ==> '&' !in p
  }

  lemma Version2QueryRoundTrip(before: seq<string>, name: string, key: string, after: seq<string>)
    requires Parameters(before + [name + "=" + key] + after)
    requires forall p :: p in before ==> !CarriesKey(p)
    requires ToLower(name) == "awsaccesskeyid"
    ensures QueryKey(Split(Join(before + [name + "=" + key] + after, "&"), "&")) == Done(key)
  {
    var parameter := name + "=" + key;
    LowerConcat(name, "=" + key);
    LowerConcat("=", key);
    assert parameter == name + ("=" + key);
    assert ToLower(parameter) == "awsaccesskeyid=" + ToLower(key);
    SplitOnChar(before + [parameter] + after, '&');
    FirstParameterDecides(before, parameter, after);
  }

  lemma SlashAt(s: string, j: nat)
    ensures OccursAt(s, "%2F", j) <==> j + 3 <= |s| && s[j] == '%' && s[j + 1] == '2' && s[j + 2] == 'F'
  {
    if j + 3 <= |s| {
      var t := s[j..j + 3];
      assert t[0] == s[j] && t[1] == s[j + 1] && t[2] == s[j + 2];
    }
  }

  /** "%2F" cannot straddle the end of a string that precedes another "%2F". */
  lemma CleanBeforeSlash(head: string)
    ensures CleanBefore(head, "%2F") <==> Find(head, "%2F").None?
  {
    var t := head + "%2F";
    SlashAt(t, |head|);
    forall j: nat | j < |head|
      ensures OccursAt(t, "%2F", j) <==> OccursAt(head, "%2F", j)
    {
      SlashAt(t, j);
      SlashAt(head, j);
    }
    SlashAt(head, |head|);
  }

  /** A name without a percent sign in front of a key adds no "%2F". */
  lemma NameAddsNoSlash(name: string, key: string)
    requires '%' !in name
    ensures Find(name + key, "%2F").None? <==> Find(key, "%2F").None?
  {
    var t := name + key;
    NoSlashInName(name, key);
    forall j: nat
      ensures OccursAt(key, "%2F", j) <==> OccursAt(t, "%2F", |name| + j)
    {
      SlashAt(key, j);
      SlashAt(t, |name| + j);
    }
    if Find(t, "%2F").Some? {
      assert OccursAt(key, "%2F", Find(t, "%2F").value - |name|);
    }
    if Find(key, "%2F").Some? {
      assert OccursAt(t, "%2F", |name| + Find(key, "%2F").value);
    }
  }

  lemma NoSlashInName(name: string, rest: string)
    requires '%' !in name
    ensures forall j: nat :: j < |name| ==> !OccursAt(name + rest, "%2F", j)
  {
    forall j: nat | j < |name|
      ensures !OccursAt(name + rest, "%2F", j)
    {
      assert (name + rest)[j] == name[j];
      SlashAt(name + rest, j);
    }
  }

  lemma UpperX(c: char)
    requires UpperChar(c) == 'X'
    ensures LowerChar(c) == 'x'
  {
    if 'a' <= c <= 'z' {
      assert UpperChar(c) as int == c as int - 32;
    }
  }

  lemma NameStartsWithX(name: string, rest: string)
    requires HasPrefix(ToUpper(name), "X-AMZ-CREDENTIAL")
    ensures IsVersion4(name + rest) && !IsVersion2(name + rest)
  {
    UpperConcat(name, rest);
    assert ToUpper(name)[0] == 'X';
    UpperX(name[0]);
    assert ToLower(name + rest)[0] == 'x' != "awsaccesskeyid="[0];
  }

  lemma NoPercentInName(name: string)
    requires '%' !in ToUpper(name)
    ensures '%' !in name
  {
    forall i | 0 <= i < |name|
      ensures name[i] != '%'
    {
      assert ToUpper(name)[i] != '%';
    }
  }

  /** The key before the first "%2F" of a Version 4 parameter comes back exactly when it has
      no "%2F" in it, and a parameter without any "%2F" gives all that follows its name. */
  lemma Version4Parameter(name: string, key: string, rest: string)
    requires ToUpper(name) == "X-AMZ-CREDENTIAL="
    ensures CarriesKey(name + key + "%2F" + rest) && CarriesKey(name + key)
    ensures ParameterKey(name + key + "%2F" + rest) == Done(key) <==> Find(key, "%2F").None?
    ensures Find(key, "%2F").None? ==> ParameterKey(name + key) == Done(key)
  {
    var parameter := name + key + "%2F" + rest;
    assert parameter == name + (key + "%2F" + rest);
    NameStartsWithX(name, key + "%2F" + rest);
    NameStartsWithX(name, key);
    NoPercentInName(name);
    NameAddsNoSlash(name, key);
    CleanBeforeSlash(name + key);
    FirstPiece(name + key, "%2F", rest);
    var scope := Split(parameter, "%2F")[0];
    if |scope| >= 17 && scope[17..] == key {
      assert scope == parameter[..|scope|];
      assert scope == name + key;
    }
  }

  lemma Version4QueryRoundTrip(before: seq<string>, name: string, key: string, rest: string, after: seq<string>)
    requires Parameters(before + [name + key + "%2F" + rest] + after)
    requires forall p :: p in before ==> !CarriesKey(p)
    requires ToUpper(name) == "X-AMZ-CREDENTIAL="
    ensures QueryKey(Split(Join(before + [name + key + "%2F" + rest] + after, "&"), "&")) == Done(key)
      <==> Find(key, "%2F").None?
  {
    var parameter := name + key + "%2F" + rest;
    Version4Parameter(name, key, rest);
    SplitOnChar(before + [parameter] + after, '&');
    FirstParameterDecides(before, parameter, after);
  }

  /** The Version 4 name with nothing, not even an equals sign, before its end or a "%2F". */
  predicate Bare(parameter: string) {
    IsVersion4(parameter) && (|parameter| == 16 || HasPrefix(parameter[16..], "%2F"))
  }

  /** Reading a parameter panics exactly when it is the bare Version 4 name, alone or
      directly followed by "%2F". */
  lemma ParameterParserIsDefined(parameter: string)
    requires CarriesKey(parameter)
    ensures ParameterKey(parameter).Panic? <==> Bare(parameter)
  {
    if IsVersion4(parameter) {
      var name, rest := parameter[..16], parameter[16..];
      assert parameter == name + rest;
      UpperConcat(name, rest);
      assert ToUpper(name) == "X-AMZ-CREDENTIAL";
      NameStartsWithX(name, rest);
      NoPercentInName(name);
      CutAfterName(name, rest);
    }
  }

  lemma CutAfterName(name: string, rest: string)
    requires |name| == 16 && '%' !in name
    ensures |Split(name + rest, "%2F")[0]| < 17 <==> rest == "" || HasPrefix(rest, "%2F")
  {
    NoSlashInName(name, rest);
    SlashAt(name + rest, 16);
    SlashAt(rest, 0);
  }

  predicate FirstCarrierIs(parameters: seq<string>, i: nat)
    requires i < |parameters|
  {
    CarriesKey(parameters[i]) && forall j :: 0 <= j < i ==> !CarriesKey(parameters[j])
  }

  /** Reading a query panics exactly when the first parameter that carries a key is bare. */
  lemma {:induction false} QueryParserIsDefined(parameters: seq<string>)
    ensures QueryKey(parameters).Panic? <==>
      exists i :: 0 <= i < |parameters| && Bare(parameters[i]) && FirstCarrierIs(parameters, i)
  {
    if parameters != [] {
      if CarriesKey(parameters[0]) {
        ParameterParserIsDefined(parameters[0]);
        assert FirstCarrierIs(parameters, 0);
      } else {
        QueryParserIsDefined(parameters[1..]);
        LaterCarrier(parameters);
      }
    }
  }

  lemma LaterCarrier(parameters: seq<string>)
    requires parameters != [] && !CarriesKey(parameters[0])
    ensures forall i :: 0 < i < |parameters| ==>
      (FirstCarrierIs(parameters, i) <==> FirstCarrierIs(parameters[1..], i - 1))
    ensures (exists i :: 0 <= i < |parameters| && Bare(parameters[i]) && FirstCarrierIs(parameters, i)) <==>
      exists i :: 0 <= i < |parameters| - 1 && Bare(parameters[1..][i]) && FirstCarrierIs(parameters[1..], i)
  {
    forall i | 0 < i < |parameters|
      ensures FirstCarrierIs(parameters, i) <==> FirstCarrierIs(parameters[1..], i - 1)
    {
      assert forall j :: 0 <= j < i - 1 ==> parameters[1..][j] == parameters[j + 1];
    }
    if i :| 0 <= i < |parameters| - 1 && Bare(parameters[1..][i]) && FirstCarrierIs(parameters[1..], i) {
      assert parameters[i + 1] == parameters[1..][i] && FirstCarrierIs(parameters, i + 1);
    }
    if i :| 0 <= i < |parameters| && Bare(parameters[i]) && FirstCarrierIs(parameters, i) {
      assert parameters[1..][i - 1] == parameters[i];
    }
  }

  /** The key of one parameter: all that follows a Version 2 name, or what follows a
      Version 4 name up to the first "%2F". */
  predicate ParameterCarries(parameter: string, key: string) {
    if IsVersion2(parameter) then key == parameter[15..]
    else IsVersion4(parameter) && !Bare(parameter) && BeforeSlash(parameter[17..], key)
  }

  predicate BeforeSlash(text: string, key: string) {
    key <= text && Find(key, "%2F").None? && (|key| == |text| || HasPrefix(text[|key|..], "%2F"))
  }

  /** The key that a query carries: that of its first parameter with a key, else none. */
  predicate QueryCarries(parameters: seq<string>, key: string) {
    if exists i :: 0 <= i < |parameters| && CarriesKey(parameters[i]) then
      exists i :: 0 <= i < |parameters| && FirstCarrierIs(parameters, i) && ParameterCarries(parameters[i], key)
    else key == ""
  }

  lemma FirstPieceIsBeforeSlash(text: string, key: string)
    ensures Split(text, "%2F")[0] == key <==> BeforeSlash(text, key)
  {
    CleanBeforeSlash(key);
    if BeforeSlash(text, key) && |key| < |text| {
      assert text == key + "%2F" + text[|key| + 3..];
      FirstPiece(key, "%2F", text[|key| + 3..]);
    }
    var cut := Find(text, "%2F");
    if cut.Some? {
      CutIsClean(text, "%2F");
      CleanBeforeSlash(text[..cut.value]);
      assert text[cut.value..][..3] == text[cut.value..cut.value + 3] == "%2F";
      assert HasPrefix(text[cut.value..], "%2F");
    }
    if key <= text && |key| == |text| {
      assert key == text;
    }
  }

  /** A name of 17 characters, of which no "%2F" begins in the first 17, only shifts the search. */
  lemma FindAfterName(name: string, rest: string)
    requires |name| == 17 && forall j: nat :: j < 17 ==> !OccursAt(name + rest, "%2F", j)
    ensures Find(rest, "%2F").None? ==> Find(name + rest, "%2F").None?
    ensures Find(rest, "%2F").Some? ==> Find(name + rest, "%2F") == Some(Find(rest, "%2F").value + 17)
  {
    var t := name + rest;
    forall j: nat
      ensures OccursAt(rest, "%2F", j) <==> OccursAt(t, "%2F", j + 17)
    {
      SlashAt(rest, j);
      SlashAt(t, j + 17);
    }
    if Find(t, "%2F").Some? {
      assert OccursAt(rest, "%2F", Find(t, "%2F").value - 17);
    }
    if Find(rest, "%2F").Some? {
      assert OccursAt(t, "%2F", Find(rest, "%2F").value + 17);
    }
  }

  lemma NoneInName(name: string, rest: string)
    requires |name| == 17 && '%' !in name[..16] && !HasPrefix((name + rest)[16..], "%2F")
    ensures forall j: nat :: j < 17 ==> !OccursAt(name + rest, "%2F", j)
  {
    var t := name + rest;
    assert t == name[..16] + t[16..];
    NoSlashInName(name[..16], t[16..]);
    if |t| >= 19 {
      assert t[16..][..3] == t[16..19];
    }
  }

  lemma ScopeAfterName(name: string, rest: string, key: string)
    requires |name| == 17 && '%' !in name[..16] && !HasPrefix((name + rest)[16..], "%2F")
    ensures var scope := Split(name + rest, "%2F")[0];
      |scope| >= 17 && (scope[17..] == key <==> BeforeSlash(rest, key))
  {
    NoneInName(name, rest);
    FindAfterName(name, rest);
    FirstPieceIsBeforeSlash(rest, key);
    var cut := Find(rest, "%2F");
    if cut.Some? {
      assert (name + rest)[..cut.value + 17][17..] == rest[..cut.value];
    } else {
      assert (name + rest)[17..] == rest;
    }
  }

  lemma ParameterKeyIsCarried(parameter: string, key: string)
    requires CarriesKey(parameter)
    ensures ParameterKey(parameter) == Done(key) <==> ParameterCarries(parameter, key)
  {
    ParameterParserIsDefined(parameter);
    if !IsVersion2(parameter) && !Bare(parameter) {
      var name, rest := parameter[..17], parameter[17..];
      assert parameter == name + rest && parameter == parameter[..16] + parameter[16..];
      UpperConcat(parameter[..16], parameter[16..]);
      assert ToUpper(parameter[..16]) == "X-AMZ-CREDENTIAL";
      NoPercentInName(parameter[..16]);
      assert name[..16] == parameter[..16];
      ScopeAfterName(name, rest, key);
    }
  }

  /** The parser reads the key that the query carries, and fails where the first carrier is bare. */
  lemma {:induction false} QueryKeyIsCarried(parameters: seq<string>, key: string)
    ensures QueryKey(parameters) == Done(key) <==> QueryCarries(parameters, key)
  {
    if parameters != [] {
      if CarriesKey(parameters[0]) {
        ParameterKeyIsCarried(parameters[0], key);
        assert FirstCarrierIs(parameters, 0);
      } else {
        QueryKeyIsCarried(parameters[1..], key);
        CarriedLater(parameters, key);
      }
    }
  }

  lemma CarriedLater(parameters: seq<string>, key: string)
    requires parameters != [] && !CarriesKey(parameters[0])
    ensures QueryCarries(parameters, key) <==> QueryCarries(parameters[1..], key)
  {
    var rest := parameters[1..];
    LaterCarrier(parameters);
    if i :| 0 <= i < |rest| && CarriesKey(rest[i]) {
      assert parameters[i + 1] == rest[i];
    }
    if i :| 0 <= i < |parameters| && CarriesKey(parameters[i]) {
      assert rest[i - 1] == parameters[i];
    }
    if i :| 0 <= i < |rest| && FirstCarrierIs(rest, i) && ParameterCarries(rest[i], key) {
      assert FirstCarrierIs(parameters, i + 1) && parameters[i + 1] == rest[i];
    }
    if i :| 0 <= i < |parameters| && FirstCarrierIs(parameters, i) && ParameterCarries(parameters[i], key) {
      assert FirstCarrierIs(rest, i - 1) && rest[i - 1] == parameters[i];
    }
  }
}
