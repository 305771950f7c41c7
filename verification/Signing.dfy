// The signing configuration and the signCSR request made from it
// (internal/kmp/signer.go, SignRequest.details of internal/kmp/client.go).
module Signing {
  import opened Basics
  import opened Text
  import opened Errors

  const MSCA := "MSCA"
  const MSCA_USING_AGENT := "MSCAusingAgent"
  const SIGN_WITH_ROOT := "signWithRoot"

  const DAY: int := 24 * 3600 * 1_000_000_000

  datatype SigningOptions = SigningOptions(
    signType: string, serverName: string, caName: string, templateName: string,
    agentName: string, agentTimeout: Option<int>,
    rootCommonName: string, rootSerialNumber: string, validityDays: Option<int>, isIntermediate: Option<bool>,
    csrLookupOperation: string)

  // What one request adds: the lifetime asked for, in nanoseconds, and whether it is
  // for a CA.
  datatype Hints = Hints(duration: int, isCA: bool)

  datatype SignRequest = SignRequest(
    csrID: string, signType: string, serverName: string, caName: string, templateName: string,
    agentName: string, agentTimeout: Option<int>,
    rootCommonName: string, rootSerialNumber: string, validityDays: Option<int>, isIntermediate: Option<bool>)

  datatype Detail = Words(s: string) | Flag(b: bool) | Seconds(n: int)

  function SignType(o: SigningOptions): string {
    if o.signType == "" then MSCA else o.signType
  }

  function InvalidOptions(): Error {
    Wrap(Plain(InvalidConfig))
  }

  function RequireMSCAFields(o: SigningOptions): Option<Error> {
    if o.serverName == "" || o.caName == "" || o.templateName == "" then Some(InvalidOptions()) else None
  }

  function Validate(o: SigningOptions): Option<Error> {
    if SignType(o) == MSCA then RequireMSCAFields(o)
    else if SignType(o) == MSCA_USING_AGENT then
      var err := RequireMSCAFields(o);
      if err.Some? then err
      else if o.agentName == "" then Some(InvalidOptions()) else None
    else if SignType(o) == SIGN_WITH_ROOT then
      if o.rootCommonName == "" then Some(InvalidOptions()) else None
    else Some(InvalidOptions())
  }

  // math.Ceil of a positive duration in days, at least one.
  function DaysFor(duration: int): int
    requires duration > 0
  {
    var days := (duration + DAY - 1) / DAY;
    if days < 1 then 1 else days
  }

  function RequestFor(o: SigningOptions, csrID: string, hints: Hints): SignRequest {
    var r := SignRequest(csrID, SignType(o), o.serverName, o.caName, o.templateName, o.agentName, o.agentTimeout,
      o.rootCommonName, o.rootSerialNumber, o.validityDays, o.isIntermediate);
    if r.signType != SIGN_WITH_ROOT then r
    else
      var validity := if r.validityDays.None? && hints.duration > 0 then Some(DaysFor(hints.duration)) else r.validityDays;
      var intermediate := if r.isIntermediate.None? && hints.isCA then Some(true) else r.isIntermediate;
      r.(validityDays := validity, isIntermediate := intermediate)
  }

  // signRequest, which patches its result in place.
  method SignRequestFor(o: SigningOptions, csrID: string, hints: Hints) returns (r: SignRequest)
    ensures r == RequestFor(o, csrID, hints)
  {
    r := SignRequest(csrID, SignType(o), o.serverName, o.caName, o.templateName, o.agentName, o.agentTimeout,
      o.rootCommonName, o.rootSerialNumber, o.validityDays, o.isIntermediate);
    if r.signType != SIGN_WITH_ROOT {
      return;
    }
    if r.validityDays.None? && hints.duration > 0 {
      var days := (hints.duration + DAY - 1) / DAY;
      if days < 1 {
        days := 1;
      }
      r := r.(validityDays := Some(days));
    }
    if r.isIntermediate.None? && hints.isCA {
      r := r.(isIntermediate := Some(true));
    }
  }

  // ---------- rendering ----------

  datatype Key =
    | CsrID | SignTypeKey | ServerName | CAName | TemplateName | AgentName | AgentResponseTimeout
    | RootCommonName | RootSerialNumber | Validity | IsIntermediate

  // The field names on the wire.
  function FieldName(key: Key): string {
    match key
    case CsrID => "CSR_ID"
    case SignTypeKey => "signType"
    case ServerName => "serverName"
    case CAName => "caName"
    case TemplateName => "templateName"
    case AgentName => "agentName"
    case AgentResponseTimeout => "agentResponseTimeout"
    case RootCommonName => "rootCertificateCommonName"
    case RootSerialNumber => "rootCertificateSerialNumber"
    case Validity => "Validity"
    case IsIntermediate => "isIntermediate"
  }

  datatype Backend = Root | Agent | MicrosoftCA

  // What a sign type stands for; an unknown one is rendered like the default.
  function BackendOf(signType: string): Backend {
    if signType == SIGN_WITH_ROOT then Root
    else if signType == MSCA_USING_AGENT then Agent
    else MicrosoftCA
  }

  // The keys every request of a sign type carries.
  predicate Mandatory(backend: Backend, key: Key) {
    match key
    case CsrID => true
    case SignTypeKey => true
    case ServerName => !backend.Root?
    case CAName => !backend.Root?
    case TemplateName => !backend.Root?
    case AgentName => backend.Agent?
    case RootCommonName => backend.Root?
    case _ => false
  }

  // The keys a request of a sign type carries only when they are set.
  predicate Optional(r: SignRequest, backend: Backend, key: Key) {
    match key
    case AgentResponseTimeout => backend.Agent? && r.agentTimeout.Some?
    case RootSerialNumber => backend.Root? && r.rootSerialNumber != ""
    case Validity => backend.Root? && r.validityDays.Some?
    case IsIntermediate => backend.Root? && r.isIntermediate.Some?
    case _ => false
  }

  // What each key holds.
  function Rendered(r: SignRequest, key: Key): Detail {
    match key
    case CsrID => Words(r.csrID)
    case SignTypeKey => Words(if r.signType == "" then MSCA else r.signType)
    case ServerName => Words(r.serverName)
    case CAName => Words(r.caName)
    case TemplateName => Words(r.templateName)
    case AgentName => Words(r.agentName)
    case AgentResponseTimeout => Seconds(if r.agentTimeout.Some? then r.agentTimeout.value else 0)
    case RootCommonName => Words(r.rootCommonName)
    case RootSerialNumber => Words(r.rootSerialNumber)
    case Validity => Words(if r.validityDays.Some? then FormatInt(r.validityDays.value) else "")
    case IsIntermediate => Flag(r.isIntermediate == Some(true))
  }

  // Sets a key, when it applies.
  method SetWhen(d: map<Key, Detail>, when: bool, key: Key, value: Detail) returns (more: map<Key, Detail>)
    ensures forall k :: k in more <==> k in d || (when && k == key)
    ensures forall k :: k in more ==> more[k] == if when && k == key then value else d[k]
  {
    more := d;
    if when {
      more := d[key := value];
    }
  }

  // SignRequest.details: fills the Details object with exactly what applies to the
  // sign type.
  method Details(r: SignRequest) returns (d: map<Key, Detail>)
    ensures forall key :: key in d <==> Mandatory(BackendOf(r.signType), key) || Optional(r, BackendOf(r.signType), key)
    ensures forall key :: key in d ==> d[key] == Rendered(r, key)
    ensures SentAs(d, WireFields(r))
  {
    d := map[CsrID := Words(r.csrID)];
    var signType := r.signType;
    if signType == "" {
      signType := MSCA;
    }
    d := d[SignTypeKey := Words(signType)];
    assert BackendOf(signType) == BackendOf(r.signType);
    hide BackendOf, FormatInt;
    match BackendOf(signType) {
      case Root => d := RootDetails(r, d);
      case Agent => d := AgentDetails(r, d);
      case MicrosoftCA => d := MSCADetails(r, d);
    }
    DetailsOnTheWire(r, d);
  }

  // The wire fields are the details, each under the name of its key.
  ghost predicate SentAs(d: map<Key, Detail>, wire: map<string, Detail>) {
    && (forall key :: key in d ==> FieldName(key) in wire && wire[FieldName(key)] == d[key])
    && (forall name :: name in wire ==> exists key :: key in d && FieldName(key) == name)
  }

  method RootDetails(r: SignRequest, base: map<Key, Detail>) returns (d: map<Key, Detail>)
    requires forall key :: key in base <==> key == CsrID || key == SignTypeKey
    requires forall key :: key in base ==> base[key] == Rendered(r, key)
    ensures forall key :: key in d <==> Mandatory(Root, key) || Optional(r, Root, key)
    ensures forall key :: key in d ==> d[key] == Rendered(r, key)
  {
    hide FormatInt;
    d := base[RootCommonName := Words(r.rootCommonName)];
    d := SetWhen(d, r.rootSerialNumber != "", RootSerialNumber, Words(r.rootSerialNumber));
    if r.validityDays.Some? {
      d := d[Validity := Words(FormatInt(r.validityDays.value))];
    }
    d := SetWhen(d, r.isIntermediate.Some?, IsIntermediate, Flag(r.isIntermediate == Some(true)));
  }

  method MSCADetails(r: SignRequest, base: map<Key, Detail>) returns (d: map<Key, Detail>)
    requires forall key :: key in base <==> key == CsrID || key == SignTypeKey
    requires forall key :: key in base ==> base[key] == Rendered(r, key)
    ensures forall key :: key in d <==> Mandatory(MicrosoftCA, key) || Optional(r, MicrosoftCA, key)
    ensures forall key :: key in d ==> d[key] == Rendered(r, key)
  {
    d := base[ServerName := Words(r.serverName)];
    d := d[CAName := Words(r.caName)];
    d := d[TemplateName := Words(r.templateName)];
  }

  method AgentDetails(r: SignRequest, base: map<Key, Detail>) returns (d: map<Key, Detail>)
    requires forall key :: key in base <==> key == CsrID || key == SignTypeKey
    requires forall key :: key in base ==> base[key] == Rendered(r, key)
    ensures forall key :: key in d <==> Mandatory(Agent, key) || Optional(r, Agent, key)
    ensures forall key :: key in d ==> d[key] == Rendered(r, key)
  {
    d := MSCADetails(r, base);
    d := d[AgentName := Words(r.agentName)];
    if r.agentTimeout.Some? {
      d := d[AgentResponseTimeout := Seconds(r.agentTimeout.value)];
    }
  }

  // Different keys have different names.
  lemma FieldNamesDiffer(a: Key, b: Key)
    requires FieldName(a) == FieldName(b)
    ensures a == b
  {
    assert |FieldName(a)| == |FieldName(b)|;
    assert FieldName(a)[0] == FieldName(b)[0];
  }

  // ---------- what validated options guarantee ----------

  predicate KnownSignType(signType: string) {
    signType == MSCA || signType == MSCA_USING_AGENT || signType == SIGN_WITH_ROOT
  }

  // Options pass exactly when the sign type is known and every key it always sends has
  // a non-empty value; otherwise the error is a permanent one.
  lemma ValidatedMeansComplete(o: SigningOptions, csrID: string, hints: Hints)
    requires csrID != ""
    ensures var r := RequestFor(o, csrID, hints);
      Validate(o).None? <==>
        KnownSignType(r.signType) && forall key :: Mandatory(BackendOf(r.signType), key) ==> Rendered(r, key).s != ""
    ensures Validate(o).Some? ==> IsPermanent(Validate(o).value)
  {
    var r := RequestFor(o, csrID, hints);
    var backend := BackendOf(r.signType);
    assert Mandatory(backend, if backend.Root? then RootCommonName else ServerName);
    assert !backend.Root? ==> Mandatory(backend, CAName) && Mandatory(backend, TemplateName);
    assert backend.Agent? ==> Mandatory(backend, AgentName);
  }

  // Values the issuer pins are sent as they are; a lifetime is derived only for root
  // signing without a pinned validity, and is then the duration in days rounded up.
  lemma PinnedValuesAreNeverOverridden(o: SigningOptions, csrID: string, hints: Hints)
    requires hints.duration <= MAX_INT64
    ensures var r := RequestFor(o, csrID, hints);
      && (o.validityDays.Some? ==> r.validityDays == o.validityDays)
      && (o.isIntermediate.Some? ==> r.isIntermediate == o.isIntermediate)
      && (SignType(o) != SIGN_WITH_ROOT ==> r.validityDays == o.validityDays && r.isIntermediate == o.isIntermediate)
    ensures var r := RequestFor(o, csrID, hints);
      SignType(o) == SIGN_WITH_ROOT && o.validityDays.None? ==>
        if hints.duration <= 0 then r.validityDays.None?
        else
          && r.validityDays.Some?
          && (r.validityDays.value - 1) * DAY < hints.duration <= r.validityDays.value * DAY
          && 1 <= r.validityDays.value <= MAX_INT32
  {}

  // ---------- the request in plain terms ----------

  // The sign request the options ask for, given the lifetime and the CA flag asked for by
  // one certificate request: every option in its own field, and for root signing a
  // validity of the lifetime in days rounded up and the flag, unless the issuer pins them.
  ghost predicate SignsAsAsked(r: SignRequest, o: SigningOptions, duration: int, isCA: bool) {
    && r.signType == (if o.signType == "" then "MSCA" else o.signType)
    && r.serverName == o.serverName && r.caName == o.caName && r.templateName == o.templateName
    && r.agentName == o.agentName && r.agentTimeout == o.agentTimeout
    && r.rootCommonName == o.rootCommonName && r.rootSerialNumber == o.rootSerialNumber
    && (if r.signType != "signWithRoot" || o.validityDays.Some? then r.validityDays == o.validityDays
        else if duration <= 0 then r.validityDays == None
        else r.validityDays.Some? && CeilingOfDays(r.validityDays.value, duration))
    && (if r.signType != "signWithRoot" || o.isIntermediate.Some? then r.isIntermediate == o.isIntermediate
        else r.isIntermediate == if isCA then Some(true) else None)
  }

  predicate CeilingOfDays(days: int, duration: int) {
    (days - 1) * 86_400_000_000_000 < duration <= days * 86_400_000_000_000
  }

  lemma RequestsAskForWhatIsAsked(o: SigningOptions, csrID: string, hints: Hints)
    ensures var r := RequestFor(o, csrID, hints);
      r.csrID == csrID && SignsAsAsked(r, o, hints.duration, hints.isCA)
  {}

  // The fields of the Details object, by their names on the wire.
  ghost function WireFields(r: SignRequest): map<string, Detail> {
    var signType := if r.signType == "" then "MSCA" else r.signType;
    map["CSR_ID" := Words(r.csrID), "signType" := Words(signType)] +
    if signType == "signWithRoot" then RootFields(r)
    else if signType == "MSCAusingAgent" then ServerFields(r) + AgentFields(r)
    else ServerFields(r)
  }

  ghost function ServerFields(r: SignRequest): map<string, Detail> {
    map["serverName" := Words(r.serverName), "caName" := Words(r.caName), "templateName" := Words(r.templateName)]
  }

  ghost function AgentFields(r: SignRequest): map<string, Detail> {
    map["agentName" := Words(r.agentName)]
    + if r.agentTimeout.None? then map[] else map["agentResponseTimeout" := Seconds(r.agentTimeout.value)]
  }

  ghost function RootFields(r: SignRequest): map<string, Detail> {
    map["rootCertificateCommonName" := Words(r.rootCommonName)]
    + (if r.rootSerialNumber == "" then map[] else map["rootCertificateSerialNumber" := Words(r.rootSerialNumber)])
    + (if r.validityDays.None? then map[] else map["Validity" := Words(FormatInt(r.validityDays.value))])
    + (if r.isIntermediate.None? then map[] else map["isIntermediate" := Flag(r.isIntermediate.value)])
  }

  // The fields of one group carry the keys of that group and no others.
  lemma ServerFieldsHold(r: SignRequest, key: Key)
    ensures FieldName(key) in ServerFields(r) <==> key in {ServerName, CAName, TemplateName}
    ensures FieldName(key) in ServerFields(r) ==> ServerFields(r)[FieldName(key)] == Rendered(r, key)
  {
    NamesOnTheWire();
  }

  lemma AgentFieldsHold(r: SignRequest, key: Key)
    ensures FieldName(key) in AgentFields(r) <==> key == AgentName || (key == AgentResponseTimeout && r.agentTimeout.Some?)
    ensures FieldName(key) in AgentFields(r) ==> AgentFields(r)[FieldName(key)] == Rendered(r, key)
  {
    NamesOnTheWire();
  }

  lemma RootFieldsHold(r: SignRequest, key: Key)
    ensures FieldName(key) in RootFields(r) <==> key == RootCommonName || Optional(r, Root, key)
    ensures FieldName(key) in RootFields(r) ==> RootFields(r)[FieldName(key)] == Rendered(r, key)
  {
    hide FormatInt;
    NamesOnTheWire();
  }

  lemma CommonFieldsHold(r: SignRequest, key: Key)
    ensures FieldName(key) in {"CSR_ID", "signType"} <==> key in {CsrID, SignTypeKey}
  {
    NamesOnTheWire();
  }

  // What is sent of a rendered request: exactly those fields.
  lemma RenderedOnTheWire(r: SignRequest, d: map<Key, Detail>, key: Key)
    requires forall k :: k in d <==> Mandatory(BackendOf(r.signType), k) || Optional(r, BackendOf(r.signType), k)
    requires forall k :: k in d ==> d[k] == Rendered(r, k)
    ensures key in d <==> FieldName(key) in WireFields(r)
    ensures key in d ==> WireFields(r)[FieldName(key)] == d[key]
  {
    CommonFieldsHold(r, key);
    assert FieldName(CsrID) == "CSR_ID" && FieldName(SignTypeKey) == "signType";
    assert |"CSR_ID"| == 6 && |"signType"| == 8;
    assert |"MSCA"| == 4 && |"MSCAusingAgent"| == 14 && |"signWithRoot"| == 12;
    hide ServerFields, AgentFields, RootFields, FormatInt, FieldName;
    if BackendOf(r.signType).Root? {
      RootFieldsHold(r, key);
    } else {
      ServerFieldsHold(r, key);
      AgentFieldsHold(r, key);
    }
  }

  lemma NamesOnTheWire()
    ensures |"CSR_ID"| == 6 && |"signType"| == 8 && |"serverName"| == 10 && |"caName"| == 6 && |"templateName"| == 12
    ensures |"agentName"| == 9 && |"agentResponseTimeout"| == 20 && |"rootCertificateCommonName"| == 25
    ensures |"rootCertificateSerialNumber"| == 27 && |"Validity"| == 8 && |"isIntermediate"| == 14
    ensures "CSR_ID"[0] == 'C' && "caName"[0] == 'c' && "signType"[0] == 's' && "Validity"[0] == 'V'
  {}

  // The key a field name stands for.
  function KeyOf(name: string): Option<Key> {
    if name == "CSR_ID" then Some(CsrID)
    else if name == "signType" then Some(SignTypeKey)
    else if name == "serverName" then Some(ServerName)
    else if name == "caName" then Some(CAName)
    else if name == "templateName" then Some(TemplateName)
    else if name == "agentName" then Some(AgentName)
    else if name == "agentResponseTimeout" then Some(AgentResponseTimeout)
    else if name == "rootCertificateCommonName" then Some(RootCommonName)
    else if name == "rootCertificateSerialNumber" then Some(RootSerialNumber)
    else if name == "Validity" then Some(Validity)
    else if name == "isIntermediate" then Some(IsIntermediate)
    else None
  }

  lemma KeyOfNames(name: string)
    ensures KeyOf(name).Some? ==> FieldName(KeyOf(name).value) == name
  {}

  lemma RootNamesAreKeys(r: SignRequest, name: string)
    requires name in RootFields(r)
    ensures KeyOf(name).Some?
  {
    hide FormatInt;
    assert name == "rootCertificateCommonName" || name == "rootCertificateSerialNumber" || name == "Validity"
      || name == "isIntermediate";
  }

  lemma ServerNamesAreKeys(r: SignRequest, name: string)
    requires name in ServerFields(r) || name in AgentFields(r)
    ensures KeyOf(name).Some?
  {
    assert name == "serverName" || name == "caName" || name == "templateName" || name == "agentName"
      || name == "agentResponseTimeout";
  }

  lemma WireNamesAreKeys(r: SignRequest, name: string)
    requires name in WireFields(r)
    ensures KeyOf(name).Some? && FieldName(KeyOf(name).value) == name
  {
    hide RootFields, ServerFields, AgentFields, FieldName;
    KeyOfNames(name);
    if name in RootFields(r) {
      RootNamesAreKeys(r, name);
    } else if name in ServerFields(r) || name in AgentFields(r) {
      ServerNamesAreKeys(r, name);
    } else {
      assert name == "CSR_ID" || name == "signType";
    }
  }

  // And nothing else is.
  lemma OnlyKeysOnTheWire(r: SignRequest, d: map<Key, Detail>, name: string)
    requires forall k :: k in d <==> Mandatory(BackendOf(r.signType), k) || Optional(r, BackendOf(r.signType), k)
    requires forall k :: k in d ==> d[k] == Rendered(r, k)
    requires name in WireFields(r)
    ensures exists key :: key in d && FieldName(key) == name
  {
    WireNamesAreKeys(r, name);
    RenderedOnTheWire(r, d, KeyOf(name).value);
    hide WireFields, FieldName, Rendered, Mandatory, Optional, BackendOf, KeyOf;
  }

  lemma DetailsOnTheWire(r: SignRequest, d: map<Key, Detail>)
    requires forall k :: k in d <==> Mandatory(BackendOf(r.signType), k) || Optional(r, BackendOf(r.signType), k)
    requires forall k :: k in d ==> d[k] == Rendered(r, k)
    ensures SentAs(d, WireFields(r))
  {
    hide WireFields, FieldName, Rendered, Mandatory, Optional, BackendOf;
    forall key | key in d ensures FieldName(key) in WireFields(r) && WireFields(r)[FieldName(key)] == d[key] {
      RenderedOnTheWire(r, d, key);
    }
    forall name | name in WireFields(r) ensures exists key :: key in d && FieldName(key) == name {
      OnlyKeysOnTheWire(r, d, name);
    }
  }

  // Options pass exactly when the sign type is one of three and what it needs is set.
  lemma ValidationInPlainTerms(o: SigningOptions)
    ensures Validate(o).None? <==>
      || (o.signType in {"", "MSCA"} && o.serverName != "" && o.caName != "" && o.templateName != "")
      || (o.signType == "MSCAusingAgent" && o.serverName != "" && o.caName != "" && o.templateName != "" && o.agentName != "")
      || (o.signType == "signWithRoot" && o.rootCommonName != "")
    ensures Validate(o).Some? ==> IsPermanent(Validate(o).value)
  {}
}
