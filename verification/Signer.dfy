// internal/kmp/signer.go and provision.go: the two flows, as sequences of calls on the
// client.
module Signer {
  import opened Basics
  import opened Text
  import opened Documents
  import opened Identifiers
  import opened Errors
  import opened Certificates
  import opened Chain
  import opened Extraction
  import opened Response
  import opened KeyExport
  import opened Signing
  import opened Api
  import opened NameChecks
  import opened Client
  import opened Protocol

  const SECOND: int := 1_000_000_000

  // A parsed certificate signing request.
  datatype CertificateRequest = CertificateRequest(names: Names, key: PublicKey)

  datatype Provisioned = Provisioned(bundle: Bundle, key: PrivateKey, keyPEM: string, csrID: string, serialNumber: string)

  function CSRCommonName(csr: CertificateRequest): string {
    if csr.names.commonName != "" then csr.names.commonName
    else if |csr.names.dnsNames| > 0 then csr.names.dnsNames[0]
    else ""
  }

  // ---------- polling ----------

  // All calls fetch the same certificate; all but the last failed in a way that may
  // resolve itself.
  ghost predicate Polls(p: Platform, commonName: string, serialNumber: string, es: seq<Event>) {
    && (forall i :: 0 <= i < |es| ==> es[i].call == GetCertificate(commonName, serialNumber))
    && (forall i :: 0 <= i < |es| - 1 ==> Retryable(p, es[i].reply))
  }

  predicate Retryable(p: Platform, reply: Reply) {
    Got(p, reply).Err? && !IsPermanent(Got(p, reply).error)
  }

  lemma MultiplesGrow(a: int, b: int, interval: int)
    requires a <= b && interval > 0
    ensures a * interval <= b * interval
  {}

  lemma MultipleBound(n: nat, interval: int, timeout: int)
    requires interval > 0 && n * interval <= timeout
    ensures n <= timeout / interval
  {
    assert timeout / interval * interval + timeout % interval == timeout;
    if n > timeout / interval {
      MultiplesGrow(timeout / interval + 1, n, interval);
    }
  }

  lemma RetryStaysSigned(c: Context, e: Event, id: string, commonName: string, serialNumber: string)
    requires commonName != "" || serialNumber != ""
    requires e.call == GetCertificate(commonName, serialNumber) && Retryable(c.p, e.reply)
    ensures Advance(c, Signed(id, commonName, serialNumber), e) == Signed(id, commonName, serialNumber)
  {}

  lemma {:induction false} PollingStaysSigned(c: Context, before: seq<Event>, polls: seq<Event>, id: string,
      commonName: string, serialNumber: string)
    requires Run(c, before) == Signed(id, commonName, serialNumber)
    requires commonName != "" || serialNumber != ""
    requires Polls(c.p, commonName, serialNumber, polls)
    requires polls != [] ==> Retryable(c.p, polls[|polls| - 1].reply)
    ensures Run(c, before + polls) == Signed(id, commonName, serialNumber)
    decreases |polls|
  {
    hide Advance, Got;
    if polls == [] {
      assert before + polls == before;
    } else {
      var rest, e := polls[..|polls| - 1], polls[|polls| - 1];
      PollingStaysSigned(c, before, rest, id, commonName, serialNumber);
      assert polls == rest + [e];
      Associate(before, rest, [e]);
      RunSnoc(c, before + rest, e);
      RetryStaysSigned(c, e, id, commonName, serialNumber);
    }
  }

  // Where the machine is after polling: one step from where it was.
  lemma PollingAdvances(c: Context, before: seq<Event>, polls: seq<Event>, id: string, commonName: string,
      serialNumber: string)
    requires Run(c, before) == Signed(id, commonName, serialNumber)
    requires commonName != "" || serialNumber != ""
    requires Polls(c.p, commonName, serialNumber, polls) && polls != []
    ensures Run(c, before + polls) == Advance(c, Signed(id, commonName, serialNumber), polls[|polls| - 1])
  {
    hide Advance, Got;
    var rest, e := polls[..|polls| - 1], polls[|polls| - 1];
    PollingStaysSigned(c, before, rest, id, commonName, serialNumber);
    assert polls == rest + [e];
    Associate(before, rest, [e]);
    RunSnoc(c, before + rest, e);
  }

  // ---------- how a flow ends ----------

  // The phases a flow may end in. It never ends in front of a signCSR or an exportCSR
  // that was not sent, nor in front of a getCertificate except when an import left it
  // nothing to ask for: the client's own refusals of an empty id or empty identifiers are
  // unreachable. It ends in front of a lookup only when the issuer names no operation for
  // one or an import left no name to look up; the latter is the one refusal of the
  // client's own that is met.
  ghost predicate Final(c: Context, es: seq<Event>) {
    match Run(c, es)
    case Stored(csr) => c.opts.csrLookupOperation == "" || NamelessLookup(c, csr)
    case Identified(_, _) => false
    case Broken => false
    case Fetched(_, _, _) => c.flow.Importing?
    case Signed(_, commonName, serialNumber) =>
      es != [] && (es[|es| - 1].call.GetCertificate? || (c.flow.Importing? && commonName == "" && serialNumber == ""))
    case _ => true
  }

  predicate NamelessLookup(c: Context, csr: CSR) {
    c.flow.Importing? && c.opts.csrLookupOperation != "" && LookupName(c.flow, csr) == ""
  }

  // Why a flow stops in front of a lookup.
  function LookupRefusal(c: Context): Error {
    if c.opts.csrLookupOperation == "" then Wrap(Plain(InvalidConfig)) else Wrap(RefusedLocally())
  }

  // The client refuses to look up an empty name exactly when the reply to the import
  // reported neither id nor name and the request has no common name and no DNS name to
  // fall back on.
  lemma NamelessLookupIsMetIff(p: Platform, opts: SigningOptions, csr: CertificateRequest, hints: Hints, reply: Reply)
    ensures var c := ImportContext(p, opts, csr, hints);
      var phase := Run(c, [Event(ImportCSR, reply)]);
      phase.Stored? && NamelessLookup(c, phase.csr) <==>
        && opts.csrLookupOperation != "" && Imported(p, reply) == Ok(CSR("", ""))
        && csr.names.commonName == "" && (csr.names.dnsNames == [] || csr.names.dnsNames[0] == "")
  {
    var c := ImportContext(p, opts, csr, hints);
    FirstCall(c, Event(ImportCSR, reply));
  }

  // The last call, if there was one, failed in a way that may resolve itself.
  ghost predicate EndsTransiently(c: Context, es: seq<Event>) {
    es != [] && Transient(c.p, es[|es| - 1])
  }

  // An error is permanent exactly when the flow did not end in a transient failure.
  ghost predicate Classified(c: Context, es: seq<Event>, err: Error) {
    IsPermanent(err) <==> !EndsTransiently(c, es)
  }

  lemma LastCallFailed(c: Context, es: seq<Event>, e: Event, err: Error)
    requires ErrorOf(c.p, e) == Some(err)
    ensures Classified(c, es + [e], err) && Classified(c, es + [e], Wrap(err))
  {
    CallErrorsAreClassified(c.p, e);
    assert (es + [e])[|es|] == e;
  }

  lemma LastCallSucceeded(c: Context, es: seq<Event>, e: Event)
    requires ErrorOf(c.p, e) == None
    ensures !EndsTransiently(c, es + [e])
  {
    CallErrorsAreClassified(c.p, e);
    assert (es + [e])[|es|] == e;
  }

  lemma FirstCall(c: Context, e: Event)
    requires Stores(c, e.call)
    ensures Run(c, [e]) == AfterStore(StoredCSR(c, e.reply))
    ensures var r := StoredCSR(c, e.reply);
      if r.Err? then Classified(c, [e], Wrap(r.error)) else !EndsTransiently(c, [e])
  {
    RunSnoc(c, [], e);
    assert [] + [e] == [e];
    var r := StoredCSR(c, e.reply);
    if r.Err? {
      LastCallFailed(c, [], e, r.error);
    } else {
      LastCallSucceeded(c, [], e);
    }
  }

  // After polling, the last reply tells where the flow is and how it fails.
  lemma PollingConcludes(c: Context, before: seq<Event>, polls: seq<Event>, id: string, commonName: string,
      serialNumber: string)
    requires Run(c, before) == Signed(id, commonName, serialNumber)
    requires commonName != "" || serialNumber != ""
    requires Polls(c.p, commonName, serialNumber, polls) && polls != []
    ensures match Got(c.p, polls[|polls| - 1].reply)
      case Ok(certs) => Run(c, before + polls) == Fetched(id, serialNumber, certs) && !EndsTransiently(c, before + polls)
      case Err(err) =>
        Final(c, before + polls) && OnTheWay(Run(c, before + polls))
        && (IsPermanent(err) <==> !EndsTransiently(c, before + polls))
        && (Run(c, before + polls).Signed? ==> !IsPermanent(err))
  {
    hide Got, Transient, IsPermanent;
    var rest, e := before + polls[..|polls| - 1], polls[|polls| - 1];
    assert before + polls == rest + [e];
    PollingAdvances(c, before, polls, id, commonName, serialNumber);
    match Got(c.p, e.reply)
    case Ok(certs) => LastCallSucceeded(c, rest, e);
    case Err(err) => LastCallFailed(c, rest, e, err);
  }

  // What a finished import hands back: the chain of the certificate for the request's
  // key, which carries every name requested.
  ghost predicate SignedWell(c: Context, csr: CertificateRequest, es: seq<Event>, bundle: Bundle) {
    && Run(c, es).Fetched?
    && BundleOf(c.p.pki, Run(c, es).certs, csr.key) == Ok(bundle)
    && RequestCovered(c.p.text, csr.names, bundle.leaf.names)
  }

  // What a finished provision hands back: certificate and key of the one request that
  // was signed and exported. The key belongs to the leaf, which carries every name
  // requested.
  ghost predicate ProvisionedWell(c: Context, req: ProvisionRequest, es: seq<Event>, v: Provisioned) {
    && Run(c, es).Exported?
    && Run(c, es).id == v.csrID && Run(c, es).serialNumber == v.serialNumber
    && Belongs(c.p, req, Run(c, es).certs, Run(c, es).data, v)
  }

  ghost predicate Belongs(p: Platform, req: ProvisionRequest, certs: seq<Cert>, data: string, v: Provisioned) {
    && FirstKey(p.pki, Candidates(p.decode, data), req.password) == Some(v.key)
    && p.pki.encodeKey(v.key) == Some(v.keyPEM)
    && v.key.public.Some?
    && BundleOf(p.pki, certs, v.key.public.value) == Ok(v.bundle)
    && MatchesCertificate(v.key, v.bundle.leaf)
    && ProvisionCovered(p.text, req, v.bundle.leaf.names)
  }

  // A flow that stopped on the way: a call failed, or nothing was there to ask for.
  predicate OnTheWay(phase: Phase) {
    phase.Stopped? || phase.Signed?
  }

  // The certificate was asked for and not there yet.
  predicate Polling(phase: Phase) {
    phase.Signed? && (phase.commonName != "" || phase.serialNumber != "")
  }

  // What Provision demands of a request.
  predicate Acceptable(req: ProvisionRequest) {
    TrimSpace(req.commonName) != "" && req.password != ""
  }

  // ---------- the calls in plain terms ----------

  // What a reply reports under one of the keys, or nothing.
  function Reported(p: Platform, reply: Reply, keys: seq<string>): string {
    match reply
    case Answer(_, body, order) =>
      var doc := p.decode(body);
      var found := if doc.Some? then FindString(p.text, doc.value, keys, order) else None;
      if found.Some? then found.value else ""
    case _ => ""
  }

  function ReportedId(p: Platform, reply: Reply): string {
    Reported(p, reply, ["CSR_ID", "csrId", "csrID", "csrid", "certificateRequestId", "id"])
  }

  function ReportedName(p: Platform, reply: Reply): string {
    Reported(p, reply, ["commonName", "common_name", "CNAME", "cn", "subjectCommonName"])
  }

  function ReportedSerial(p: Platform, reply: Reply): string {
    Reported(p, reply, ["serialNumber", "serial_number", "serialNo", "serial"])
  }

  // The id a lookup selects for the name.
  function SelectedId(p: Platform, reply: Reply, name: string): Option<string> {
    match reply
    case Answer(_, body, order) =>
      var doc := p.decode(body);
      if doc.Some? then SelectCSRID(p.text, doc.value, name, order) else None
    case _ => None
  }

  function Or(name: string, fallback: string): string {
    if name != "" then name else fallback
  }

  // The call that follows the first up to signCSR: one lookup by the name, unless the first
  // reply reported the id, and signCSR of that id as asked.
  ghost predicate ResolvesAndSigns(p: Platform, opts: SigningOptions, duration: int, isCA: bool, name: string,
      es: seq<Event>, i: nat)
    requires 0 < i < |es|
  {
    var id := ReportedId(p, es[0].reply);
    if id == "" && i == 1 then
      opts.csrLookupOperation != "" && name != "" && es[1].call == LookupCSR(opts.csrLookupOperation, name)
    else
      && i <= 2 && es[i].call.SignCSR? && es[i].call.sign.csrID != ""
      && Some(es[i].call.sign.csrID) == (if id != "" then Some(id) else SelectedId(p, es[1].reply, name))
      && SignsAsAsked(es[i].call.sign, opts, duration, isCA)
  }

  // The position of signCSR.
  function SignsAt(p: Platform, es: seq<Event>): nat
    requires es != []
  {
    if ReportedId(p, es[0].reply) != "" then 1 else 2
  }

  ghost predicate FetchesAs(es: seq<Event>, i: nat, commonName: string, serialNumber: string)
    requires i < |es|
  {
    es[i].call == GetCertificate(commonName, serialNumber) && (commonName != "" || serialNumber != "")
  }

  // The n-th call of a Sign, with what the request, the issuer and the replies before it
  // make of it.
  ghost predicate CallOfSign(p: Platform, opts: SigningOptions, csr: CertificateRequest, duration: int, isCA: bool,
      es: seq<Event>, i: nat)
    requires i < |es|
  {
    var reported, sign := ReportedName(p, es[0].reply), SignsAt(p, es);
    var dnsName := if csr.names.dnsNames == [] then "" else csr.names.dnsNames[0];
    if i == 0 then es[i].call == ImportCSR
    else if i <= sign then
      ResolvesAndSigns(p, opts, duration, isCA, Or(reported, Or(csr.names.commonName, dnsName)), es, i)
    else
      FetchesAs(es, i, Or(ReportedName(p, es[sign].reply), Or(reported, csr.names.commonName)),
        ReportedSerial(p, es[sign].reply))
  }

  ghost predicate CallsOfSign(p: Platform, opts: SigningOptions, csr: CertificateRequest, duration: int, isCA: bool,
      es: seq<Event>) {
    forall i :: 0 <= i < |es| ==> CallOfSign(p, opts, csr, duration, isCA, es, i)
  }

  // The n-th call of a Provision; the last may export the id that was signed.
  ghost predicate CallOfProvision(p: Platform, opts: SigningOptions, req: ProvisionRequest, es: seq<Event>, i: nat)
    requires i < |es|
  {
    var sign := SignsAt(p, es);
    if i == 0 then es[i].call == CreateCSR(req)
    else if i <= sign then
      ResolvesAndSigns(p, opts, 0, false, Or(ReportedName(p, es[0].reply), req.commonName), es, i)
    else
      || FetchesAs(es, i, Or(ReportedName(p, es[sign].reply), req.commonName), ReportedSerial(p, es[sign].reply))
      || Exports(es, i, sign, if req.exportFileType == "" then "PrivateKey" else req.exportFileType)
  }

  ghost predicate Exports(es: seq<Event>, i: nat, sign: nat, fileType: string)
    requires i < |es|
  {
    && i == |es| - 1 && i > sign + 1
    && es[sign].call.SignCSR? && es[i].call == ExportCSR(es[sign].call.sign.csrID, fileType)
  }

  ghost predicate CallsOfProvision(p: Platform, opts: SigningOptions, req: ProvisionRequest, es: seq<Event>) {
    forall i :: 0 <= i < |es| ==> CallOfProvision(p, opts, req, es, i)
  }

  lemma StoredIsReported(c: Context, reply: Reply)
    ensures var r := StoredCSR(c, reply);
      r.Ok? ==>
        && r.value.id == ReportedId(c.p, reply)
        && r.value.commonName ==
             match c.flow
             case Importing(_, _, _) => ReportedName(c.p, reply)
             case Provisioning(req) => Or(ReportedName(c.p, reply), req.commonName)
  {
    hide FindString, Succeeded;
  }

  lemma SignedIsReported(p: Platform, reply: Reply)
    ensures var r := SignedBy(p, reply);
      r.Ok? ==> r.value.commonName == ReportedName(p, reply) && r.value.serialNumber == ReportedSerial(p, reply)
  {
    hide FindString, Succeeded;
  }

  lemma LookedUpIsSelected(p: Platform, name: string, reply: Reply)
    ensures LookedUp(p, name, reply).Ok? ==> SelectedId(p, reply, name) == Some(LookedUp(p, name, reply).value)
  {
    hide SelectCSRID, Succeeded;
  }

  // The name a lookup goes by.
  lemma LookupNameInPlainTerms(c: Context, stored: CSR, storing: Reply)
    requires StoredCSR(c, storing) == Ok(stored)
    ensures LookupName(c.flow, stored) == Or(ReportedName(c.p, storing),
      match c.flow case Importing(_, lookup, _) => lookup case Provisioning(req) => req.commonName)
  {
    StoredIsReported(c, storing);
    hide StoredCSR, ReportedName;
  }

  // The name the certificate is fetched by.
  lemma FetchNameInPlainTerms(c: Context, stored: CSR, storing: Reply, signed: SignResult, signing: Reply)
    requires StoredCSR(c, storing) == Ok(stored) && SignedBy(c.p, signing) == Ok(signed)
    ensures FetchName(c.flow, stored, signed) == Or(ReportedName(c.p, signing),
      match c.flow
      case Importing(subject, _, _) => Or(ReportedName(c.p, storing), subject)
      case Provisioning(req) => req.commonName)
  {
    StoredIsReported(c, storing);
    SignedIsReported(c.p, signing);
    hide StoredCSR, SignedBy, ReportedName;
  }

  // The first reply decides which call signs, and under which id.
  lemma OrderedSignsAsAsked(c: Context, es: seq<Event>, sign: nat, id: string, i: nat)
    requires Ordered(c, es, sign, id) && 0 < i < |es| && i <= sign
    ensures sign == SignsAt(c.p, es)
    ensures var name := Or(ReportedName(c.p, es[0].reply),
        match c.flow case Importing(_, lookup, _) => lookup case Provisioning(req) => req.commonName);
      var hints := match c.flow case Importing(_, _, h) => h case Provisioning(_) => Hints(0, false);
      ResolvesAndSigns(c.p, c.opts, hints.duration, hints.isCA, name, es, i)
  {
    hide StoredCSR, LookedUp, Closing, SignsAsAsked, RequestFor, ReportedId, ReportedName, SelectedId;
    assert Resolved(c, es, sign, id);
    StoredIsReported(c, es[0].reply);
    var stored := StoredCSR(c, es[0].reply).value;
    LookupNameInPlainTerms(c, stored, es[0].reply);
    if sign < |es| {
      RequestsAskForWhatIsAsked(c.opts, id, SignHints(c.flow));
      LookedUpIsSelected(c.p, LookupName(c.flow, stored), es[1].reply);
    }
  }

  lemma OrderedFetchesAs(c: Context, es: seq<Event>, sign: nat, i: nat)
    requires |es| > sign > 0 && i < |es| && Fetches(c, es, sign, es[i].call)
    ensures FetchesAs(es, i, Or(ReportedName(c.p, es[sign].reply),
        match c.flow
        case Importing(subject, _, _) => Or(ReportedName(c.p, es[0].reply), subject)
        case Provisioning(req) => req.commonName), ReportedSerial(c.p, es[sign].reply))
  {
    var stored, signed := StoredCSR(c, es[0].reply), SignedBy(c.p, es[sign].reply);
    FetchNameInPlainTerms(c, stored.value, es[0].reply, signed.value, es[sign].reply);
    SignedIsReported(c.p, es[sign].reply);
    hide StoredCSR, SignedBy, ReportedName, ReportedSerial, FetchName;
  }

  lemma OrderedSignsAt(c: Context, es: seq<Event>, sign: nat, id: string)
    requires Ordered(c, es, sign, id) && |es| > 1
    ensures sign == SignsAt(c.p, es)
  {
    OrderedSignsAsAsked(c, es, sign, id, 1);
  }

  lemma StoresFirst(c: Context, es: seq<Event>, sign: nat, id: string)
    requires Ordered(c, es, sign, id)
    ensures es != [] ==> Stores(c, es[0].call)
  {
    hide Resolved, Closing;
  }

  lemma SignMakesItsCall(p: Platform, opts: SigningOptions, csr: CertificateRequest, hints: Hints, es: seq<Event>,
      sign: nat, id: string, i: nat)
    requires Ordered(ImportContext(p, opts, csr, hints), es, sign, id) && i < |es|
    ensures CallOfSign(p, opts, csr, hints.duration, hints.isCA, es, i)
  {
    var c := ImportContext(p, opts, csr, hints);
    hide Fetches, Resolved, ResolvesAndSigns, FetchesAs, ReportedName, ReportedSerial, ReportedId, RequestFor;
    StoresFirst(c, es, sign, id);
    if 0 < i {
      OrderedSignsAt(c, es, sign, id);
      if i <= sign {
        OrderedSignsAsAsked(c, es, sign, id, i);
      } else {
        assert Fetches(c, es, sign, es[i].call);
        OrderedFetchesAs(c, es, sign, i);
      }
    }
  }

  lemma SignMakesItsCalls(p: Platform, opts: SigningOptions, csr: CertificateRequest, hints: Hints)
    ensures forall es :: Final(ImportContext(p, opts, csr, hints), es) ==>
      CallsOfSign(p, opts, csr, hints.duration, hints.isCA, es)
  {
    hide Final, Run, Ordered, CallOfSign;
    forall es | Final(ImportContext(p, opts, csr, hints), es)
      ensures CallsOfSign(p, opts, csr, hints.duration, hints.isCA, es)
    {
      FinalIsAccepted(ImportContext(p, opts, csr, hints), es);
      var sign, id := AcceptedTracesAreOrdered(ImportContext(p, opts, csr, hints), es);
      forall i | 0 <= i < |es| ensures CallOfSign(p, opts, csr, hints.duration, hints.isCA, es, i) {
        SignMakesItsCall(p, opts, csr, hints, es, sign, id, i);
      }
    }
  }

  lemma FinalIsAccepted(c: Context, es: seq<Event>)
    requires Final(c, es)
    ensures Run(c, es) != Broken
  {
    hide Run;
  }

  lemma ProvisionMakesItsCall(p: Platform, opts: SigningOptions, req: ProvisionRequest, es: seq<Event>, sign: nat,
      id: string, i: nat)
    requires Ordered(Context(p, opts, Provisioning(req)), es, sign, id) && i < |es|
    ensures CallOfProvision(p, opts, req, es, i)
  {
    var c := Context(p, opts, Provisioning(req));
    hide Fetches, Resolved, ResolvesAndSigns, FetchesAs, ReportedName, ReportedSerial, ReportedId, RequestFor;
    StoresFirst(c, es, sign, id);
    if 0 < i {
      OrderedSignsAt(c, es, sign, id);
      if i <= sign {
        OrderedSignsAsAsked(c, es, sign, id, i);
      } else if Fetches(c, es, sign, es[i].call) {
        OrderedFetchesAs(c, es, sign, i);
      } else {
        SignedUnderId(c.opts, id, SignHints(c.flow));
        assert Exports(es, i, sign, ExportFileType(req));
      }
    }
  }

  lemma SignedUnderId(o: SigningOptions, id: string, hints: Hints)
    ensures RequestFor(o, id, hints).csrID == id
  {}

  lemma ProvisionMakesItsCalls(p: Platform, opts: SigningOptions, req: ProvisionRequest)
    ensures forall es :: Final(Context(p, opts, Provisioning(req)), es) ==> CallsOfProvision(p, opts, req, es)
  {
    hide Final, Run, Ordered, CallOfProvision;
    forall es | Final(Context(p, opts, Provisioning(req)), es) ensures CallsOfProvision(p, opts, req, es) {
      FinalIsAccepted(Context(p, opts, Provisioning(req)), es);
      var sign, id := AcceptedTracesAreOrdered(Context(p, opts, Provisioning(req)), es);
      forall i | 0 <= i < |es| ensures CallOfProvision(p, opts, req, es, i) {
        ProvisionMakesItsCall(p, opts, req, es, sign, id, i);
      }
    }
  }

  // What one Sign may answer after its calls: it made some and ended where a flow may end;
  // a success is what the calls yield; an error is of the class the last call gives it, is
  // returned only when the calls yield nothing, and says so when a lookup was refused.
  ghost predicate SignAnswers(c: Context, csr: CertificateRequest, es: seq<Event>, r: Result<Bundle, Error>) {
    && es != [] && Final(c, es)
    && (r.Ok? ==> SignedWell(c, csr, es, r.value))
    && (r.Err? ==> Classified(c, es, r.error) && forall bundle :: !SignedWell(c, csr, es, bundle))
    && (Run(c, es).Stored? ==> r == Err(LookupRefusal(c)))
  }

  // The same for Provision, which makes calls exactly for an acceptable request.
  ghost predicate ProvisionAnswers(c: Context, req: ProvisionRequest, es: seq<Event>, r: Result<Provisioned, Error>) {
    && (es != [] <==> Acceptable(req)) && Final(c, es)
    && (r.Ok? ==> ProvisionedWell(c, req, es, r.value))
    && (r.Err? ==> Classified(c, es, r.error) && forall v :: !ProvisionedWell(c, req, es, v))
    && (Run(c, es).Stored? ==> r == Err(LookupRefusal(c)))
  }

  lemma AnsweringSignsMakeTheirCalls(p: Platform, opts: SigningOptions, csr: CertificateRequest, hints: Hints)
    ensures forall es, r :: SignAnswers(ImportContext(p, opts, csr, hints), csr, es, r) ==>
      CallsOfSign(p, opts, csr, hints.duration, hints.isCA, es)
  {
    SignMakesItsCalls(p, opts, csr, hints);
    hide Final, Classified, SignedWell, Run, CallsOfSign;
  }

  lemma AnsweringProvisionsMakeTheirCalls(p: Platform, opts: SigningOptions, req: ProvisionRequest)
    ensures forall es, r :: ProvisionAnswers(Context(p, opts, Provisioning(req)), req, es, r) ==>
      CallsOfProvision(p, opts, req, es)
  {
    ProvisionMakesItsCalls(p, opts, req);
    hide Final, Classified, ProvisionedWell, Run, CallsOfProvision;
  }

  // A flow that stops on the way answers with its error.
  lemma StoppingAnswers(c: Context, es: seq<Event>, err: Error)
    requires es != [] && Final(c, es) && Classified(c, es, err)
    requires OnTheWay(Run(c, es)) || (Run(c, es).Stored? && err == LookupRefusal(c))
    ensures forall csr :: SignAnswers(c, csr, es, Err(err))
    ensures forall req :: Acceptable(req) ==> ProvisionAnswers(c, req, es, Err(err))
    ensures !Run(c, es).Signed? ==> !Polling(Run(c, es))
  {
    hide Run, Classified, Acceptable;
  }

  lemma NothingToFetch(c: Context, es: seq<Event>)
    requires es != [] && c.flow.Importing? && !EndsTransiently(c, es)
    requires Run(c, es).Signed? && Run(c, es).commonName == "" && Run(c, es).serialNumber == ""
    ensures Final(c, es) && Classified(c, es, Wrap(Plain(InvalidConfig)))
  {
    var err := Wrap(Plain(InvalidConfig));
    assert Is(err, InvalidConfig);
    hide Run, EndsTransiently;
  }

  // After the last fetch the bundle, or the refusal of it, is the answer.
  lemma CheckingAnswers(c: Context, csr: CertificateRequest, es: seq<Event>, r: Result<Bundle, Error>)
    requires es != [] && c.flow.Importing? && Run(c, es).Fetched? && !EndsTransiently(c, es)
    requires r.Ok? ==> SignedWell(c, csr, es, r.value)
    requires r.Err? ==> IsPermanent(r.error) && forall bundle :: !SignedWell(c, csr, es, bundle)
    ensures SignAnswers(c, csr, es, r) && !Polling(Run(c, es))
  {
    hide Run, EndsTransiently, IsPermanent, SignedWell;
  }

  // After the export key and bundle, or the refusal of them, are.
  lemma AssemblingAnswers(c: Context, req: ProvisionRequest, es: seq<Event>, r: Result<Provisioned, Error>)
    requires es != [] && Acceptable(req) && Run(c, es).Exported? && !EndsTransiently(c, es)
    requires r.Ok? ==> ProvisionedWell(c, req, es, r.value)
    requires r.Err? ==> IsPermanent(r.error) && forall v :: !ProvisionedWell(c, req, es, v)
    ensures ProvisionAnswers(c, req, es, r) && !Polling(Run(c, es))
  {
    hide Run, EndsTransiently, IsPermanent, ProvisionedWell, Acceptable;
  }

  class Signer {
    const client: Client
    const opts: SigningOptions
    const pollInterval: int
    const pollTimeout: int

    constructor (client: Client, opts: SigningOptions, pollInterval: int, pollTimeout: int)
      ensures this.client == client && this.opts == opts
      ensures this.pollInterval == pollInterval && this.pollTimeout == pollTimeout
    {
      this.client, this.opts := client, opts;
      this.pollInterval, this.pollTimeout := pollInterval, pollTimeout;
    }

    function Interval(): int {
      if pollInterval <= 0 then 2 * SECOND else pollInterval
    }

    function Timeout(): int {
      if pollTimeout <= 0 then 60 * SECOND else pollTimeout
    }

    // There was no time for another sleep, or the context ended in one.
    predicate OutOfTime(since: int)
      reads client
    {
      (client.trace != [] && client.server.cancelled(|client.trace| - 1)) || client.clock + Interval() > since + Timeout()
    }

    // Asks until there is an answer, a permanent error, no time for another sleep, or the
    // context ends. Each sleep starts early enough to end by the deadline, and there are
    // at most timeout / interval of them.
    method FetchCertificate(commonName: string, serialNumber: string)
      returns (r: Result<seq<Cert>, Error>, ghost polls: seq<Event>, ghost naps: seq<int>)
      requires client.p.Valid() && (commonName != "" || serialNumber != "")
      modifies client
      ensures client.trace == old(client.trace) + polls && polls != []
      ensures Polls(client.p, commonName, serialNumber, polls)
      ensures match Got(client.p, polls[|polls| - 1].reply)
        case Ok(certs) => r == Ok(certs)
        case Err(err) => r.Err? && IsPermanent(r.error) == IsPermanent(err)
      ensures forall i :: 0 <= i < |naps| ==>
        old(client.clock) + i * Interval() <= naps[i] && naps[i] + Interval() <= old(client.clock) + Timeout()
      ensures |polls| - 1 <= |naps| <= |polls|
      ensures |polls| <= Timeout() / Interval() + 1
      ensures Interval() == if pollInterval > 0 then pollInterval else 2_000_000_000
      ensures Timeout() == if pollTimeout > 0 then pollTimeout else 60_000_000_000
      ensures r.Err? && !IsPermanent(r.error) ==>
        if |naps| == |polls| then client.server.cancelled(|old(client.trace)| + |polls| - 1)
        else client.clock + Interval() > old(client.clock) + Timeout()
      ensures client.clock >= old(client.clock)
      ensures AnsweredBy(client.server, old(client.trace)) ==> AnsweredBy(client.server, client.trace)
    {
      hide Got, IsPermanent;
      var interval, timeout := Interval(), Timeout();
      var deadline := client.clock + timeout;
      polls, naps := [], [];
      while true
        invariant client.trace == old(client.trace) + polls
        invariant AnsweredBy(client.server, old(client.trace)) ==> AnsweredBy(client.server, client.trace)
        invariant Polls(client.p, commonName, serialNumber, polls)
        invariant forall i :: 0 <= i < |polls| ==> Retryable(client.p, polls[i].reply)
        invariant |naps| == |polls|
        invariant forall i :: 0 <= i < |naps| ==>
          old(client.clock) + i * interval <= naps[i] && naps[i] + interval <= deadline
        invariant old(client.clock) + |naps| * interval <= client.clock
        invariant |naps| * interval <= timeout
        decreases deadline - client.clock
      {
        var n := |client.trace|;
        var certs, reply := client.Get(commonName, serialNumber);
        polls := polls + [Event(GetCertificate(commonName, serialNumber), reply)];
        MultipleBound(|naps|, interval, timeout);
        if certs.Ok? {
          return certs, polls, naps;
        }
        if IsPermanent(certs.error) || client.clock + interval > deadline {
          return certs, polls, naps;
        }
        naps := naps + [client.clock];
        if client.server.cancelled(n) {
          JoiningContextPreservesPermanence(certs.error);
          return Err(Join(certs.error, Plain(ContextDone))), polls, naps;
        }
        client.Sleep(interval, n);
        assert (|naps| - 1) * interval + interval == |naps| * interval;
      }
    }

    // importCSR.
    method StoreImported(ghost c: Context) returns (r: Result<CSR, Error>, ghost es: seq<Event>)
      requires c.p == client.p && c.flow.Importing?
      modifies client
      ensures client.trace == old(client.trace) + es && es != [] && client.clock >= old(client.clock)
      ensures AnsweredBy(client.server, old(client.trace)) ==> AnsweredBy(client.server, client.trace)
      ensures r.Ok? ==> Run(c, es) == AfterStore(r) && !EndsTransiently(c, es)
      ensures r.Err? ==> Final(c, es) && Classified(c, es, Wrap(r.error)) && Run(c, es).Stopped?
    {
      var stored, reply := client.Import();
      ghost var e := Event(ImportCSR, reply);
      es := [e];
      FirstCall(c, e);
      r := stored;
    }

    // createCSR.
    method StoreCreated(ghost c: Context, req: ProvisionRequest) returns (r: Result<CSR, Error>, ghost es: seq<Event>)
      requires c.p == client.p && c.flow == Provisioning(req) && TrimSpace(req.commonName) != ""
      modifies client
      ensures r.Ok? && req.commonName != "" ==> r.value.commonName != ""
      ensures client.trace == old(client.trace) + es && es != [] && client.clock >= old(client.clock)
      ensures AnsweredBy(client.server, old(client.trace)) ==> AnsweredBy(client.server, client.trace)
      ensures r.Ok? ==> Run(c, es) == AfterStore(r) && !EndsTransiently(c, es)
      ensures r.Err? ==> Final(c, es) && Classified(c, es, Wrap(r.error)) && Run(c, es).Stopped?
    {
      var stored, reply := client.Create(req);
      ghost var e := Event(CreateCSR(req), reply);
      es := [e];
      FirstCall(c, e);
      r := stored;
    }

    // The id signCSR needs: reported on storing, or looked up where the issuer says how.
    method ResolveCSRID(ghost c: Context, ghost start: seq<Event>, ghost before: seq<Event>, stored: CSR,
        fallback: string)
      returns (r: Result<string, Error>, ghost es: seq<Event>)
      requires c.p == client.p && c.opts == opts && before != [] && client.trace == start + before
      requires Run(c, before) == AfterStore(Ok(stored)) && !EndsTransiently(c, before)
      requires LookupName(c.flow, stored) == if stored.commonName != "" then stored.commonName else fallback
      requires c.flow.Provisioning? ==> stored.commonName != ""
      modifies client
      ensures client.trace == start + es && es != [] && client.clock >= old(client.clock)
      ensures AnsweredBy(client.server, old(client.trace)) ==> AnsweredBy(client.server, client.trace)
      ensures r.Ok? ==> r.value != "" && Run(c, es) == Identified(stored, r.value)
      ensures r.Err? ==> Final(c, es) && Classified(c, es, r.error)
      ensures r.Err? ==> Run(c, es).Stopped? || (Run(c, es).Stored? && es == before && r.error == LookupRefusal(c))
    {
      hide LookedUp, Decoded;
      es := before;
      if stored.id != "" {
        return Ok(stored.id), es;
      }
      var commonName := stored.commonName;
      if commonName == "" {
        commonName := fallback;
      }
      if opts.csrLookupOperation == "" {
        return Err(Wrap(Plain(InvalidConfig))), es;
      }
      var id, reply := client.FindCSRID(opts.csrLookupOperation, commonName);
      if commonName == "" {
        PermanenceOfApiErrors(RefusedLocally());
        return Err(Wrap(id.error)), es;
      }
      ghost var e := Event(LookupCSR(opts.csrLookupOperation, commonName), reply);
      es := before + [e];
      RunSnoc(c, before, e);
      if id.Err? {
        LastCallFailed(c, before, e, id.error);
        return Err(Wrap(id.error)), es;
      }
      LookedUpIdIsNotEmpty(c.p, commonName, reply);
      return Ok(id.value), es;
    }

    // signCSR for the stored request.
    method SignStored(ghost c: Context, ghost start: seq<Event>, ghost before: seq<Event>, ghost stored: CSR,
        id: string, hints: Hints)
      returns (r: Result<SignResult, Error>, ghost es: seq<Event>)
      requires c.p == client.p && c.opts == opts && SignHints(c.flow) == hints && client.trace == start + before
      requires id != "" && Run(c, before) == Identified(stored, id)
      modifies client
      ensures client.trace == start + es && es != [] && client.clock >= old(client.clock)
      ensures AnsweredBy(client.server, old(client.trace)) ==> AnsweredBy(client.server, client.trace)
      ensures r.Ok? ==> Run(c, es) == Signed(id, FetchName(c.flow, stored, r.value), r.value.serialNumber)
      ensures r.Ok? ==> !EndsTransiently(c, es)
      ensures r.Err? ==> Final(c, es) && Classified(c, es, Wrap(r.error)) && Run(c, es).Stopped?
    {
      var request := SignRequestFor(opts, id, hints);
      var result, reply := client.Sign(request);
      ghost var e := Event(SignCSR(request), reply);
      es := before + [e];
      RunSnoc(c, before, e);
      if result.Err? {
        LastCallFailed(c, before, e, result.error);
      } else {
        LastCallSucceeded(c, before, e);
      }
      r := result;
    }

    // getCertificate until the certificate is there.
    method FetchSigned(ghost c: Context, ghost start: seq<Event>, ghost before: seq<Event>, ghost since: int,
        ghost id: string, commonName: string, serialNumber: string)
      returns (r: Result<seq<Cert>, Error>, ghost es: seq<Event>)
      requires c.p.Valid() && c.p == client.p && client.trace == start + before && since <= client.clock
      requires commonName != "" || serialNumber != ""
      requires Run(c, before) == Signed(id, commonName, serialNumber)
      modifies client
      ensures client.trace == start + es && es != []
      ensures AnsweredBy(client.server, old(client.trace)) ==> AnsweredBy(client.server, client.trace)
      ensures r.Ok? ==> Run(c, es) == Fetched(id, serialNumber, r.value) && !EndsTransiently(c, es)
      ensures r.Err? ==> Final(c, es) && Classified(c, es, Wrap(r.error)) && OnTheWay(Run(c, es))
      ensures Polling(Run(c, es)) ==> OutOfTime(since)
    {
      hide Run, Advance, Got, Final, EndsTransiently, IsPermanent, Polls;
      ghost var polls, naps;
      r, polls, naps := FetchCertificate(commonName, serialNumber);
      es := before + polls;
      Associate(start, before, polls);
      PollingConcludes(c, before, polls, id, commonName, serialNumber);
      if r.Err? {
        WrappingPreservesPermanence(r.error, 1);
        assert Wrapped(r.error, 1) == Wrap(r.error);
        assert Classified(c, es, Wrap(r.error));
      }
    }

    // exportCSR for the request that was signed.
    method ExportFetched(ghost c: Context, ghost start: seq<Event>, ghost before: seq<Event>, id: string,
        ghost serialNumber: string, ghost certs: seq<Cert>, req: ProvisionRequest)
      returns (r: Result<string, Error>, ghost es: seq<Event>)
      requires c.p == client.p && c.flow == Provisioning(req) && client.trace == start + before
      requires id != "" && Run(c, before) == Fetched(id, serialNumber, certs)
      modifies client
      ensures client.trace == start + es && es != [] && client.clock >= old(client.clock)
      ensures AnsweredBy(client.server, old(client.trace)) ==> AnsweredBy(client.server, client.trace)
      ensures r.Ok? ==> Run(c, es) == Exported(id, serialNumber, certs, r.value) && !EndsTransiently(c, es)
      ensures r.Ok? ==> r.value != ""
      ensures r.Err? ==> Final(c, es) && Classified(c, es, Wrap(r.error)) && Run(c, es).Stopped?
    {
      var data, reply := client.Export(id, req.exportFileType);
      ghost var e := Event(ExportCSR(id, ExportFileType(req)), reply);
      es := before + [e];
      RunSnoc(c, before, e);
      if data.Err? {
        LastCallFailed(c, before, e, data.error);
      } else {
        LastCallSucceeded(c, before, e);
      }
      r := data;
    }

    // Sign: import, resolve the id, sign, fetch, build the chain, check the names.
    method Sign(csr: Option<CertificateRequest>, hints: Hints)
      returns (r: Result<Bundle, Error>, ghost es: seq<Event>)
      requires client.p.Valid()
      modifies client
      ensures client.trace == old(client.trace) + es
      ensures AnsweredBy(client.server, old(client.trace)) ==> AnsweredBy(client.server, client.trace)
      ensures csr.None? ==> es == [] && r == Err(Wrap(Plain(InvalidConfig)))
      ensures csr.Some? ==>
        var c := ImportContext(client.p, opts, csr.value, hints);
        && SignAnswers(c, csr.value, es, r) && CallsOfSign(client.p, opts, csr.value, hints.duration, hints.isCA, es)
        && (Polling(Run(c, es)) ==> OutOfTime(old(client.clock)))
    {
      es := [];
      if csr.None? {
        return Err(Wrap(Plain(InvalidConfig))), es;
      }
      hide Run, Advance, AfterStore, EndsTransiently, BundleOf, RequestCovered, OutOfTime, AnsweredBy, Final,
        Classified, SignAnswers, LookupRefusal, CallsOfSign;
      AnsweringSignsMakeTheirCalls(client.p, opts, csr.value, hints);
      ghost var c, start := ImportContext(client.p, opts, csr.value, hints), client.trace;
      var stored: Result<CSR, Error>;
      stored, es := StoreImported(c);
      if stored.Err? {
        StoppingAnswers(c, es, Wrap(stored.error));
        return Err(Wrap(stored.error)), es;
      }
      var csrID: Result<string, Error>;
      csrID, es := ResolveCSRID(c, start, es, stored.value, CSRCommonName(csr.value));
      if csrID.Err? {
        StoppingAnswers(c, es, csrID.error);
        return Err(csrID.error), es;
      }
      var result: Result<SignResult, Error>;
      result, es := SignStored(c, start, es, stored.value, csrID.value, hints);
      if result.Err? {
        StoppingAnswers(c, es, Wrap(result.error));
        return Err(Wrap(result.error)), es;
      }
      var commonName := result.value.commonName;
      if commonName == "" {
        commonName := stored.value.commonName;
      }
      if commonName == "" {
        commonName := csr.value.names.commonName;
      }
      if commonName == "" && result.value.serialNumber == "" {
        NothingToFetch(c, es);
        StoppingAnswers(c, es, Wrap(Plain(InvalidConfig)));
        return Err(Wrap(Plain(InvalidConfig))), es;
      }
      var certs: Result<seq<Cert>, Error>;
      certs, es := FetchSigned(c, start, es, old(client.clock), csrID.value, commonName, result.value.serialNumber);
      if certs.Err? {
        StoppingAnswers(c, es, Wrap(certs.error));
        return Err(Wrap(certs.error)), es;
      }
      r := CheckSigned(csr.value, certs.value);
      CheckingAnswers(c, csr.value, es, r);
    }

    method CheckSigned(csr: CertificateRequest, certs: seq<Cert>) returns (r: Result<Bundle, Error>)
      ensures r.Err? ==> IsPermanent(r.error)
      ensures r.Ok? ==> BundleOf(client.p.pki, certs, csr.key) == Ok(r.value)
      ensures r.Ok? ==> RequestCovered(client.p.text, csr.names, r.value.leaf.names)
      ensures r.Err? ==> forall bundle ::
        BundleOf(client.p.pki, certs, csr.key) == Ok(bundle) ==> !RequestCovered(client.p.text, csr.names, bundle.leaf.names)
    {
      var bundle := BuildBundle(client.p.pki, certs, csr.key);
      if bundle.Err? {
        return Err(Wrap(Plain(UnusableResponse)));
      }
      var missing := VerifyRequestedNames(client.p.text, csr.names, bundle.value.leaf.names);
      if missing.Some? {
        return Err(missing.value);
      }
      return Ok(bundle.value);
    }

    // Provision: create the request with its key, resolve the id, sign, fetch, export the
    // key, check that key, certificate and names belong together.
    method Provision(req: ProvisionRequest)
      returns (r: Result<Provisioned, Error>, ghost es: seq<Event>)
      requires client.p.Valid()
      modifies client
      ensures client.trace == old(client.trace) + es
      ensures AnsweredBy(client.server, old(client.trace)) ==> AnsweredBy(client.server, client.trace)
      ensures var c := Context(client.p, opts, Provisioning(req));
        && ProvisionAnswers(c, req, es, r) && CallsOfProvision(client.p, opts, req, es)
        && (Polling(Run(c, es)) ==> OutOfTime(old(client.clock)))
    {
      es := [];
      ghost var c, start := Context(client.p, opts, Provisioning(req)), client.trace;
      AnsweringProvisionsMakeTheirCalls(client.p, opts, req);
      if TrimSpace(req.commonName) == "" {
        return Err(Wrap(Plain(InvalidConfig))), es;
      }
      if req.password == "" {
        return Err(Wrap(Plain(InvalidConfig))), es;
      }
      TrimSpaceEmpty(req.commonName);
      hide Run, Advance, EndsTransiently, Belongs, OutOfTime, AnsweredBy, Final, Classified, ProvisionAnswers,
        LookupRefusal, CallsOfProvision;
      var stored: Result<CSR, Error>;
      stored, es := StoreCreated(c, req);
      if stored.Err? {
        StoppingAnswers(c, es, Wrap(stored.error));
        return Err(Wrap(stored.error)), es;
      }
      var csrID: Result<string, Error>;
      csrID, es := ResolveCSRID(c, start, es, stored.value, req.commonName);
      if csrID.Err? {
        StoppingAnswers(c, es, csrID.error);
        return Err(csrID.error), es;
      }
      var result: Result<SignResult, Error>;
      result, es := SignStored(c, start, es, stored.value, csrID.value, Hints(0, false));
      if result.Err? {
        StoppingAnswers(c, es, Wrap(result.error));
        return Err(Wrap(result.error)), es;
      }
      var commonName := result.value.commonName;
      if commonName == "" {
        commonName := req.commonName;
      }
      var certs: Result<seq<Cert>, Error>;
      certs, es := FetchSigned(c, start, es, old(client.clock), csrID.value, commonName, result.value.serialNumber);
      if certs.Err? {
        StoppingAnswers(c, es, Wrap(certs.error));
        return Err(Wrap(certs.error)), es;
      }
      var data: Result<string, Error>;
      data, es := ExportFetched(c, start, es, csrID.value, result.value.serialNumber, certs.value, req);
      if data.Err? {
        StoppingAnswers(c, es, Wrap(data.error));
        return Err(Wrap(data.error)), es;
      }
      r := Assemble(req, csrID.value, result.value.serialNumber, certs.value, data.value);
      AssemblingAnswers(c, req, es, r);
    }

    // The checks after the last call. Whatever they refuse, asking again would not help.
    method Assemble(req: ProvisionRequest, csrID: string, serialNumber: string, certs: seq<Cert>, data: string)
      returns (r: Result<Provisioned, Error>)
      requires client.p.Valid() && data != ""
      ensures r.Err? ==> IsPermanent(r.error) && forall v :: !Belongs(client.p, req, certs, data, v)
      ensures r.Ok? ==>
        r.value.csrID == csrID && r.value.serialNumber == serialNumber && Belongs(client.p, req, certs, data, r.value)
    {
      var key := ParseExportedPrivateKey(client.p.pki, client.p.decode, data, req.password);
      ExplainedErrorsMeanNoKey(client.p.pki, Candidates(client.p.decode, data), req.password, key);
      hide FirstKey, Candidates, BundleOf, ProvisionCovered;
      if key.Err? {
        return Err(Wrap(Plain(UnusableResponse)));
      }
      var publicKey := Absent;
      if key.value.key.public.Some? {
        publicKey := key.value.key.public.value;
      }
      var bundle := BuildBundle(client.p.pki, certs, publicKey);
      if bundle.Err? {
        return Err(Wrap(Plain(UnusableResponse)));
      }
      if !MatchesCertificate(key.value.key, bundle.value.leaf) {
        return Err(Wrap(Plain(UnusableResponse)));
      }
      var missing := VerifyProvisionedNames(client.p.text, req, bundle.value.leaf.names);
      if missing.Some? {
        return Err(missing.value);
      }
      return Ok(Provisioned(bundle.value, key.value.key, key.value.pem, csrID, serialNumber));
    }
  }

  function ImportContext(p: Platform, opts: SigningOptions, csr: CertificateRequest, hints: Hints): Context {
    Context(p, opts, Importing(csr.names.commonName, CSRCommonName(csr), hints))
  }

  ghost predicate DistinctRaws(certs: seq<Cert>) {
    forall i, j :: 0 <= i < j < |certs| ==> certs[i].raw != certs[j].raw
  }

  ghost predicate GoodCertificates(pki: Pki, certs: seq<Cert>) {
    DistinctRaws(certs) && forall c :: c in certs ==> pki.Parsed(c)
  }

  ghost predicate HoldsGoodCertificates(p: Platform, phase: Phase) {
    match phase
    case Signed(id, _, _) => id != ""
    case Fetched(id, _, certs) => id != "" && certs != [] && GoodCertificates(p.pki, certs)
    case Exported(id, _, certs, _) => id != "" && certs != [] && GoodCertificates(p.pki, certs)
    case _ => true
  }

  lemma AdvancingKeepsGoodCertificates(c: Context, phase: Phase, e: Event)
    requires c.p.Valid() && HoldsGoodCertificates(c.p, phase)
    ensures HoldsGoodCertificates(c.p, Advance(c, phase, e))
  {
    GotCertificatesAreDistinct(c.p, e.reply);
  }

  // What the fetching phases hold comes from one response, without duplicates, for a
  // request with an id.
  lemma {:induction false} FetchedCertificatesAreDistinct(c: Context, es: seq<Event>)
    requires c.p.Valid()
    ensures HoldsGoodCertificates(c.p, Run(c, es))
    decreases |es|
  {
    if es != [] {
      FetchedCertificatesAreDistinct(c, es[..|es| - 1]);
      AdvancingKeepsGoodCertificates(c, Run(c, es[..|es| - 1]), es[|es| - 1]);
    }
  }

  lemma GotCertificatesAreDistinct(p: Platform, reply: Reply)
    requires p.Valid()
    ensures Got(p, reply).Ok? ==> Got(p, reply).value != [] && GoodCertificates(p.pki, Got(p, reply).value)
  {
    if Decoded(p, reply).Ok? {
      ExtractedAreParsed(p.pki, AllStrings(Decoded(p, reply).value.doc));
      ExtractionIsDistinctAndComplete(p.pki, AllStrings(Decoded(p, reply).value.doc));
    }
  }

  // The calls decide the answer: a bundle is returned exactly when it is what they yield.
  lemma SignReturnsWhatItsCallsYield(c: Context, csr: CertificateRequest, es: seq<Event>, r: Result<Bundle, Error>)
    requires SignAnswers(c, csr, es, r)
    ensures forall bundle :: SignedWell(c, csr, es, bundle) <==> r == Ok(bundle)
  {
    hide Run, BundleOf, Final, Classified;
  }

  // So do those of Provision.
  lemma ProvisionReturnsWhatItsCallsYield(c: Context, req: ProvisionRequest, es: seq<Event>,
      r: Result<Provisioned, Error>)
    requires ProvisionAnswers(c, req, es, r)
    ensures forall v :: ProvisionedWell(c, req, es, v) <==> r == Ok(v)
  {
    hide Run, BundleOf, FirstKey, Candidates, Final, Classified;
  }

  lemma YieldAnswers(c: Context, es: seq<Event>)
    requires es != []
    ensures forall csr, bundle :: c.flow.Importing? && SignedWell(c, csr, es, bundle) ==> SignAnswers(c, csr, es, Ok(bundle))
    ensures forall req, v :: Acceptable(req) && ProvisionedWell(c, req, es, v) ==> ProvisionAnswers(c, req, es, Ok(v))
  {
    hide Run, BundleOf, Belongs, Acceptable, Classified;
  }

  // End to end: the key handed back is the one the issued certificate carries; above it,
  // ever the certificate of the one response that signed the one before; and the
  // certificate bears the common name and every alternative name that is not blank.
  lemma ProvisionedPairIsSound(c: Context, req: ProvisionRequest, es: seq<Event>, v: Provisioned)
    requires c.p.Valid() && ProvisionedWell(c, req, es, v)
    ensures v.csrID != ""
    ensures v.key.public == Some(v.bundle.leaf.key) && v.bundle.leaf.key.Comparable?
    ensures IsChain(c.p.pki, Run(c, es).certs, v.bundle.leaf, v.bundle.chain)
    ensures v.bundle.chain[0] == v.bundle.leaf && SignedUpwards(c.p.pki, v.bundle.chain)
    ensures EndsForGood(c.p.pki, Run(c, es).certs, v.bundle.chain)
    ensures forall cert :: cert in v.bundle.chain ==> c.p.pki.Parsed(cert)
    ensures v.bundle.chainPEM == EncodeAll(c.p.pki, v.bundle.chain)
    ensures c.p.text.EqualFold(req.commonName, v.bundle.leaf.names.commonName)
    ensures forall name :: name in req.altNames && TrimSpace(name) != "" ==>
      match c.p.text.parseIP(TrimSpace(name))
      case Some(ip) => ip in v.bundle.leaf.names.ipAddresses
      case None => c.p.text.ContainsFold(v.bundle.leaf.names.dnsNames, TrimSpace(name))
  {
    FetchedCertificatesAreDistinct(c, es);
    ChainIsSound(c.p.pki, Run(c, es).certs, v.bundle.leaf);
    BundleInPlainTerms(c.p.pki, Run(c, es).certs, v.key.public.value);
    AltNamesInPlainTerms(c.p.text, req, v.bundle.leaf.names);
    hide Run, FirstKey, Candidates, SignedUpwards, EndsForGood, IsChain, Climb, Others, LeafFor, ProvisionCovered, TrimSpace;
  }

  lemma AltNamesInPlainTerms(text: Text, req: ProvisionRequest, issued: Names)
    requires ProvisionCovered(text, req, issued)
    ensures text.EqualFold(req.commonName, issued.commonName)
    ensures forall name :: name in req.altNames && TrimSpace(name) != "" ==>
      match text.parseIP(TrimSpace(name))
      case Some(ip) => ip in issued.ipAddresses
      case None => text.ContainsFold(issued.dnsNames, TrimSpace(name))
  {
    forall name | name in req.altNames ensures AltNameCovered(text, name, issued) {
      var i :| 0 <= i < |req.altNames| && req.altNames[i] == name;
    }
    hide TrimSpace;
  }

  // The same for a finished import, for the key and names of the request.
  lemma SignedChainIsSound(c: Context, csr: CertificateRequest, es: seq<Event>, bundle: Bundle)
    requires c.p.Valid() && SignedWell(c, csr, es, bundle)
    ensures csr.key.Comparable? ==> bundle.leaf.key == csr.key
    ensures IsChain(c.p.pki, Run(c, es).certs, bundle.leaf, bundle.chain)
    ensures bundle.chain[0] == bundle.leaf && SignedUpwards(c.p.pki, bundle.chain)
    ensures EndsForGood(c.p.pki, Run(c, es).certs, bundle.chain)
    ensures bundle.chainPEM == EncodeAll(c.p.pki, bundle.chain)
    ensures csr.names.commonName != "" ==> c.p.text.EqualFold(csr.names.commonName, bundle.leaf.names.commonName)
    ensures forall n :: n in csr.names.dnsNames ==> c.p.text.ContainsFold(bundle.leaf.names.dnsNames, n)
    ensures forall ip :: ip in csr.names.ipAddresses ==> ip in bundle.leaf.names.ipAddresses
    ensures forall e :: e in csr.names.emails ==> c.p.text.ContainsFold(bundle.leaf.names.emails, e)
    ensures forall u :: u in csr.names.uris ==> u in bundle.leaf.names.uris
  {
    FetchedCertificatesAreDistinct(c, es);
    ChainIsSound(c.p.pki, Run(c, es).certs, bundle.leaf);
    BundleInPlainTerms(c.p.pki, Run(c, es).certs, csr.key);
    hide Run, SignedUpwards, EndsForGood, IsChain, Climb, Others, LeafFor;
  }

  // Success means the complete trace: the request stored and, where no id came back,
  // looked up; signed under one id; and fetched until the certificates came that the
  // bundle was built of.
  lemma SignedTraceIsComplete(c: Context, csr: CertificateRequest, es: seq<Event>, bundle: Bundle)
      returns (sign: nat, id: string)
    requires c.flow.Importing? && SignedWell(c, csr, es, bundle)
    ensures Ordered(c, es, sign, id) && |es| > sign + 1
    ensures forall i :: sign < i < |es| ==> Fetches(c, es, sign, es[i].call)
    ensures var certs := Got(c.p, es[|es| - 1].reply);
      certs.Ok? && BundleOf(c.p.pki, certs.value, csr.key) == Ok(bundle)
  {
    hide Fetches, BundleOf, Opening, Got, StoredCSR, SignedBy, RequestFor, Run;
    sign, id := AcceptedTracesAreOrdered(c, es);
    forall i | sign < i < |es| ensures Fetches(c, es, sign, es[i].call) {
      assert i < |es| - 1 || es[i] == es[|es| - 1];
    }
  }

  // The same for a request created by Key Manager Plus, whose last call exports the very
  // request that was signed, with the key handed back.
  lemma ProvisionedTraceIsComplete(c: Context, req: ProvisionRequest, es: seq<Event>, v: Provisioned)
      returns (sign: nat)
    requires c.flow == Provisioning(req) && ProvisionedWell(c, req, es, v)
    ensures Ordered(c, es, sign, v.csrID) && |es| > sign + 2
    ensures forall i :: sign < i < |es| - 1 ==>
      Fetches(c, es, sign, es[i].call) && es[i].call.serialNumber == v.serialNumber
    ensures es[|es| - 1].call == ExportCSR(v.csrID, ExportFileType(req))
    ensures var certs, data := Got(c.p, es[|es| - 2].reply), Raw(c.p, es[|es| - 1].reply);
      && certs.Ok? && BundleOf(c.p.pki, certs.value, v.bundle.leaf.key) == Ok(v.bundle)
      && data.Ok? && FirstKey(c.p.pki, Candidates(c.p.decode, data.value), req.password) == Some(v.key)
  {
    hide BundleOf, FirstKey, Candidates, StoredCSR, SignedBy;
    var id;
    sign, id := AcceptedTracesAreOrdered(c, es);
    assert Fetches(c, es, sign, es[|es| - 2].call);
  }

  lemma SignedChainIsParsed(c: Context, csr: CertificateRequest, es: seq<Event>, bundle: Bundle)
    requires c.p.Valid() && SignedWell(c, csr, es, bundle)
    ensures forall cert :: cert in bundle.chain ==> c.p.pki.Parsed(cert)
  {
    FetchedCertificatesAreDistinct(c, es);
    BundleInPlainTerms(c.p.pki, Run(c, es).certs, csr.key);
    hide Run, SignedUpwards, EndsForGood, Climb, Others, LeafFor, RequestCovered;
  }

  lemma LookedUpIdIsNotEmpty(p: Platform, commonName: string, reply: Reply)
    ensures LookedUp(p, commonName, reply) != Ok("")
  {
    if Decoded(p, reply).Ok? {
      var body := Decoded(p, reply).value;
      SelectedIdIsNotEmpty(p.text, body.doc, commonName, body.order);
    }
  }
}
