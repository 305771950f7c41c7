// The order in which Key Manager Plus is called: what one Sign or Provision may do, as a
// state machine over the recorded calls and replies (internal/kmp/signer.go:164-240,
// internal/kmp/provision.go:85-163).
module Protocol {
  import opened Basics
  import opened Text
  import opened Documents
  import opened Identifiers
  import opened Errors
  import opened Certificates
  import opened Signing
  import opened Api
  import opened Client

  // The two flows: a request imported from the caller, or one Key Manager Plus creates
  // together with its key.
  datatype Flow =
    | Importing(subjectName: string, lookupName: string, hints: Hints)
    | Provisioning(request: ProvisionRequest)

  datatype Context = Context(p: Platform, opts: SigningOptions, flow: Flow)

  datatype Phase =
    | Idle
    | Stored(csr: CSR)                                        // no id reported yet
    | Identified(csr: CSR, id: string)
    | Signed(id: string, commonName: string, serialNumber: string)
    | Fetched(id: string, serialNumber: string, certs: seq<Cert>)
    | Exported(id: string, serialNumber: string, certs: seq<Cert>, data: string)
    | Stopped                                                 // a call failed for good
    | Broken                                                  // a call that must not be made

  function LookupName(flow: Flow, csr: CSR): string {
    if csr.commonName != "" then csr.commonName
    else match flow
      case Importing(_, lookupName, _) => lookupName
      case Provisioning(req) => req.commonName
  }

  // The name the certificate is fetched by.
  function FetchName(flow: Flow, csr: CSR, result: SignResult): string {
    if result.commonName != "" then result.commonName
    else match flow
      case Importing(subjectName, _, _) => if csr.commonName != "" then csr.commonName else subjectName
      case Provisioning(req) => req.commonName
  }

  function SignHints(flow: Flow): Hints {
    match flow
    case Importing(_, _, hints) => hints
    case Provisioning(_) => Hints(0, false)
  }

  function AfterStore(r: Result<CSR, Error>): Phase {
    match r
    case Err(_) => Stopped
    case Ok(csr) => if csr.id != "" then Identified(csr, csr.id) else Stored(csr)
  }

  function ExportFileType(req: ProvisionRequest): string {
    if req.exportFileType == "" then "PrivateKey" else req.exportFileType
  }

  // The one call each phase allows, and where its reply leads.
  function Advance(c: Context, phase: Phase, e: Event): Phase {
    match phase
    case Idle =>
      (match c.flow
       case Importing(_, _, _) => if e.call == ImportCSR then AfterStore(Imported(c.p, e.reply)) else Broken
       case Provisioning(req) => if e.call == CreateCSR(req) then AfterStore(Created(c.p, req.commonName, e.reply)) else Broken)
    case Stored(csr) =>
      var operation, name := c.opts.csrLookupOperation, LookupName(c.flow, csr);
      if operation == "" || name == "" || e.call != LookupCSR(operation, name) then Broken
      else (match LookedUp(c.p, name, e.reply)
        case Ok(id) => Identified(csr, id)
        case Err(_) => Stopped)
    case Identified(csr, id) =>
      if id == "" || e.call != SignCSR(RequestFor(c.opts, id, SignHints(c.flow))) then Broken
      else (match SignedBy(c.p, e.reply)
        case Ok(result) => Signed(id, FetchName(c.flow, csr, result), result.serialNumber)
        case Err(_) => Stopped)
    case Signed(id, commonName, serialNumber) =>
      if (commonName == "" && serialNumber == "") || e.call != GetCertificate(commonName, serialNumber) then Broken
      else (match Got(c.p, e.reply)
        case Ok(certs) => Fetched(id, serialNumber, certs)
        case Err(err) => if IsPermanent(err) then Stopped else phase)
    case Fetched(id, serialNumber, certs) =>
      if !c.flow.Provisioning? || e.call != ExportCSR(id, ExportFileType(c.flow.request)) then Broken
      else (match Raw(c.p, e.reply)
        case Ok(data) => Exported(id, serialNumber, certs, data)
        case Err(_) => Stopped)
    case _ => Broken
  }

  function Run(c: Context, es: seq<Event>): Phase {
    if es == [] then Idle else Advance(c, Run(c, es[..|es| - 1]), es[|es| - 1])
  }

  lemma RunSnoc(c: Context, es: seq<Event>, e: Event)
    ensures Run(c, es + [e]) == Advance(c, Run(c, es), e)
  {
    assert (es + [e])[..|es|] == es;
  }

  // ---------- the shape of a trace ----------

  predicate Stores(c: Context, call: Call) {
    match c.flow
    case Importing(_, _, _) => call == ImportCSR
    case Provisioning(req) => call == CreateCSR(req)
  }

  // The one certificate every getCertificate of the trace asks for: by the name and
  // serial number the reply to signCSR leads to, which are not both empty.
  ghost predicate Fetches(c: Context, es: seq<Event>, sign: nat, call: Call)
    requires |es| > sign > 0
  {
    var stored, signed := StoredCSR(c, es[0].reply), SignedBy(c.p, es[sign].reply);
    && stored.Ok? && signed.Ok?
    && call == GetCertificate(FetchName(c.flow, stored.value, signed.value), signed.value.serialNumber)
    && (call.commonName != "" || call.serialNumber != "")
  }

  // What the reply to the storing call reported.
  function StoredCSR(c: Context, reply: Reply): Result<CSR, Error> {
    match c.flow
    case Importing(_, _, _) => Imported(c.p, reply)
    case Provisioning(req) => Created(c.p, req.commonName, reply)
  }

  // The request's id came with the storing reply, and signCSR is the second call, or it
  // did not, and one lookup found it.
  ghost predicate Resolved(c: Context, es: seq<Event>, sign: nat, id: string)
    requires |es| > 1
  {
    var stored := StoredCSR(c, es[0].reply);
    stored.Ok? &&
    if stored.value.id != "" then sign == 1 && id == stored.value.id
    else
      var name := LookupName(c.flow, stored.value);
      && sign == 2
      && c.opts.csrLookupOperation != "" && name != ""
      && es[1].call == LookupCSR(c.opts.csrLookupOperation, name)
      && (|es| > 2 ==> LookedUp(c.p, name, es[1].reply) == Ok(id))
  }

  // The calls are: storing the request; a lookup only when no id was reported; one
  // signCSR; then getCertificate over and over, always for the certificate just signed;
  // and, when Key Manager Plus holds the key, at most one exportCSR, last, of the request
  // that was signed.
  ghost predicate Ordered(c: Context, es: seq<Event>, sign: nat, id: string) {
    1 <= sign <= 2 && Opening(c, es, sign, id) && Closing(c, es, sign, id)
  }

  ghost predicate Opening(c: Context, es: seq<Event>, sign: nat, id: string) {
    && (|es| > 0 ==> Stores(c, es[0].call))
    && (|es| > 1 ==> Resolved(c, es, sign, id))
    && (|es| > sign ==> id != "" && es[sign].call == SignCSR(RequestFor(c.opts, id, SignHints(c.flow))))
  }

  ghost predicate Closing(c: Context, es: seq<Event>, sign: nat, id: string)
    requires sign > 0
  {
    && (forall i :: sign < i < |es| - 1 ==> Fetches(c, es, sign, es[i].call))
    && (|es| > sign + 1 ==>
         var last := es[|es| - 1].call;
         || Fetches(c, es, sign, last)
         || (c.flow.Provisioning? && |es| > sign + 2 && last == ExportCSR(id, ExportFileType(c.flow.request))))
  }

  // How far the trace of a phase has got.
  ghost predicate Reached(c: Context, es: seq<Event>, sign: nat, id: string, phase: Phase)
    requires 1 <= sign <= 2
  {
    match phase
    case Idle => |es| == 0
    case Stored(csr) => |es| == 1 && StoredCSR(c, es[0].reply) == Ok(csr) && csr.id == ""
    case Identified(csr, i) =>
      && |es| == sign && i == id && StoredCSR(c, es[0].reply) == Ok(csr)
      && (if sign == 1 then csr.id == id else
           csr.id == "" && Resolved(c, es, sign, id) && LookedUp(c.p, LookupName(c.flow, csr), es[1].reply) == Ok(id))
    case Signed(i, commonName, serialNumber) =>
      |es| > sign && i == id && !es[|es| - 1].call.ExportCSR? && FetchesBy(c, es, sign, commonName, serialNumber)
    case Fetched(i, serialNumber, certs) =>
      && |es| > sign + 1 && i == id && !es[|es| - 1].call.ExportCSR?
      && Fetches(c, es, sign, es[|es| - 1].call) && es[|es| - 1].call.serialNumber == serialNumber
      && Got(c.p, es[|es| - 1].reply) == Ok(certs)
    case Exported(i, serialNumber, certs, data) =>
      && |es| > sign + 2 && i == id && es[|es| - 1].call.ExportCSR? && Raw(c.p, es[|es| - 1].reply) == Ok(data)
      && Fetches(c, es, sign, es[|es| - 2].call) && es[|es| - 2].call.serialNumber == serialNumber
      && Got(c.p, es[|es| - 2].reply) == Ok(certs)
    case _ => true
  }

  // What the trace so far says the certificate is to be fetched by.
  ghost predicate FetchesBy(c: Context, es: seq<Event>, sign: nat, commonName: string, serialNumber: string)
    requires |es| > sign > 0
  {
    var stored, signed := StoredCSR(c, es[0].reply), SignedBy(c.p, es[sign].reply);
    && stored.Ok? && signed.Ok?
    && FetchName(c.flow, stored.value, signed.value) == commonName && signed.value.serialNumber == serialNumber
  }

  lemma StoringIsOrdered(c: Context, e: Event) returns (id: string)
    requires Advance(c, Idle, e) != Broken
    ensures Ordered(c, [e], 1, id) && Reached(c, [e], 1, id, Advance(c, Idle, e))
  {
    var next := Advance(c, Idle, e);
    id := if next.Identified? then next.id else "";
  }

  lemma LookupIsOrdered(c: Context, es: seq<Event>, e: Event, phase: Phase) returns (id: string)
    requires phase.Stored? && Advance(c, phase, e) != Broken
    requires |es| == 1 && Stores(c, es[0].call) && StoredCSR(c, es[0].reply) == Ok(phase.csr) && phase.csr.id == ""
    ensures Ordered(c, es + [e], 2, id) && Reached(c, es + [e], 2, id, Advance(c, phase, e))
  {
    var next := Advance(c, phase, e);
    id := if next.Identified? then next.id else "";
    var all := es + [e];
    assert all[0] == es[0] && all[1] == e;
  }

  lemma SigningIsOrdered(c: Context, es: seq<Event>, e: Event, sign: nat, id: string, phase: Phase)
    requires phase.Identified? && Advance(c, phase, e) != Broken
    requires Ordered(c, es, sign, id) && Reached(c, es, sign, id, phase)
    ensures Ordered(c, es + [e], sign, id) && Reached(c, es + [e], sign, id, Advance(c, phase, e))
  {
    hide StoredCSR, LookedUp, SignedBy, FetchName;
    var all := es + [e];
    assert all[0] == es[0] && (sign == 2 ==> all[1] == es[1]) && all[sign] == e;
  }

  lemma OpeningStays(c: Context, es: seq<Event>, e: Event, sign: nat, id: string)
    requires 1 <= sign <= 2 && Opening(c, es, sign, id) && |es| > sign
    ensures Opening(c, es + [e], sign, id)
  {
    var all := es + [e];
    assert all[0] == es[0] && all[1] == es[1] && all[sign] == es[sign];
  }

  lemma FetchesStays(c: Context, es: seq<Event>, e: Event, sign: nat, call: Call)
    requires |es| > sign > 0
    ensures Fetches(c, es + [e], sign, call) <==> Fetches(c, es, sign, call)
  {
    assert (es + [e])[0] == es[0] && (es + [e])[sign] == es[sign];
  }

  // The next call fetches the same certificate, or exports once it was fetched.
  ghost predicate Follows(c: Context, es: seq<Event>, sign: nat, id: string, call: Call)
    requires |es| > sign > 0
  {
    || Fetches(c, es, sign, call)
    || (c.flow.Provisioning? && |es| > sign + 1 && call == ExportCSR(id, ExportFileType(c.flow.request)))
  }

  lemma ClosingExtends(c: Context, es: seq<Event>, e: Event, sign: nat, id: string)
    requires |es| > sign > 0 && Closing(c, es, sign, id) && !es[|es| - 1].call.ExportCSR?
    requires Follows(c, es, sign, id, e.call)
    ensures Closing(c, es + [e], sign, id)
  {
    hide Fetches;
    var all := es + [e];
    assert all[|all| - 1] == e;
    FetchesStays(c, es, e, sign, e.call);
    forall i | sign < i < |all| - 1 ensures Fetches(c, all, sign, all[i].call) {
      assert all[i] == es[i];
      FetchesStays(c, es, e, sign, es[i].call);
    }
  }

  lemma OneMoreCallIsOrdered(c: Context, es: seq<Event>, e: Event, sign: nat, id: string)
    requires Ordered(c, es, sign, id) && |es| > sign && !es[|es| - 1].call.ExportCSR?
    requires Follows(c, es, sign, id, e.call)
    ensures Ordered(c, es + [e], sign, id)
  {
    hide Opening, Closing, Follows;
    OpeningStays(c, es, e, sign, id);
    ClosingExtends(c, es, e, sign, id);
  }

  lemma PollingIsOrdered(c: Context, es: seq<Event>, e: Event, sign: nat, id: string, phase: Phase)
    requires phase.Signed? && Advance(c, phase, e) != Broken
    requires Ordered(c, es, sign, id) && Reached(c, es, sign, id, phase)
    ensures Ordered(c, es + [e], sign, id) && Reached(c, es + [e], sign, id, Advance(c, phase, e))
  {
    hide Opening, Closing, StoredCSR, SignedBy, FetchName, Got;
    assert Fetches(c, es, sign, e.call);
    OneMoreCallIsOrdered(c, es, e, sign, id);
    FetchesStays(c, es, e, sign, e.call);
    var all := es + [e];
    assert all[|es|] == e && all[0] == es[0] && all[sign] == es[sign];
  }

  lemma ExportingIsOrdered(c: Context, es: seq<Event>, e: Event, sign: nat, id: string, phase: Phase)
    requires phase.Fetched? && Advance(c, phase, e) != Broken
    requires Ordered(c, es, sign, id) && Reached(c, es, sign, id, phase)
    ensures Ordered(c, es + [e], sign, id) && Reached(c, es + [e], sign, id, Advance(c, phase, e))
  {
    hide Opening, Closing, Fetches, Got, Raw;
    OneMoreCallIsOrdered(c, es, e, sign, id);
    var all := es + [e];
    assert all[|es|] == e && all[|es| - 1] == es[|es| - 1];
    FetchesStays(c, es, e, sign, es[|es| - 1].call);
  }

  // Every trace the machine accepts has that shape, whatever Key Manager Plus answered.
  lemma {:induction false} AcceptedTracesAreOrdered(c: Context, es: seq<Event>) returns (sign: nat, id: string)
    requires Run(c, es) != Broken
    ensures Ordered(c, es, sign, id) && Reached(c, es, sign, id, Run(c, es))
    decreases |es|
  {
    if es == [] {
      return 1, "";
    }
    var before, e := es[..|es| - 1], es[|es| - 1];
    var phase := Run(c, before);
    assert es == before + [e];
    sign, id := AcceptedTracesAreOrdered(c, before);
    if phase.Idle? {
      id := StoringIsOrdered(c, e);
      sign := 1;
    } else if phase.Stored? {
      id := LookupIsOrdered(c, before, e, phase);
      sign := 2;
    } else if phase.Identified? {
      SigningIsOrdered(c, before, e, sign, id, phase);
    } else if phase.Signed? {
      PollingIsOrdered(c, before, e, sign, id, phase);
    } else {
      ExportingIsOrdered(c, before, e, sign, id, phase);
    }
  }
}
