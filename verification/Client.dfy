// internal/kmp/client.go and create.go: one call to Key Manager Plus each, recorded with
// its reply, and what is read off the reply.
module Client {
  import opened Basics
  import opened Text
  import opened Documents
  import opened Response
  import opened Identifiers
  import opened Errors
  import opened Certificates
  import opened Extraction
  import opened Signing
  import opened Api

  // The libraries the client is built on.
  datatype Platform = Platform(text: Text, pki: Pki, decode: Decoder) {
    ghost predicate Valid() {
      text.Valid() && pki.Valid()
    }
  }

  // ---------- calls and replies ----------

  datatype Call =
    | ImportCSR
    | CreateCSR(request: ProvisionRequest)
    | LookupCSR(operation: string, commonName: string)
    | SignCSR(sign: SignRequest)
    | GetCertificate(commonName: string, serialNumber: string)
    | ExportCSR(csrID: string, fileType: string)

  // A reply never comes, breaks off, or arrives; the order in which its maps are ranged
  // over is part of it.
  datatype Reply =
    | Unreachable
    | BrokenOff(status: int)
    | Answer(status: int, body: string, order: Order)

  datatype Event = Event(call: Call, reply: Reply)

  // Everything Key Manager Plus and the clock may do: the reply to the n-th call and how
  // long it takes, how much too long the sleep after it lasts, and whether the context
  // ends instead.
  datatype Server = Server(
    replies: nat -> Reply, latency: nat -> nat, oversleep: nat -> nat, cancelled: nat -> bool)

  // The replies recorded are the server's.
  ghost predicate AnsweredBy(server: Server, trace: seq<Event>) {
    forall i :: 0 <= i < |trace| ==> trace[i].reply == server.replies(i)
  }

  // ---------- the outcome of a call ----------

  datatype Body = Body(doc: Json, order: Order)

  predicate Success(status: int) {
    200 <= status <= 299
  }

  // call: a non-2xx status, an undecodable body or a reported failure is an error.
  function Decoded(p: Platform, reply: Reply): Result<Body, Error> {
    match reply
    case Unreachable => Err(Api(0, false, Some(Plain(Foreign(0)))))
    case BrokenOff(status) => Err(Api(status, false, Some(Wrap(Plain(Foreign(0))))))
    case Answer(status, body, order) =>
      var doc := p.decode(body);
      if !Success(status) then Err(Api(status, PermanentStatus(status), None))
      else if doc.None? then Err(Api(status, true, Some(Message)))
      else if !Succeeded(p.text, KMP_WORDS, doc.value, order) then Err(Api(status, true, None))
      else Ok(Body(doc.value, order))
  }

  // callRaw: the body as it is, unless it is empty or a JSON document reporting failure.
  function Raw(p: Platform, reply: Reply): Result<string, Error> {
    match reply
    case Unreachable => Err(Api(0, false, Some(Plain(Foreign(0)))))
    case BrokenOff(status) => Err(Api(status, false, Some(Wrap(Plain(Foreign(0))))))
    case Answer(status, body, order) =>
      var doc := p.decode(body);
      if !Success(status) then Err(Api(status, PermanentStatus(status), None))
      else if doc.Some? && !Succeeded(p.text, KMP_WORDS, doc.value, order) then Err(Api(status, true, None))
      else if body == "" then Err(Api(status, false, Some(Message)))
      else Ok(body)
  }

  const SERIAL_NUMBER_KEYS: seq<string> := ["serialNumber", "serial_number", "serialNo", "serial"]
  const CERTIFICATE_ID_KEYS: seq<string> := ["Certificate_ID", "certificateId", "certificateID", "certId"]

  function Field(p: Platform, body: Body, keys: seq<string>): string {
    var r := FindString(p.text, body.doc, keys, body.order);
    if r.Some? then r.value else ""
  }

  datatype CSR = CSR(id: string, commonName: string)

  function Imported(p: Platform, reply: Reply): Result<CSR, Error> {
    match Decoded(p, reply)
    case Err(e) => Err(e)
    case Ok(body) => Ok(CSR(Field(p, body, CSR_ID_KEYS), Field(p, body, COMMON_NAME_KEYS)))
  }

  // A created request goes by the name asked for when the reply names none.
  function Created(p: Platform, commonName: string, reply: Reply): Result<CSR, Error> {
    match Imported(p, reply)
    case Err(e) => Err(e)
    case Ok(csr) => Ok(if csr.commonName == "" then csr.(commonName := commonName) else csr)
  }

  function LookedUp(p: Platform, commonName: string, reply: Reply): Result<string, Error> {
    match Decoded(p, reply)
    case Err(e) => Err(e)
    case Ok(body) =>
      match SelectCSRID(p.text, body.doc, commonName, body.order)
      case Some(id) => Ok(id)
      case None => Err(Api(0, false, Some(Message)))
  }

  datatype SignResult = SignResult(certificateID: string, commonName: string, serialNumber: string)

  function SignedBy(p: Platform, reply: Reply): Result<SignResult, Error> {
    match Decoded(p, reply)
    case Err(e) => Err(e)
    case Ok(body) =>
      var r := SignResult(
        Field(p, body, CERTIFICATE_ID_KEYS), Field(p, body, COMMON_NAME_KEYS), Field(p, body, SERIAL_NUMBER_KEYS));
      if r == SignResult("", "", "") then Err(Api(0, true, Some(Message))) else Ok(r)
  }

  function Got(p: Platform, reply: Reply): Result<seq<Cert>, Error> {
    match Decoded(p, reply)
    case Err(e) => Err(e)
    case Ok(body) => CertificatesIn(p, body)
  }

  function CertificatesIn(p: Platform, body: Body): Result<seq<Cert>, Error> {
    match Extracted(p.pki, AllStrings(body.doc))
    case None => Err(Api(0, true, Some(Message)))
    case Some(certs) => if certs == [] then Err(Api(0, false, Some(Message))) else Ok(certs)
  }

  // A request the client itself refuses to send.
  function RefusedLocally(): Error {
    Api(0, true, Some(Message))
  }

  // The error a call ends in, if any.
  function ErrorOf(p: Platform, e: Event): Option<Error> {
    match e.call
    case ImportCSR => Failure(Imported(p, e.reply))
    case CreateCSR(req) => Failure(Created(p, req.commonName, e.reply))
    case LookupCSR(_, commonName) => Failure(LookedUp(p, commonName, e.reply))
    case SignCSR(_) => Failure(SignedBy(p, e.reply))
    case GetCertificate(_, _) => Failure(Got(p, e.reply))
    case ExportCSR(_, _) => Failure(Raw(p, e.reply))
  }

  function Failure<T>(r: Result<T, Error>): Option<Error> {
    if r.Err? then Some(r.error) else None
  }

  // Nothing came back, or the server could not serve the request.
  predicate NotServed(reply: Reply) {
    match reply
    case Answer(status, _, _) => !Success(status) && (status < 400 || status >= 500 || status == 408 || status == 429)
    case _ => true
  }

  // A failure that may resolve itself: the request was not served, or was answered well
  // with nothing listed, published or exported yet.
  predicate Transient(p: Platform, e: Event) {
    || NotServed(e.reply)
    || match e.call
       case LookupCSR(_, commonName) =>
         Decoded(p, e.reply).Ok? && SelectCSRID(p.text, Decoded(p, e.reply).value.doc, commonName, e.reply.order).None?
       case GetCertificate(_, _) =>
         Decoded(p, e.reply).Ok? && Extracted(p.pki, AllStrings(Decoded(p, e.reply).value.doc)) == Some([])
       case ExportCSR(_, _) => e.reply.Answer? && Success(e.reply.status) && e.reply.body == ""
       case _ => false
  }

  // An API error whose cause is no permanent marker says itself whether it is permanent.
  predicate SpeaksForItself(err: Error) {
    err.Api? && (err.cause.Some? ==>
      err.cause.value == Plain(Foreign(0)) || err.cause.value == Wrap(Plain(Foreign(0))) || err.cause.value == Message)
  }

  lemma PermanenceOfApiErrors(err: Error)
    requires SpeaksForItself(err)
    ensures IsPermanent(err) == err.permanent
  {
    if err.cause.Some? {
      var cause := err.cause.value;
      assert !Is(cause, InvalidConfig) && !Is(cause, UnusableResponse);
    }
  }

  lemma UndecodedIsClassified(p: Platform, reply: Reply)
    ensures var r := Decoded(p, reply);
      r.Err? ==> SpeaksForItself(r.error) && (r.error.permanent <==> !NotServed(reply))
    ensures var r := Raw(p, reply);
      r.Err? ==> (SpeaksForItself(r.error)
        && (r.error.permanent <==> !(NotServed(reply) || (reply.Answer? && Success(reply.status) && reply.body == ""))))
    ensures NotServed(reply) ==> Decoded(p, reply).Err? && Raw(p, reply).Err?
    ensures reply.Answer? && Success(reply.status) && reply.body == "" ==> Raw(p, reply).Err?
    ensures Decoded(p, reply).Ok? ==> reply.Answer? && Decoded(p, reply).value.order == reply.order
  {}

  lemma CallErrorsSpeakForThemselves(p: Platform, e: Event)
    ensures var err := ErrorOf(p, e);
      err.Some? ==> SpeaksForItself(err.value) && (err.value.permanent <==> !Transient(p, e))
    ensures Transient(p, e) ==> ErrorOf(p, e).Some?
  {
    UndecodedIsClassified(p, e.reply);
    hide Decoded, Raw, SelectCSRID, Extracted, Field;
    match e.call
    case ImportCSR =>
    case CreateCSR(req) =>
    case LookupCSR(_, _) =>
    case SignCSR(_) =>
    case GetCertificate(_, _) =>
    case ExportCSR(_, _) =>
  }

  // Each call's error is permanent exactly when the failure is not a transient one.
  lemma CallErrorsAreClassified(p: Platform, e: Event)
    ensures ErrorOf(p, e).Some? ==> (IsPermanent(ErrorOf(p, e).value) <==> !Transient(p, e))
    ensures Transient(p, e) ==> ErrorOf(p, e).Some?
  {
    CallErrorsSpeakForThemselves(p, e);
    var err := ErrorOf(p, e);
    if err.Some? {
      PermanenceOfApiErrors(err.value);
    }
  }

  // ---------- replies in plain terms ----------

  // The document reports a failure: by a status that is none of the good words or, without
  // one, by a message with a word that hints at failure.
  ghost predicate ReportsFailure(text: Text, doc: Json, order: Order) {
    var status := FindString(text, doc, ["status", "Status", "STATUS", "result"], order);
    var message := FindString(text, doc,
      ["message", "Message", "MESSAGE", "reason", "error", "errormessage", "error_message"], order);
    if status.Some? then
      TrimSpace(text.ToLower(status.value)) !in ["success", "successful", "ok", "true", "200"]
    else
      message.Some? && (exists hint ::
        && hint in ["failed", "failure", "error", "invalid", "not found", "denied", "unable to"]
        && Contains(text.ToLower(message.value), hint))
  }

  lemma FailureIsReported(text: Text, doc: Json, order: Order)
    requires text.Valid()
    ensures Succeeded(text, KMP_WORDS, doc, order) <==> !ReportsFailure(text, doc, order)
  {
    SucceededJudges(text, KMP_WORDS, doc, order);
    hide FindString, Succeeded, TrimSpace;
  }

  // A reply is used exactly when it arrived, its status is 2xx, its body is JSON, and it
  // reports no failure; a file exactly when its status is 2xx, it is not empty, and it is
  // not JSON that reports one.
  lemma RepliesInPlainTerms(p: Platform, reply: Reply)
    requires p.Valid()
    ensures Decoded(p, reply).Ok? <==>
      && reply.Answer? && 200 <= reply.status <= 299 && p.decode(reply.body).Some?
      && !ReportsFailure(p.text, p.decode(reply.body).value, reply.order)
    ensures Decoded(p, reply).Ok? ==> Decoded(p, reply).value == Body(p.decode(reply.body).value, reply.order)
    ensures Raw(p, reply).Ok? <==>
      && reply.Answer? && 200 <= reply.status <= 299 && reply.body != ""
      && (p.decode(reply.body).Some? ==> !ReportsFailure(p.text, p.decode(reply.body).value, reply.order))
    ensures Raw(p, reply).Ok? ==> Raw(p, reply).value == reply.body
  {
    if reply.Answer? && p.decode(reply.body).Some? {
      FailureIsReported(p.text, p.decode(reply.body).value, reply.order);
    }
    hide Succeeded, ReportsFailure;
  }

  // When the error of a call is permanent: never without a reply; by the status, when it
  // is not 2xx; and else always, but for an id not listed yet, a certificate not there yet,
  // and an empty file.
  lemma ErrorsInPlainTerms(p: Platform, e: Event)
    requires p.Valid() && ErrorOf(p, e).Some?
    ensures IsPermanent(ErrorOf(p, e).value) <==>
      && e.reply.Answer?
      && if !(200 <= e.reply.status <= 299) then 400 <= e.reply.status <= 499 && e.reply.status != 408 && e.reply.status != 429
         else if e.call.ExportCSR? then e.reply.body != ""
         else
           || p.decode(e.reply.body).None? || ReportsFailure(p.text, p.decode(e.reply.body).value, e.reply.order)
           || (!e.call.LookupCSR? &&
               (e.call.GetCertificate? ==> Extracted(p.pki, AllStrings(p.decode(e.reply.body).value)).None?))
  {
    RepliesInPlainTerms(p, e.reply);
    CallErrorsAreClassified(p, e);
    UndecodedIsClassified(p, e.reply);
    CallErrorsSpeakForThemselves(p, e);
    hide Decoded, Raw, ReportsFailure, SelectCSRID, Extracted, Field, IsPermanent, SpeaksForItself;
  }

  // And whether there is one: what each call makes of a reply that is used.
  lemma OutcomesInPlainTerms(p: Platform, e: Event)
    requires p.Valid()
    ensures e.call.ExportCSR? ==> (ErrorOf(p, e).Some? <==> Raw(p, e.reply).Err?)
    ensures !e.call.ExportCSR? ==>
      (ErrorOf(p, e).Some? <==>
        || Decoded(p, e.reply).Err?
        || var doc, order := p.decode(e.reply.body).value, e.reply.order;
           match e.call
           case LookupCSR(_, name) => SelectCSRID(p.text, doc, name, order).None?
           case GetCertificate(_, _) =>
             Extracted(p.pki, AllStrings(doc)).None? || Extracted(p.pki, AllStrings(doc)) == Some([])
           case SignCSR(_) =>
             && FindString(p.text, doc, ["Certificate_ID", "certificateId", "certificateID", "certId"], order).None?
             && FindString(p.text, doc, ["commonName", "common_name", "CNAME", "cn", "subjectCommonName"], order).None?
             && FindString(p.text, doc, ["serialNumber", "serial_number", "serialNo", "serial"], order).None?
           case _ => false)
  {
    RepliesInPlainTerms(p, e.reply);
    if !e.call.ExportCSR? && Decoded(p, e.reply).Ok? {
      var doc, order := p.decode(e.reply.body).value, e.reply.order;
      FoundIsNotBlank(p.text, doc, CERTIFICATE_ID_KEYS, order);
      FoundIsNotBlank(p.text, doc, COMMON_NAME_KEYS, order);
      FoundIsNotBlank(p.text, doc, SERIAL_NUMBER_KEYS, order);
    }
    hide Decoded, Raw, ReportsFailure, SelectCSRID, Extracted, FindString;
  }

  // ---------- the client ----------

  class Client {
    const p: Platform
    const server: Server
    var trace: seq<Event>
    var clock: int

    constructor (p: Platform, server: Server, now: int)
      ensures this.p == p && this.server == server && trace == [] && clock == now
    {
      this.p, this.server := p, server;
      trace, clock := [], now;
    }

    // do: sends one request and waits for the reply.
    method Exchange(call: Call) returns (reply: Reply)
      modifies this
      ensures trace == old(trace) + [Event(call, reply)]
      ensures clock >= old(clock)
      ensures AnsweredBy(server, old(trace)) ==> AnsweredBy(server, trace)
    {
      var n := |trace|;
      reply := server.replies(n);
      trace := trace + [Event(call, reply)];
      clock := clock + server.latency(n);
    }

    // time.After: wakes at the earliest when asked to.
    method Sleep(duration: int, n: nat)
      requires duration > 0
      modifies this`clock
      ensures clock >= old(clock) + duration
    {
      clock := clock + duration + server.oversleep(n);
    }

    method Import() returns (r: Result<CSR, Error>, ghost reply: Reply)
      modifies this
      ensures trace == old(trace) + [Event(ImportCSR, reply)] && r == Imported(p, reply)
      ensures clock >= old(clock)
      ensures AnsweredBy(server, old(trace)) ==> AnsweredBy(server, trace)
    {
      var answer := Exchange(ImportCSR);
      reply := answer;
      r := Imported(p, answer);
    }

    method Create(req: ProvisionRequest) returns (r: Result<CSR, Error>, ghost reply: Reply)
      modifies this
      ensures if TrimSpace(req.commonName) == "" then trace == old(trace) && r == Err(RefusedLocally())
        else trace == old(trace) + [Event(CreateCSR(req), reply)] && r == Created(p, req.commonName, reply)
      ensures clock >= old(clock)
      ensures AnsweredBy(server, old(trace)) ==> AnsweredBy(server, trace)
    {
      reply := Unreachable;
      if TrimSpace(req.commonName) == "" {
        return Err(RefusedLocally()), reply;
      }
      var answer := Exchange(CreateCSR(req));
      reply := answer;
      r := Created(p, req.commonName, answer);
    }

    method FindCSRID(operation: string, commonName: string) returns (r: Result<string, Error>, ghost reply: Reply)
      modifies this
      ensures if operation == "" || commonName == "" then trace == old(trace) && r == Err(RefusedLocally())
        else trace == old(trace) + [Event(LookupCSR(operation, commonName), reply)] && r == LookedUp(p, commonName, reply)
      ensures clock >= old(clock)
      ensures AnsweredBy(server, old(trace)) ==> AnsweredBy(server, trace)
    {
      reply := Unreachable;
      if operation == "" || commonName == "" {
        return Err(RefusedLocally()), reply;
      }
      var answer := Exchange(LookupCSR(operation, commonName));
      reply := answer;
      var body := Decoded(p, answer);
      if body.Err? {
        return Err(body.error), reply;
      }
      var selected := Select(body.value, commonName);
      r := if selected.Some? then Ok(selected.value) else Err(Api(0, false, Some(Message)));
    }

    // The choice among the ids of a response.
    method Select(body: Body, commonName: string) returns (r: Option<string>)
      ensures r == SelectCSRID(p.text, body.doc, commonName, body.order)
    {
      var id, ok := FindIDForCommonName(p.text, body.doc, commonName, CSR_ID_KEYS, COMMON_NAME_KEYS, body.order);
      if ok {
        return Some(id);
      }
      var ids := new Collector();
      ids.WalkFor(p.text, body.doc, WantedKeys(p.text, CSR_ID_KEYS));
      if |ids.out| == 1 {
        var names := new Collector();
        names.WalkFor(p.text, body.doc, WantedKeys(p.text, COMMON_NAME_KEYS));
        if |names.out| == 0 {
          return Some(ids.out[0]);
        }
      }
      return None;
    }

    method Sign(req: SignRequest) returns (r: Result<SignResult, Error>, ghost reply: Reply)
      modifies this
      ensures if req.csrID == "" then trace == old(trace) && r == Err(RefusedLocally())
        else trace == old(trace) + [Event(SignCSR(req), reply)] && r == SignedBy(p, reply)
      ensures clock >= old(clock)
      ensures AnsweredBy(server, old(trace)) ==> AnsweredBy(server, trace)
    {
      reply := Unreachable;
      if req.csrID == "" {
        return Err(RefusedLocally()), reply;
      }
      var answer := Exchange(SignCSR(req));
      reply := answer;
      r := SignedBy(p, answer);
    }

    method Get(commonName: string, serialNumber: string) returns (r: Result<seq<Cert>, Error>, ghost reply: Reply)
      requires p.pki.Valid()
      modifies this
      ensures if commonName == "" && serialNumber == "" then trace == old(trace) && r == Err(RefusedLocally())
        else trace == old(trace) + [Event(GetCertificate(commonName, serialNumber), reply)] && r == Got(p, reply)
      ensures clock >= old(clock)
      ensures AnsweredBy(server, old(trace)) ==> AnsweredBy(server, trace)
    {
      reply := Unreachable;
      if commonName == "" && serialNumber == "" {
        return Err(RefusedLocally()), reply;
      }
      var answer := Exchange(GetCertificate(commonName, serialNumber));
      reply := answer;
      var body := Decoded(p, answer);
      if body.Err? {
        return Err(body.error), reply;
      }
      r := Collect(body.value);
    }

    // Every certificate anywhere in a response.
    method Collect(body: Body) returns (r: Result<seq<Cert>, Error>)
      requires p.pki.Valid()
      ensures r == CertificatesIn(p, body)
    {
      var strings := new Collector();
      strings.WalkStrings(body.doc);
      assert strings.out == AllStrings(body.doc);
      var certs := CertificatesFromStrings(p.pki, strings.out);
      if certs.None? {
        return Err(Api(0, true, Some(Message)));
      }
      if |certs.value| == 0 {
        return Err(Api(0, false, Some(Message)));
      }
      return Ok(certs.value);
    }

    method Export(csrID: string, fileType: string) returns (r: Result<string, Error>, ghost reply: Reply)
      modifies this
      ensures if csrID == "" then trace == old(trace) && r == Err(RefusedLocally())
        else
          && trace == old(trace) + [Event(ExportCSR(csrID, if fileType == "" then "PrivateKey" else fileType), reply)]
          && r == Raw(p, reply)
      ensures clock >= old(clock)
      ensures AnsweredBy(server, old(trace)) ==> AnsweredBy(server, trace)
    {
      reply := Unreachable;
      if csrID == "" {
        return Err(RefusedLocally()), reply;
      }
      var answer := Exchange(ExportCSR(csrID, if fileType == "" then "PrivateKey" else fileType));
      reply := answer;
      r := Raw(p, answer);
    }
  }
}
