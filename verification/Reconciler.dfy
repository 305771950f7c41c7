// internal/controllers/kmpcertificate_controller.go: one pass over a KMPCertificate.
module Reconciler {
  import opened Basics
  import opened Text
  import opened Errors
  import opened Certificates
  import opened Chain
  import opened Signing
  import opened Api
  import opened NameChecks
  import opened Renewal
  import opened Conditions
  import opened Client
  import opened Protocol
  import Signer

  type SecretData = map<string, string>

  const TLS_CERT := "tls.crt"
  const TLS_KEY := "tls.key"
  const CA_CERT := "ca.crt"
  const KEYSTORE_PASSWORD := "keystore-password"

  datatype Status = Status(
    conditions: seq<Condition>, serialNumber: string, csrID: string,
    notBefore: Option<int>, notAfter: Option<int>, renewalTime: Option<int>)

  // What the controller last wrote to the Secret and for which request; kept for the
  // proofs, the program has no such record.
  datatype Issue = Issue(
    provisioned: Signer.Provisioned, request: ProvisionRequest, generated: bool,
    chainPEM: string, caPEM: string, renewBefore: Option<int>)

  // The API server's copy of the resource and its Secret.
  datatype Cluster = Cluster(
    spec: Spec, generation: int, secret: Option<SecretData>, status: Status, issued: Option<Issue>)

  datatype Presence = Present | Deleting | Gone | Unavailable

  // Everything around one pass that may turn out either way, and its clock readings. The
  // text of an error, as it appears in a condition, is arbitrary.
  datatype Env = Env(
    resource: Presence, secretReadable: bool, issuerReadable: bool, authReadable: bool,
    passwordSecret: Option<SecretData>, randomPassword: Option<string>, builderFailure: Option<Error>,
    writable: bool, updatable: bool, failureText: string,
    checkedAt: int, stampedAt: int, scheduledAt: int)

  // ---------- issuanceNeeded ----------

  datatype Need = Needed | Current(renewAt: int)

  function IssuanceNeeded(p: Platform, c: Cluster, readable: bool, now: int): Need {
    if !readable || c.secret.None? then Needed
    else
      var data := c.secret.value;
      if Entry(data, TLS_CERT) == "" || Entry(data, TLS_KEY) == "" then Needed
      else
        var leaf := p.pki.leafOf(data[TLS_CERT]);
        if leaf.None? then Needed
        else if MatchesSpec(p.text, leaf.value.names, c.spec).Some? then Needed
        else
          var renewAt := LeafRenewal(leaf.value, c.spec.renewBefore);
          if now < renewAt then Current(renewAt) else Needed
  }

  function Entry(data: SecretData, key: string): string {
    if key in data then data[key] else ""
  }

  function LeafRenewal(leaf: Cert, renewBefore: Option<int>): int {
    RenewalTime(leaf.notBefore, leaf.notAfter, renewBefore)
  }

  // ---------- issue ----------

  const ISSUER_UNREADABLE: Error := Wrap(Plain(Foreign(1)))
  const WRITE_FAILED: Error := Wrap(Plain(Foreign(2)))
  const UPDATE_FAILED: Error := Wrap(Plain(Foreign(3)))

  function ResolveIssuer(spec: Spec, env: Env): Option<Error> {
    if spec.issuerKind !in {"", "KMPIssuer", "KMPClusterIssuer"} then Some(Wrap(Plain(InvalidConfig)))
    else if !env.issuerReadable then Some(ISSUER_UNREADABLE)
    else None
  }

  // The password protecting the key, and whether it was generated.
  function KeyStorePassword(spec: Spec, env: Env): Result<(string, bool), Error> {
    match spec.passwordRef
    case None =>
      if env.randomPassword.None? then Err(Wrap(Plain(Foreign(4)))) else Ok((env.randomPassword.value, true))
    case Some(ref) =>
      if env.passwordSecret.None? then Err(Wrap(Plain(Foreign(5))))
      else
        var key := if ref.key == "" then "password" else ref.key;
        var password := TrimSpace(Entry(env.passwordSecret.value, key));
        if password == "" then Err(Wrap(Plain(InvalidConfig))) else Ok((password, false))
  }

  // What %v leaves of the reason a provisioner could not be built.
  function BuilderError(cause: Error): Error {
    Wrap(Plain(SignerBuilder))
  }

  // Everything before Key Manager Plus is called: the request and whether its password
  // was generated.
  function Prepare(spec: Spec, env: Env): Result<(ProvisionRequest, bool), Error> {
    var issuer := ResolveIssuer(spec, env);
    if issuer.Some? then Err(issuer.value)
    else if !env.authReadable then Err(Wrap(Plain(GetAuthSecret)))
    else
      match KeyStorePassword(spec, env)
      case Err(e) => Err(e)
      case Ok((password, generated)) =>
        if env.builderFailure.Some? then Err(BuilderError(env.builderFailure.value))
        else Ok((RequestOf(spec, password), generated))
  }

  function WithEntry(data: SecretData, key: string, value: string, when: bool): SecretData {
    if when then data[key := value] else data
  }

  // The Secret after writeSecret.
  function Written(was: Option<SecretData>, issue: Issue): SecretData {
    var data := (if was.Some? then was.value else map[])
      [TLS_CERT := issue.chainPEM][TLS_KEY := issue.provisioned.keyPEM];
    WithEntry(
      WithEntry(data, CA_CERT, issue.caPEM, issue.caPEM != ""),
      KEYSTORE_PASSWORD, issue.request.password, issue.generated)
  }

  // Everything after: splitting the chain and writing the Secret.
  function Finish(p: Platform, c: Cluster, env: Env, request: ProvisionRequest, generated: bool,
      v: Signer.Provisioned): Result<Issue, Error> {
    var parts := p.pki.splitChain(v.bundle.chainPEM);
    if parts.None? then Err(Wrap(Plain(UnusableResponse)))
    else if !env.writable then Err(WRITE_FAILED)
    else Ok(Issue(v, request, generated, parts.value.0, parts.value.1, c.spec.renewBefore))
  }

  // issue, given what Provision answered if it was called.
  function IssueOutcome(p: Platform, c: Cluster, env: Env, outcome: Result<Signer.Provisioned,
      Error>): Result<Issue, Error> {
    match Prepare(c.spec, env)
    case Err(e) => Err(e)
    case Ok((request, generated)) =>
      match outcome
      case Err(e) => Err(e)
      case Ok(v) => Finish(p, c, env, request, generated, v)
  }

  // ---------- a pass ----------

  datatype Write = SecretWrite | StatusWrite

  // What a pass leaves behind, when it wants to be called again, and what it wrote.
  datatype Pass = Pass(cluster: Cluster, requeue: Option<int>, error: Option<Error>, writes: seq<Write>)

  function Ready(generation: int, status: bool, reason: string, message: string): Report {
    Report("Ready", status, reason, message, generation)
  }

  const HOLDS_CURRENT := "The Secret holds a current certificate"
  const JUST_ISSUED := "Key Manager Plus issued the certificate"

  function WithReady(s: Status, r: Report, now: int): Status {
    s.(conditions := SetCondition(s.conditions, r, now))
  }

  function StatusAfter(s: Status, issue: Issue): Status {
    var leaf := issue.provisioned.bundle.leaf;
    s.(serialNumber := issue.provisioned.serialNumber, csrID := issue.provisioned.csrID,
       notBefore := Some(leaf.notBefore), notAfter := Some(leaf.notAfter),
       renewalTime := Some(LeafRenewal(leaf, issue.renewBefore)))
  }

  // The deferred update: the status is written only when it changed, and a failed write
  // replaces the result.
  function Conclude(c: Cluster, status: Status, env: Env, requeue: Option<int>, error: Option<Error>,
      writes: seq<Write>): Pass {
    if status == c.status then Pass(c, requeue, error, writes)
    else if !env.updatable then Pass(c, None, Some(UPDATE_FAILED), writes)
    else Pass(c.(status := status), requeue, error, writes + [StatusWrite])
  }

  function Step(p: Platform, c: Cluster, env: Env, outcome: Result<Signer.Provisioned, Error>): Pass {
    match env.resource
    case Gone => Pass(c, None, None, [])
    case Unavailable => Pass(c, None, Some(Plain(Foreign(0))), [])
    case Deleting => Pass(c, None, None, [])
    case Present =>
      match IssuanceNeeded(p, c, env.secretReadable, env.checkedAt)
      case Current(renewAt) =>
        var status := WithReady(c.status, Ready(c.generation, true, "Issued", HOLDS_CURRENT), env.stampedAt);
        Conclude(c, status, env, Some(Until(Some(renewAt), env.scheduledAt)), None, [])
      case Needed =>
        match IssueOutcome(p, c, env, outcome)
        case Err(e) =>
          var status := WithReady(c.status, Ready(c.generation, false, "Failed", env.failureText), env.stampedAt);
          if IsPermanent(e) then Conclude(c, status, env, None, None, [])
          else Conclude(c, status, env, Some(RETRY_AFTER), Some(e), [])
        case Ok(issue) =>
          var written := c.(secret := Some(Written(c.secret, issue)), issued := Some(issue));
          var status := WithReady(StatusAfter(c.status, issue), Ready(c.generation, true, "Issued", JUST_ISSUED), env.stampedAt);
          Conclude(written, status, env, Some(Until(status.renewalTime, env.scheduledAt)), None, [SecretWrite])
  }

  // ---------- what Provision may answer ----------

  // The outcome of one run of the protocol for the request.
  ghost predicate Answers(p: Platform, request: ProvisionRequest, c: Context, es: seq<Event>,
      outcome: Result<Signer.Provisioned, Error>) {
    c.p == p && c.flow == Provisioning(request) && Signer.ProvisionAnswers(c, request, es, outcome)
  }

  // It is that of some run for this very request.
  ghost predicate Honest(p: Platform, request: ProvisionRequest, outcome: Result<Signer.Provisioned, Error>) {
    exists c: Context, es :: Answers(p, request, c, es, outcome)
  }

  ghost predicate PreparedHonestly(p: Platform, spec: Spec, env: Env, outcome: Result<Signer.Provisioned, Error>) {
    Prepare(spec, env).Ok? ==> Honest(p, Prepare(spec, env).value.0, outcome)
  }

  // A pass calls Provision only when it finds issuing needed.
  ghost predicate HonestFor(p: Platform, c: Cluster, env: Env, outcome: Result<Signer.Provisioned, Error>) {
    env.resource == Present && IssuanceNeeded(p, c, env.secretReadable, env.checkedAt).Needed? ==>
      PreparedHonestly(p, c.spec, env, outcome)
  }

  // The calls of a pass: those of one Provision with the issuer's options when issuing is
  // needed and everything is there to ask for it, and otherwise none.
  ghost predicate PassCalls(p: Platform, c: Cluster, env: Env, opts: SigningOptions, es: seq<Event>,
      outcome: Result<Signer.Provisioned, Error>) {
    if env.resource == Present && IssuanceNeeded(p, c, env.secretReadable, env.checkedAt).Needed? then
      IssueCalls(p, c.spec, env, opts, es, outcome)
    else es == []
  }

  ghost predicate IssueCalls(p: Platform, spec: Spec, env: Env, opts: SigningOptions, es: seq<Event>,
      outcome: Result<Signer.Provisioned, Error>) {
    match Prepare(spec, env)
    case Err(_) => es == []
    case Ok((request, _)) => Answers(p, request, Context(p, opts, Provisioning(request)), es, outcome)
  }

  lemma IssueCallsAreHonest(p: Platform, spec: Spec, env: Env, opts: SigningOptions, es: seq<Event>,
      outcome: Result<Signer.Provisioned, Error>)
    requires IssueCalls(p, spec, env, opts, es, outcome)
    ensures PreparedHonestly(p, spec, env, outcome)
  {
    hide Prepare, Answers;
  }

  // The status says what there is to say about the certificate, field by field.
  predicate Tells(s: Status, v: Signer.Provisioned, renewBefore: Option<int>) {
    var leaf := v.bundle.leaf;
    && s.serialNumber == v.serialNumber && s.csrID == v.csrID
    && s.notBefore == Some(leaf.notBefore) && s.notAfter == Some(leaf.notAfter)
    && s.renewalTime == Some(RenewalTime(leaf.notBefore, leaf.notAfter, renewBefore))
  }

  // ---------- the controller ----------

  // The resource and its Secret as the API server holds them; a pass works on a copy of
  // the resource and writes back.
  class Controller {
    const p: Platform
    var spec: Spec
    var generation: int
    var secret: Option<SecretData>
    var status: Status
    ghost var issued: Option<Issue>

    constructor (p: Platform, spec: Spec, generation: int, secret: Option<SecretData>, status: Status)
      ensures State() == Cluster(spec, generation, secret, status, None) && this.p == p
    {
      this.p := p;
      this.spec, this.generation, this.secret, this.status := spec, generation, secret, status;
      issued := None;
    }

    ghost function State(): Cluster
      reads this
    {
      Cluster(spec, generation, secret, status, issued)
    }

    // Reconcile, with the provisioner of the issuer at hand.
    method Reconcile(env: Env, signer: Signer.Signer)
      returns (requeue: Option<int>, error: Option<Error>, ghost outcome: Result<Signer.Provisioned, Error>,
        ghost writes: seq<Write>, ghost es: seq<Event>)
      requires p.Valid() && signer.client.p == p
      modifies this, signer.client
      ensures signer.client.trace == old(signer.client.trace) + es
      ensures PassCalls(p, old(State()), env, signer.opts, es, outcome)
      ensures HonestFor(p, old(State()), env, outcome)
      ensures Pass(State(), requeue, error, writes) == Step(p, old(State()), env, outcome)
    {
      outcome, writes, es := Err(Message), [], [];
      if env.resource == Unavailable {
        return None, Some(Plain(Foreign(0))), outcome, writes, es;
      }
      if env.resource != Present {
        return None, None, outcome, writes, es;
      }
      var certificate := status;
      var need := Check(env);
      if need.Current? {
        certificate := SetReady(certificate, Ready(generation, true, "Issued", HOLDS_CURRENT), env.stampedAt);
        requeue, error := Some(Until(Some(need.renewAt), env.scheduledAt)), None;
      } else {
        var issue: Result<Status, Error>;
        issue, outcome, es := IssueCertificate(env, signer, certificate);
        IssueCallsAreHonest(p, spec, env, signer.opts, es, outcome);
        if issue.Ok? {
          writes := [SecretWrite];
          certificate := SetReady(issue.value, Ready(generation, true, "Issued", JUST_ISSUED), env.stampedAt);
          requeue, error := Some(Until(certificate.renewalTime, env.scheduledAt)), None;
        } else {
          certificate := SetReady(certificate, Ready(generation, false, "Failed", env.failureText), env.stampedAt);
          if IsPermanent(issue.error) {
            requeue, error := None, None;
          } else {
            requeue, error := Some(RETRY_AFTER), Some(issue.error);
          }
        }
      }
      requeue, error, writes := UpdateStatus(certificate, env, requeue, error, writes);
    }

    method SetReady(certificate: Status, report: Report, now: int) returns (r: Status)
      ensures r == WithReady(certificate, report, now)
    {
      var conditions := new ConditionList(certificate.conditions);
      var changed := conditions.Set(report, now);
      r := certificate.(conditions := conditions.items);
    }

    // The deferred function of Reconcile.
    method UpdateStatus(certificate: Status, env: Env, requeue: Option<int>, error: Option<Error>,
        ghost writes: seq<Write>)
      returns (newRequeue: Option<int>, newError: Option<Error>, ghost allWrites: seq<Write>)
      modifies this`status
      ensures var pass := Conclude(old(State()), certificate, env, requeue, error, writes);
        State() == pass.cluster && newRequeue == pass.requeue && newError == pass.error && allWrites == pass.writes
    {
      if certificate == status {
        return requeue, error, writes;
      }
      if !env.updatable {
        return None, Some(UPDATE_FAILED), writes;
      }
      status := certificate;
      return requeue, error, writes + [StatusWrite];
    }

    // issuanceNeeded.
    method Check(env: Env) returns (need: Need)
      ensures need == IssuanceNeeded(p, State(), env.secretReadable, env.checkedAt)
    {
      if !env.secretReadable || secret.None? {
        return Needed;
      }
      var certPEM, keyPEM := Entry(secret.value, TLS_CERT), Entry(secret.value, TLS_KEY);
      if |certPEM| == 0 || |keyPEM| == 0 {
        return Needed;
      }
      var leaf := p.pki.leafOf(certPEM);
      if leaf.None? {
        return Needed;
      }
      if MatchesSpec(p.text, leaf.value.names, spec).Some? {
        return Needed;
      }
      var renewAt := LeafRenewal(leaf.value, spec.renewBefore);
      return if !(env.checkedAt < renewAt) then Needed else Current(renewAt);
    }

    // issue: on success the Secret is written and the given status filled in.
    method IssueCertificate(env: Env, signer: Signer.Signer, certificate: Status)
      returns (r: Result<Status, Error>, ghost outcome: Result<Signer.Provisioned, Error>, ghost es: seq<Event>)
      requires p.Valid() && signer.client.p == p
      modifies this, signer.client
      ensures signer.client.trace == old(signer.client.trace) + es
      ensures IssueCalls(p, old(spec), env, signer.opts, es, outcome)
      ensures r.Ok? ==> outcome.Ok? && Tells(r.value, outcome.value, old(spec).renewBefore)
      ensures match IssueOutcome(p, old(State()), env, outcome)
        case Err(e) => r == Err(e) && State() == old(State())
        case Ok(issue) =>
          && r == Ok(StatusAfter(certificate, issue))
          && State() == old(State()).(secret := Some(Written(old(secret), issue)), issued := Some(issue))
    {
      hide TrimSpace, LeafRenewal, Tells, Signer.ProvisionAnswers, Signer.CallsOfProvision;
      outcome, es := Err(Message), [];
      var issuer := ResolveIssuer(spec, env);
      if issuer.Some? {
        return Err(issuer.value), outcome, es;
      }
      if !env.authReadable {
        return Err(Wrap(Plain(GetAuthSecret))), outcome, es;
      }
      var password := KeyStorePassword(spec, env);
      if password.Err? {
        return Err(password.error), outcome, es;
      }
      if env.builderFailure.Some? {
        return Err(BuilderError(env.builderFailure.value)), outcome, es;
      }
      var request := RequestOf(spec, password.value.0);
      var provisioned: Result<Signer.Provisioned, Error>;
      provisioned, es := signer.Provision(request);
      outcome := provisioned;
      if provisioned.Err? {
        return Err(provisioned.error), outcome, es;
      }
      r := Publish(env, certificate, request, password.value.1, provisioned.value);
    }

    // The second half of issue: splits the chain, writes the Secret, fills in the status.
    method Publish(env: Env, certificate: Status, request: ProvisionRequest, generated: bool, v: Signer.Provisioned)
      returns (r: Result<Status, Error>)
      modifies this`secret, this`issued
      ensures r.Ok? ==> Tells(r.value, v, spec.renewBefore)
      ensures match Finish(p, old(State()), env, request, generated, v)
        case Err(e) => r == Err(e) && State() == old(State())
        case Ok(issue) =>
          && r == Ok(StatusAfter(certificate, issue))
          && State() == old(State()).(secret := Some(Written(old(secret), issue)), issued := Some(issue))
    {
      var parts := p.pki.splitChain(v.bundle.chainPEM);
      if parts.None? {
        return Err(Wrap(Plain(UnusableResponse)));
      }
      if !env.writable {
        return Err(WRITE_FAILED);
      }
      ghost var issue := Issue(v, request, generated, parts.value.0, parts.value.1, spec.renewBefore);
      WriteSecret(issue, parts.value.0, parts.value.1, v.keyPEM, request.password, generated);
      var leaf := v.bundle.leaf;
      r := Ok(certificate.(
        serialNumber := v.serialNumber, csrID := v.csrID,
        notBefore := Some(leaf.notBefore), notAfter := Some(leaf.notAfter),
        renewalTime := Some(LeafRenewal(leaf, spec.renewBefore))));
    }

    // writeSecret: entries are set one by one in whatever the Secret already holds.
    method WriteSecret(ghost issue: Issue, chainPEM: string, caPEM: string, keyPEM: string, password: string,
        generated: bool)
      requires issue.chainPEM == chainPEM && issue.caPEM == caPEM && issue.provisioned.keyPEM == keyPEM
      requires issue.request.password == password && issue.generated == generated
      modifies this`secret, this`issued
      ensures secret == Some(Written(old(secret), issue)) && issued == Some(issue)
    {
      var data: SecretData := map[];
      if secret.Some? {
        data := secret.value;
      }
      data := data[TLS_CERT := chainPEM];
      data := data[TLS_KEY := keyPEM];
      if |caPEM| > 0 {
        data := data[CA_CERT := caPEM];
      }
      if generated {
        data := data[KEYSTORE_PASSWORD := password];
      }
      secret, issued := Some(data), Some(issue);
    }
  }
}
