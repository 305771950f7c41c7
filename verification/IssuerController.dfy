// internal/controllers/signer.go, and what internal/signer/kmp.go builds for it: which
// failures issuer-lib and the reconciler try again.
module IssuerController {
  import opened Basics
  import opened Text
  import opened Errors
  import opened Certificates
  import opened Chain
  import opened Signing
  import opened Api
  import opened Client
  import opened Protocol
  import opened Renewal
  import opened Reconciler
  import Runs
  import Signer

  // issuer-lib's errors: a permanent one, one that also fails the issuer, or a plain one,
  // which is retried.
  datatype Verdict = Permanent(err: Error) | IssuerFailed(inner: Verdict) | Retried(err: Error)

  predicate StopsRetrying(v: Verdict) {
    match v
    case Permanent(_) => true
    case IssuerFailed(inner) => StopsRetrying(inner)
    case Retried(_) => false
  }

  function PermanentIfUnrecoverable(err: Error, cause: Error): Verdict {
    if IsPermanent(cause) then Permanent(err) else Retried(err)
  }

  // What one look at the issuer's credentials may meet: the Secret is there or not, and
  // the health checker can be built and is content or not.
  datatype Health = Health(secretReadable: bool, builder: Option<Error>, check: Option<Error>)

  // getSecretData: the error carries only text of its cause, which is judged separately.
  function SecretDataFailure(h: Health): Option<Verdict> {
    if !h.secretReadable then Some(Retried(Wrap(Plain(GetAuthSecret))))
    else if h.builder.Some? then Some(PermanentIfUnrecoverable(Wrap(Plain(HealthCheckerBuilder)), h.builder.value))
    else if h.check.Some? then Some(PermanentIfUnrecoverable(Wrap(Plain(HealthCheckerCheck)), h.check.value))
    else None
  }

  // Everything before Key Manager Plus is called that may go wrong in one signing attempt:
  // the issuer's type and health, the details of the request, and building the signer.
  datatype Attempt = Attempt(known: bool, health: Health, details: Option<Error>, builder: Option<Error>)

  function FailureBeforeSigning(a: Attempt): Option<Verdict> {
    if !a.known then Some(IssuerFailed(Permanent(Message)))
    else
      var health := SecretDataFailure(a.health);
      if health.Some? then Some(IssuerFailed(health.value))
      else if a.details.Some? then Some(Retried(a.details.value))
      else if a.builder.Some? then Some(IssuerFailed(Retried(Wrap(Plain(SignerBuilder)))))
      else None
  }

  const SPLIT_FAILED: Error := Plain(Foreign(6))

  // Sign, given what the signer answered if it was called.
  function AttemptOutcome(pki: Pki, a: Attempt, outcome: Result<Bundle, Error>): Result<(string, string), Verdict> {
    var before := FailureBeforeSigning(a);
    if before.Some? then Err(before.value)
    else
      match outcome
      case Err(cause) => Err(PermanentIfUnrecoverable(Wrap(Plain(SignerSign)), cause))
      case Ok(bundle) =>
        var parts := pki.splitChain(bundle.chainPEM);
        if parts.None? then Err(Retried(SPLIT_FAILED)) else Ok(parts.value)
  }

  // The outcome of one run of the signer: an unreadable request sends nothing; otherwise
  // it is what the run of calls yields, or an error of the class its last call gives it.
  ghost predicate SignAnswers(p: Platform, opts: SigningOptions, csr: Option<Signer.CertificateRequest>, hints: Hints,
      es: seq<Event>, outcome: Result<Bundle, Error>) {
    match csr
    case None => es == [] && outcome == Err(Wrap(Plain(InvalidConfig)))
    case Some(request) =>
      Signer.SignAnswers(Signer.ImportContext(p, opts, request, hints), request, es, outcome)
  }

  // What makes issuer-lib give up: an unknown type of issuer, a health checker that cannot
  // be built or fails for good, or calls of which the last did not fail transiently.
  ghost predicate Hopeless(a: Attempt, es: seq<Event>, p: Platform, outcome: Result<Bundle, Error>) {
    || !a.known
    || (a.health.secretReadable && a.health.builder.Some? && IsPermanent(a.health.builder.value))
    || (a.health.secretReadable && a.health.builder.None? && a.health.check.Some? && IsPermanent(a.health.check.value))
    || (FailureBeforeSigning(a).None? && outcome.Err? && (es == [] || !Transient(p, es[|es| - 1])))
  }

  // A failed attempt is given up exactly when it is hopeless. The causes are passed along
  // separately: nothing of them can be unwrapped from the error any more. The issuer is
  // failed along with it exactly when it is the issuer that is unusable.
  lemma AttemptStopsIffHopeless(p: Platform, a: Attempt, opts: SigningOptions, csr: Option<Signer.CertificateRequest>,
      hints: Hints, es: seq<Event>, outcome: Result<Bundle, Error>)
    requires FailureBeforeSigning(a).None? ==> SignAnswers(p, opts, csr, hints, es, outcome)
    requires AttemptOutcome(p.pki, a, outcome).Err?
    ensures StopsRetrying(AttemptOutcome(p.pki, a, outcome).error) <==> Hopeless(a, es, p, outcome)
    ensures AttemptOutcome(p.pki, a, outcome).error.IssuerFailed? <==>
      || !a.known || !a.health.secretReadable || a.health.builder.Some? || a.health.check.Some?
      || (a.details.None? && a.builder.Some?)
  {
    hide Signer.Final, Signer.SignedWell, Transient;
    var unreadable := Wrap(Plain(InvalidConfig));
    assert Is(unreadable, InvalidConfig);
    if FailureBeforeSigning(a).None? && outcome.Err? && csr.Some? {
      var c := Signer.ImportContext(p, opts, csr.value, hints);
      assert Signer.Classified(c, es, outcome.error) && c.p == p;
    }
  }

  // What cert-manager is handed begins with the certificate issued for the request's key,
  // which bears every name of the request.
  lemma IssuedChainIsHandedOn(p: Platform, a: Attempt, opts: SigningOptions, csr: Signer.CertificateRequest,
      hints: Hints, es: seq<Event>, outcome: Result<Bundle, Error>)
    requires p.Valid() && Runs.SplitsWell(p.pki) && SignAnswers(p, opts, Some(csr), hints, es, outcome)
    requires AttemptOutcome(p.pki, a, outcome).Ok?
    ensures var (chain, ca) := AttemptOutcome(p.pki, a, outcome).value;
      && outcome.Ok? && p.pki.splitChain(outcome.value.chainPEM) == Some((chain, ca))
      && chain != "" && p.pki.leafOf(chain) == Some(outcome.value.leaf)
      && (csr.key.Comparable? ==> outcome.value.leaf.key == csr.key)
      && (csr.names.commonName != "" ==> p.text.EqualFold(csr.names.commonName, outcome.value.leaf.names.commonName))
      && (forall n :: n in csr.names.dnsNames ==> p.text.ContainsFold(outcome.value.leaf.names.dnsNames, n))
      && (forall ip :: ip in csr.names.ipAddresses ==> ip in outcome.value.leaf.names.ipAddresses)
  {
    var c := Signer.ImportContext(p, opts, csr, hints);
    var bundle := outcome.value;
    assert Signer.SignedWell(c, csr, es, bundle);
    Signer.SignedChainIsSound(c, csr, es, bundle);
    Signer.SignedChainIsParsed(c, csr, es, bundle);
    hide Signer.SignAnswers, Signer.SignedWell;
    assert bundle.chainPEM == EncodeAll(p.pki, bundle.chain) && bundle.chain[0] == bundle.leaf;
  }

  // Sign of the issuer.
  method SignFor(a: Attempt, signer: Signer.Signer, csr: Option<Signer.CertificateRequest>, hints: Hints)
    returns (r: Result<(string, string), Verdict>, ghost es: seq<Event>, ghost outcome: Result<Bundle, Error>)
    requires signer.client.p.Valid()
    modifies signer.client
    ensures signer.client.trace == old(signer.client.trace) + es
    ensures FailureBeforeSigning(a).Some? ==> es == []
    ensures FailureBeforeSigning(a).None? ==> SignAnswers(signer.client.p, signer.opts, csr, hints, es, outcome)
    ensures r == AttemptOutcome(signer.client.p.pki, a, outcome)
    ensures r.Err? ==> (StopsRetrying(r.error) <==> Hopeless(a, es, signer.client.p, outcome))
    ensures FailureBeforeSigning(a).None? && csr.Some? ==>
      Signer.CallsOfSign(signer.client.p, signer.opts, csr.value, hints.duration, hints.isCA, es)
  {
    hide Signer.CallsOfSign, Signer.SignAnswers;
    es, outcome := [], Err(Message);
    if !a.known {
      return Err(IssuerFailed(Permanent(Message))), es, outcome;
    }
    var health := SecretDataFailure(a.health);
    if health.Some? {
      return Err(IssuerFailed(health.value)), es, outcome;
    }
    if a.details.Some? {
      return Err(Retried(a.details.value)), es, outcome;
    }
    if a.builder.Some? {
      return Err(IssuerFailed(Retried(Wrap(Plain(SignerBuilder))))), es, outcome;
    }
    var signed: Result<Bundle, Error>;
    signed, es := signer.Sign(csr, hints);
    outcome := signed;
    if AttemptOutcome(signer.client.p.pki, a, outcome).Err? {
      AttemptStopsIffHopeless(signer.client.p, a, signer.opts, csr, hints, es, outcome);
    }
    if signed.Err? {
      return Err(PermanentIfUnrecoverable(Wrap(Plain(SignerSign)), signed.error)), es, outcome;
    }
    var parts := signer.client.p.pki.splitChain(signed.value.chainPEM);
    if parts.None? {
      return Err(Retried(SPLIT_FAILED)), es, outcome;
    }
    return Ok(parts.value), es, outcome;
  }

  // ---------- the reconciler ----------

  // The password Secret is there and its entry holds nothing but space.
  predicate BlankPassword(spec: Spec, env: Env) {
    && spec.passwordRef.Some? && env.passwordSecret.Some?
    && var key := if spec.passwordRef.value.key == "" then "password" else spec.passwordRef.value.key;
      AllSpace(Entry(env.passwordSecret.value, key))
  }

  predicate KnownKind(spec: Spec) {
    spec.issuerKind in {"", "KMPIssuer", "KMPClusterIssuer"}
  }

  // What is worth another try: before any call, anything but an unknown kind of issuer and
  // a blank password; in calling, a last call that failed transiently; afterwards, a
  // Secret that could not be written, but no chain that cannot be split.
  ghost predicate WorthRetrying(p: Platform, c: Cluster, env: Env, es: seq<Event>,
      outcome: Result<Signer.Provisioned, Error>) {
    if Prepare(c.spec, env).Err? then
      KnownKind(c.spec) && (!env.issuerReadable || !env.authReadable || !BlankPassword(c.spec, env))
    else if outcome.Err? then es != [] && Transient(p, es[|es| - 1])
    else p.pki.splitChain(outcome.value.bundle.chainPEM).Some?
  }

  lemma PrepareErrorsAreClassified(spec: Spec, env: Env)
    requires Prepare(spec, env).Err?
    ensures IsPermanent(Prepare(spec, env).error) <==>
      !KnownKind(spec) || (env.issuerReadable && env.authReadable && BlankPassword(spec, env))
  {
    ForeignErrorsAreRetried();
    if spec.passwordRef.Some? && env.passwordSecret.Some? {
      var key := if spec.passwordRef.value.key == "" then "password" else spec.passwordRef.value.key;
      TrimSpaceEmpty(Entry(env.passwordSecret.value, key));
    }
  }

  lemma ForeignErrorsAreRetried()
    ensures forall n :: !IsPermanent(Wrap(Plain(Foreign(n))))
    ensures !IsPermanent(Wrap(Plain(GetAuthSecret))) && !IsPermanent(Wrap(Plain(SignerBuilder)))
    ensures IsPermanent(Wrap(Plain(InvalidConfig))) && IsPermanent(Wrap(Plain(UnusableResponse)))
  {
    forall n ensures !IsPermanent(Wrap(Plain(Foreign(n)))) {
      var inner := Plain(Foreign(n));
      assert !Is(inner, InvalidConfig) && !Is(inner, UnusableResponse) && AsApi(inner).None?;
    }
    assert !Is(Plain(GetAuthSecret), InvalidConfig) && !Is(Plain(GetAuthSecret), UnusableResponse);
    assert !Is(Plain(SignerBuilder), InvalidConfig) && !Is(Plain(SignerBuilder), UnusableResponse);
    assert Is(Plain(InvalidConfig), InvalidConfig) && Is(Plain(UnusableResponse), UnusableResponse);
  }

  // The pass returns the error together with a minute's delay.
  predicate TriedAgain(pass: Pass, err: Error) {
    pass.requeue == Some(RETRY_AFTER) && pass.error == Some(err)
  }

  // It returns neither an error nor a delay: nothing happens until something changes.
  predicate GivenUp(pass: Pass) {
    pass.requeue.None? && pass.error.None?
  }

  // It returns the error of the status update alone.
  predicate UpdateError(pass: Pass) {
    pass.requeue.None? && pass.error == Some(UPDATE_FAILED)
  }

  // The failure is news, and its status update is lost.
  predicate Unrecorded(c: Cluster, env: Env) {
    !env.updatable && WithReady(c.status, Ready(c.generation, false, "Failed", env.failureText), env.stampedAt) != c.status
  }

  // A pass that fails returns the error of a lost status update, if there is one, whatever
  // failed before. Otherwise it is tried again exactly when that is worth it, and given up
  // when not. Either way it leaves the Secret alone.
  lemma FailedPassIsRetriedIff(p: Platform, c: Cluster, env: Env, ctx: Context, es: seq<Event>,
      outcome: Result<Signer.Provisioned, Error>)
    requires env.resource == Present && IssuanceNeeded(p, c, env.secretReadable, env.checkedAt).Needed?
    requires IssueOutcome(p, c, env, outcome).Err?
    requires Prepare(c.spec, env).Ok? ==> Answers(p, Prepare(c.spec, env).value.0, ctx, es, outcome)
    ensures var pass, err := Step(p, c, env, outcome), IssueOutcome(p, c, env, outcome).error;
      && (UpdateError(pass) <==> Unrecorded(c, env))
      && (TriedAgain(pass, err) <==> WorthRetrying(p, c, env, es, outcome) && !Unrecorded(c, env))
      && (GivenUp(pass) <==> !WorthRetrying(p, c, env, es, outcome) && !Unrecorded(c, env))
      && pass.cluster.secret == c.secret
  {
    FailureIsPermanentIff(p, c, env, ctx, es, outcome);
    hide IssuanceNeeded, IssueOutcome, IsPermanent, WorthRetrying, WithReady, Answers;
  }

  lemma FailureIsPermanentIff(p: Platform, c: Cluster, env: Env, ctx: Context, es: seq<Event>,
      outcome: Result<Signer.Provisioned, Error>)
    requires IssueOutcome(p, c, env, outcome).Err?
    requires Prepare(c.spec, env).Ok? ==> Answers(p, Prepare(c.spec, env).value.0, ctx, es, outcome)
    ensures IsPermanent(IssueOutcome(p, c, env, outcome).error) <==> !WorthRetrying(p, c, env, es, outcome)
  {
    ForeignErrorsAreRetried();
    hide IsPermanent, Transient, Prepare, KnownKind, BlankPassword, Signer.Final, Signer.ProvisionedWell;
    if Prepare(c.spec, env).Err? {
      PrepareErrorsAreClassified(c.spec, env);
    }
  }

  // ---------- where the class is lost ----------

  // A builder's failure reaches both controllers as text, so what they do matches its class
  // exactly when it is not permanent: a permanent one is not given up either.
  lemma BuilderClassIsKeptIffNotPermanent(p: Platform, c: Cluster, env: Env,
      outcome: Result<Signer.Provisioned, Error>, a: Attempt, signed: Result<Bundle, Error>, cause: Error)
    requires env.builderFailure == Some(cause) && env.resource == Present
    requires ResolveIssuer(c.spec, env).None? && env.authReadable && KeyStorePassword(c.spec, env).Ok?
    requires IssuanceNeeded(p, c, env.secretReadable, env.checkedAt).Needed?
    requires a.known && SecretDataFailure(a.health).None? && a.details.None? && a.builder == Some(cause)
    ensures var pass := Step(p, c, env, outcome);
      && (if Unrecorded(c, env) then UpdateError(pass) else TriedAgain(pass, BuilderError(cause)))
      && ((GivenUp(pass) <==> IsPermanent(cause)) <==> !IsPermanent(cause))
    ensures var r := AttemptOutcome(p.pki, a, signed);
      && r.Err? && !StopsRetrying(r.error)
      && ((StopsRetrying(r.error) <==> IsPermanent(cause)) <==> !IsPermanent(cause))
  {
    ForeignErrorsAreRetried();
  }

  // What the builders of both controllers are given: the issuer's spec, its token, and
  // whether a client can be made of the address and certificates.
  datatype Config = Config(present: bool, authToken: string, clientValid: bool, options: SigningOptions)

  // signerFromIssuerAndSecretData.
  function BuildFailure(cfg: Config): Option<Error> {
    if !cfg.present || TrimSpace(cfg.authToken) == "" || !cfg.clientValid then Some(Wrap(Plain(InvalidConfig)))
    else Validate(cfg.options)
  }

  // With that builder a misconfigured issuer stops certificate requests for good, before
  // the signer is ever built: the health checker, made of the same, fails first. A pass
  // over a KMPCertificate of the same issuer returns an error, to be tried again.
  lemma MisconfigurationStopsOnlyRequests(p: Platform, c: Cluster, env: Env, outcome: Result<Signer.Provisioned, Error>,
      a: Attempt, signed: Result<Bundle, Error>, cfg: Config)
    requires a.known && a.health.secretReadable && a.health.builder == a.builder == BuildFailure(cfg)
    requires BuildFailure(cfg).Some? && env.builderFailure == BuildFailure(cfg)
    requires env.resource == Present
    requires ResolveIssuer(c.spec, env).None? && env.authReadable && KeyStorePassword(c.spec, env).Ok?
    requires IssuanceNeeded(p, c, env.secretReadable, env.checkedAt).Needed?
    ensures AttemptOutcome(p.pki, a, signed).Err? && StopsRetrying(AttemptOutcome(p.pki, a, signed).error)
    ensures var pass := Step(p, c, env, outcome);
      if Unrecorded(c, env) then UpdateError(pass) else TriedAgain(pass, BuilderError(BuildFailure(cfg).value))
  {
    ForeignErrorsAreRetried();
    ValidatedMeansComplete(cfg.options, "id", Hints(0, false));
    hide Validate, Rendered, IssuanceNeeded, TrimSpace, WithReady, IsPermanent;
  }
}
