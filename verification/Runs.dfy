// Whole runs of the controller: any number of passes with any answers and failures,
// interleaved with edits by others.
module Runs {
  import opened Basics
  import opened Text
  import opened Errors
  import opened Certificates
  import opened Chain
  import opened Api
  import opened NameChecks
  import opened Renewal
  import opened Conditions
  import opened Client
  import opened Protocol
  import opened Reconciler
  import Signer

  datatype Move =
    | Reconciled(env: Env, outcome: Result<Signer.Provisioned, Error>)
    | SecretEdited(secret: Option<SecretData>)
    | SpecEdited(spec: Spec)

  // An edit of the Secret ends what is known about its origin.
  function Apply(p: Platform, c: Cluster, m: Move): Cluster {
    match m
    case Reconciled(env, outcome) => Step(p, c, env, outcome).cluster
    case SecretEdited(secret) => c.(secret := secret, issued := None)
    case SpecEdited(spec) => c.(spec := spec, generation := c.generation + 1)
  }

  ghost predicate Allowed(p: Platform, c: Cluster, m: Move) {
    m.Reconciled? ==> HonestFor(p, c, m.env, m.outcome)
  }

  function After(p: Platform, c: Cluster, moves: seq<Move>): Cluster
    decreases |moves|
  {
    if moves == [] then c else After(p, Apply(p, c, moves[0]), moves[1..])
  }

  ghost predicate AllAllowed(p: Platform, c: Cluster, moves: seq<Move>)
    decreases |moves|
  {
    moves == [] || (Allowed(p, c, moves[0]) && AllAllowed(p, Apply(p, c, moves[0]), moves[1..]))
  }

  // ---------- what is relied on beyond Pki.Valid ----------

  // cert-manager keeps the first certificate of a chain it splits, and the encodings of
  // keys and chains are not empty.
  ghost predicate SplitsWell(pki: Pki) {
    && (forall chain: seq<Cert> {:trigger EncodeAll(pki, chain)} ::
         chain != [] && Linked(pki, chain[0], chain[1..]) && (forall c :: c in chain ==> pki.Parsed(c)) ==>
         var parts := pki.splitChain(EncodeAll(pki, chain));
         parts.Some? ==> parts.value.0 != "" && pki.leafOf(parts.value.0) == Some(chain[0]))
    && (forall k: PrivateKey :: pki.encodeKey(k).Some? ==> pki.encodeKey(k).value != "")
  }

  // ---------- the pair in the Secret ----------

  // Certificate and key are those of one successful Provision.
  ghost predicate OneProvision(p: Platform, issue: Issue) {
    && Honest(p, issue.request, Ok(issue.provisioned))
    && p.pki.splitChain(issue.provisioned.bundle.chainPEM) == Some((issue.chainPEM, issue.caPEM))
  }

  // A Secret last written by the controller holds what that write put there.
  ghost predicate PairInvariant(p: Platform, c: Cluster) {
    c.issued.Some? ==>
      var issue := c.issued.value;
      && OneProvision(p, issue)
      && c.secret.Some?
      && Entry(c.secret.value, TLS_CERT) == issue.chainPEM
      && Entry(c.secret.value, TLS_KEY) == issue.provisioned.keyPEM
      && (issue.caPEM != "" ==> Entry(c.secret.value, CA_CERT) == issue.caPEM)
      && (issue.generated ==> Entry(c.secret.value, KEYSTORE_PASSWORD) == issue.request.password)
  }

  // What a pass publishes: nothing, unless it found issuing needed and issuing went well
  // to the end.
  function Published(p: Platform, c: Cluster, env: Env, outcome: Result<Signer.Provisioned, Error>): Option<Issue> {
    if env.resource == Present && IssuanceNeeded(p, c, env.secretReadable, env.checkedAt).Needed? then
      var r := IssueOutcome(p, c, env, outcome);
      if r.Ok? then Some(r.value) else None
    else None
  }

  // A pass touches the Secret exactly when it publishes; a failed one leaves it alone.
  // The spec is never touched.
  lemma PassWritesWhatItPublishes(p: Platform, c: Cluster, env: Env, outcome: Result<Signer.Provisioned, Error>)
    ensures var pass, issue := Step(p, c, env, outcome), Published(p, c, env, outcome);
      && (SecretWrite in pass.writes <==> issue.Some?)
      && pass.cluster.secret == (if issue.Some? then Some(Written(c.secret, issue.value)) else c.secret)
      && pass.cluster.issued == (if issue.Some? then issue else c.issued)
      && pass.cluster.spec == c.spec && pass.cluster.generation == c.generation
      && (StatusWrite !in pass.writes ==> pass.cluster.status == c.status)
  {
    hide IssuanceNeeded, IssueOutcome, SetCondition, StatusAfter, Written;
  }

  // Other entries of the Secret stay: in particular an old CA when the new chain has
  // none, and an old generated password when the new one was supplied.
  lemma WritingKeepsOtherEntries(was: Option<SecretData>, issue: Issue)
    ensures var before, after := (if was.Some? then was.value else map[]), Written(was, issue);
      && Entry(after, TLS_CERT) == issue.chainPEM && Entry(after, TLS_KEY) == issue.provisioned.keyPEM
      && Entry(after, CA_CERT) == (if issue.caPEM != "" then issue.caPEM else Entry(before, CA_CERT))
      && Entry(after, KEYSTORE_PASSWORD) == (if issue.generated then issue.request.password else Entry(before, KEYSTORE_PASSWORD))
      && forall k :: k !in {TLS_CERT, TLS_KEY, CA_CERT, KEYSTORE_PASSWORD} ==> Entry(after, k) == Entry(before, k)
  {
    assert |TLS_CERT| == 7 && |TLS_KEY| == 7 && |CA_CERT| == 6 && |KEYSTORE_PASSWORD| == 17;
    assert TLS_CERT[4] == 'c' && TLS_KEY[4] == 'k';
  }

  lemma PublishedComesFromOneProvision(p: Platform, c: Cluster, env: Env, outcome: Result<Signer.Provisioned, Error>)
    requires HonestFor(p, c, env, outcome)
    ensures var issue := Published(p, c, env, outcome);
      issue.Some? ==>
        && OneProvision(p, issue.value)
        && issue.value.renewBefore == c.spec.renewBefore
        && issue.value.request == RequestOf(c.spec, issue.value.request.password)
        && issue.value.generated == c.spec.passwordRef.None?
  {
    hide IssuanceNeeded, ResolveIssuer, TrimSpace;
  }

  lemma StepKeepsPairInvariant(p: Platform, c: Cluster, env: Env, outcome: Result<Signer.Provisioned, Error>)
    requires PairInvariant(p, c) && HonestFor(p, c, env, outcome)
    ensures PairInvariant(p, Step(p, c, env, outcome).cluster)
  {
    PassWritesWhatItPublishes(p, c, env, outcome);
    PublishedComesFromOneProvision(p, c, env, outcome);
    var issue := Published(p, c, env, outcome);
    if issue.Some? {
      WritingKeepsOtherEntries(c.secret, issue.value);
    }
  }

  // Over every run, whatever fails and whatever Key Manager Plus answers.
  lemma {:induction false} PairInvariantHolds(p: Platform, c: Cluster, moves: seq<Move>)
    requires PairInvariant(p, c) && AllAllowed(p, c, moves)
    ensures PairInvariant(p, After(p, c, moves))
    decreases |moves|
  {
    if moves != [] {
      if moves[0].Reconciled? {
        StepKeepsPairInvariant(p, c, moves[0].env, moves[0].outcome);
      }
      PairInvariantHolds(p, Apply(p, c, moves[0]), moves[1..]);
    }
  }

  // What the invariant means to a user of the Secret: the first certificate in it has the
  // public half of the key next to it, and covers the names of the request.
  lemma PairIsUsable(p: Platform, c: Cluster)
    requires p.Valid() && SplitsWell(p.pki) && PairInvariant(p, c) && c.issued.Some?
    ensures var v := c.issued.value.provisioned;
      && Entry(c.secret.value, TLS_CERT) != "" && Entry(c.secret.value, TLS_KEY) != ""
      && p.pki.leafOf(Entry(c.secret.value, TLS_CERT)) == Some(v.bundle.leaf)
      && p.pki.encodeKey(v.key) == Some(Entry(c.secret.value, TLS_KEY))
      && v.key.public == Some(v.bundle.leaf.key)
      && ProvisionCovered(p.text, c.issued.value.request, v.bundle.leaf.names)
  {
    var issue := c.issued.value;
    var v := issue.provisioned;
    var ctx: Context, es :| Answers(p, issue.request, ctx, es, Ok(v));
    Signer.ProvisionedPairIsSound(ctx, issue.request, es, v);
    assert v.bundle.chainPEM == EncodeAll(p.pki, v.bundle.chain);
    assert v.bundle.chain[0] == v.bundle.leaf;
  }

  // Publishing establishes the invariant by itself.
  lemma PublishingEstablishesPairInvariant(p: Platform, c: Cluster, env: Env,
      outcome: Result<Signer.Provisioned, Error>)
    requires HonestFor(p, c, env, outcome) && Published(p, c, env, outcome).Some?
    ensures PairInvariant(p, Step(p, c, env, outcome).cluster)
    ensures Step(p, c, env, outcome).cluster.issued == Published(p, c, env, outcome)
  {
    PassWritesWhatItPublishes(p, c, env, outcome);
    PublishedComesFromOneProvision(p, c, env, outcome);
    WritingKeepsOtherEntries(c.secret, Published(p, c, env, outcome).value);
  }

  // ---------- the recorded password ----------

  ghost predicate NoPasswordRef(c: Cluster) {
    c.spec.passwordRef.None? && (c.issued.Some? ==> c.issued.value.generated)
  }

  // While no password is ever supplied, the one in the Secret is the one the key next to
  // it is kept under.
  lemma {:induction false} RecordedPasswordOpensTheKey(p: Platform, c: Cluster, moves: seq<Move>)
    requires PairInvariant(p, c) && NoPasswordRef(c) && AllAllowed(p, c, moves)
    requires forall m :: m in moves && m.SpecEdited? ==> m.spec.passwordRef.None?
    ensures var last := After(p, c, moves);
      && NoPasswordRef(last)
      && (last.issued.Some? ==>
           && last.secret.Some?
           && Entry(last.secret.value, KEYSTORE_PASSWORD) == last.issued.value.request.password)
    decreases |moves|
  {
    if moves != [] {
      var m, next := moves[0], Apply(p, c, moves[0]);
      assert m in moves;
      if m.Reconciled? {
        StepKeepsPairInvariant(p, c, m.env, m.outcome);
        PassWritesWhatItPublishes(p, c, m.env, m.outcome);
        PublishedComesFromOneProvision(p, c, m.env, m.outcome);
      }
      RecordedPasswordOpensTheKey(p, next, moves[1..]);
    }
  }

  // Once a password is supplied instead, the next issue leaves the old one standing.
  lemma SuppliedPasswordLeavesTheOldOne(p: Platform, c: Cluster, env: Env, outcome: Result<Signer.Provisioned, Error>)
    requires HonestFor(p, c, env, outcome) && Published(p, c, env, outcome).Some?
    requires c.secret.Some? && c.spec.passwordRef.Some?
    ensures var next := Step(p, c, env, outcome).cluster;
      Entry(next.secret.value, KEYSTORE_PASSWORD) == Entry(c.secret.value, KEYSTORE_PASSWORD)
  {
    PassWritesWhatItPublishes(p, c, env, outcome);
    PublishedComesFromOneProvision(p, c, env, outcome);
    WritingKeepsOtherEntries(c.secret, Published(p, c, env, outcome).value);
  }

  // After an issue the Secret's CA and password are those of the issue exactly when the
  // chain has a CA or there was none before, and the password was generated or is the one
  // recorded before.
  lemma StaleEntriesSurviveIff(p: Platform, c: Cluster, env: Env, outcome: Result<Signer.Provisioned, Error>)
    requires Published(p, c, env, outcome).Some?
    ensures var issue := Published(p, c, env, outcome).value;
      var before := if c.secret.Some? then c.secret.value else map[];
      var next := Step(p, c, env, outcome).cluster;
      && next.secret.Some?
      && (Entry(next.secret.value, CA_CERT) == issue.caPEM <==> issue.caPEM != "" || Entry(before, CA_CERT) == "")
      && (Entry(next.secret.value, KEYSTORE_PASSWORD) == issue.request.password <==>
           issue.generated || Entry(before, KEYSTORE_PASSWORD) == issue.request.password)
  {
    PassWritesWhatItPublishes(p, c, env, outcome);
    WritingKeepsOtherEntries(c.secret, Published(p, c, env, outcome).value);
  }

  // ---------- the recorded status ----------

  // What a status says apart from its conditions.
  function Record(s: Status): Status {
    s.(conditions := [])
  }

  const NO_STATUS := Status([], "", "", None, None, None)

  // Serial number, id, validity and renewal time of an issue.
  function RecordOf(issue: Issue): Status {
    var v, leaf := issue.provisioned, issue.provisioned.bundle.leaf;
    Status([], v.serialNumber, v.csrID, Some(leaf.notBefore), Some(leaf.notAfter),
      Some(RenewalTime(leaf.notBefore, leaf.notAfter, issue.renewBefore)))
  }

  // The status shows the certificate last written.
  ghost predicate Described(c: Cluster) {
    c.issued.Some? ==> Record(c.status) == RecordOf(c.issued.value)
  }

  // A pass records what it publishes, if the update goes through, and otherwise nothing
  // but a condition.
  lemma PassRecordsWhatItPublishes(p: Platform, c: Cluster, env: Env, outcome: Result<Signer.Provisioned, Error>)
    ensures var next, issue := Step(p, c, env, outcome).cluster.status, Published(p, c, env, outcome);
      Record(next) == if issue.Some? && env.updatable then RecordOf(issue.value) else Record(c.status)
  {}

  function PublishedBy(p: Platform, c: Cluster, m: Move): Option<Issue> {
    if m.Reconciled? then Published(p, c, m.env, m.outcome) else None
  }

  // The last issue of a run.
  function LastPublished(p: Platform, c: Cluster, moves: seq<Move>): Option<Issue>
    decreases |moves|
  {
    if moves == [] then None
    else
      var later := LastPublished(p, Apply(p, c, moves[0]), moves[1..]);
      if later.Some? then later else PublishedBy(p, c, moves[0])
  }

  // The last issue of a run whose status update went through.
  function LastRecorded(p: Platform, c: Cluster, moves: seq<Move>): Option<Issue>
    decreases |moves|
  {
    if moves == [] then None
    else
      var later := LastRecorded(p, Apply(p, c, moves[0]), moves[1..]);
      if later.Some? then later
      else if moves[0].Reconciled? && moves[0].env.updatable then PublishedBy(p, c, moves[0])
      else None
  }

  // The certificate in the Secret, if the controller wrote it, is the last one issued.
  lemma {:induction false} SecretHoldsTheLastPublished(p: Platform, c: Cluster, moves: seq<Move>)
    ensures var last, issue := After(p, c, moves), LastPublished(p, c, moves);
      last.issued.Some? ==> last.issued == if issue.Some? then issue else c.issued
    decreases |moves|
  {
    if moves != [] {
      var m := moves[0];
      if m.Reconciled? {
        PassWritesWhatItPublishes(p, c, m.env, m.outcome);
      }
      SecretHoldsTheLastPublished(p, Apply(p, c, m), moves[1..]);
    }
  }

  // The status shows the last issue whose update went through, whatever was issued since.
  lemma {:induction false} StatusShowsTheLastRecorded(p: Platform, c: Cluster, moves: seq<Move>)
    ensures var issue := LastRecorded(p, c, moves);
      Record(After(p, c, moves).status) == if issue.Some? then RecordOf(issue.value) else Record(c.status)
    decreases |moves|
  {
    if moves != [] {
      var m := moves[0];
      if m.Reconciled? {
        PassRecordsWhatItPublishes(p, c, m.env, m.outcome);
      }
      StatusShowsTheLastRecorded(p, Apply(p, c, m), moves[1..]);
    }
  }

  // After any run the status describes the certificate in the Secret exactly when others
  // wrote the Secret last, or the last issue says the same as the last one recorded.
  lemma StatusDescribesIffLastIssueRecorded(p: Platform, c: Cluster, moves: seq<Move>)
    ensures var last := After(p, c, moves);
      var published, recorded := LastPublished(p, c, moves), LastRecorded(p, c, moves);
      var issue := if published.Some? then published else c.issued;
      var shown := if recorded.Some? then RecordOf(recorded.value) else Record(c.status);
      Described(last) <==> last.issued.None? || (issue.Some? && RecordOf(issue.value) == shown)
  {
    SecretHoldsTheLastPublished(p, c, moves);
    StatusShowsTheLastRecorded(p, c, moves);
  }

  // No pass that publishes loses its status update; what becomes of other updates does
  // not matter.
  ghost predicate EveryIssueRecorded(p: Platform, c: Cluster, moves: seq<Move>)
    decreases |moves|
  {
    moves == [] || (
      && (PublishedBy(p, c, moves[0]).Some? ==> moves[0].env.updatable)
      && EveryIssueRecorded(p, Apply(p, c, moves[0]), moves[1..]))
  }

  lemma {:induction false} RecordedIsPublished(p: Platform, c: Cluster, moves: seq<Move>)
    requires EveryIssueRecorded(p, c, moves)
    ensures LastRecorded(p, c, moves) == LastPublished(p, c, moves)
    decreases |moves|
  {
    if moves != [] {
      RecordedIsPublished(p, Apply(p, c, moves[0]), moves[1..]);
    }
  }

  lemma StatusDescribesTheSecret(p: Platform, c: Cluster, moves: seq<Move>)
    requires Described(c) && EveryIssueRecorded(p, c, moves)
    ensures Described(After(p, c, moves))
  {
    RecordedIsPublished(p, c, moves);
    SecretHoldsTheLastPublished(p, c, moves);
    StatusShowsTheLastRecorded(p, c, moves);
  }

  // A pass that publishes and records sets right whatever was lost before.
  lemma RecordingRepairs(p: Platform, c: Cluster, env: Env, outcome: Result<Signer.Provisioned, Error>)
    requires Published(p, c, env, outcome).Some?
    ensures Described(Step(p, c, env, outcome).cluster) <==>
      env.updatable || Record(c.status) == RecordOf(Published(p, c, env, outcome).value)
  {
    PassWritesWhatItPublishes(p, c, env, outcome);
    PassRecordsWhatItPublishes(p, c, env, outcome);
  }
}
