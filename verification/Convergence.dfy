// When the controller comes to rest, for how long, and when it never does.
module Convergence {
  import opened Basics
  import opened Text
  import opened Errors
  import opened Certificates
  import opened Api
  import opened NameChecks
  import opened Renewal
  import opened Conditions
  import opened Client
  import opened Reconciler
  import opened Runs
  import Signer

  // ---------- after an issue ----------

  // The next look finds the certificate good exactly when it matches the spec and is not
  // yet due.
  lemma NextLookAfterIssue(p: Platform, c: Cluster, env: Env, outcome: Result<Signer.Provisioned, Error>, now: int)
    requires p.Valid() && SplitsWell(p.pki) && HonestFor(p, c, env, outcome)
    requires Published(p, c, env, outcome).Some?
    ensures var next := Step(p, c, env, outcome).cluster;
      var leaf := Published(p, c, env, outcome).value.provisioned.bundle.leaf;
      var renewAt := LeafRenewal(leaf, c.spec.renewBefore);
      IssuanceNeeded(p, next, true, now) ==
        if MatchesSpec(p.text, leaf.names, c.spec).None? && now < renewAt then Current(renewAt) else Needed
  {
    PublishingEstablishesPairInvariant(p, c, env, outcome);
    PassWritesWhatItPublishes(p, c, env, outcome);
    PairIsUsable(p, Step(p, c, env, outcome).cluster);
  }

  // For a well-formed spec a successful issue settles the matter until renewal exactly
  // when the certificate authority kept the organization and organizational unit.
  lemma IssueSettlesIffSubjectKept(p: Platform, c: Cluster, env: Env, outcome: Result<Signer.Provisioned,
      Error>, now: int)
    requires p.Valid() && SplitsWell(p.pki) && HonestFor(p, c, env, outcome)
    requires Published(p, c, env, outcome).Some? && WellFormed(p.text, c.spec)
    ensures var next := Step(p, c, env, outcome).cluster;
      var leaf := Published(p, c, env, outcome).value.provisioned.bundle.leaf;
      IssuanceNeeded(p, next, true, now).Current? <==>
        SubjectKept(p.text, leaf.names, c.spec) && now < LeafRenewal(leaf, c.spec.renewBefore)
  {
    NextLookAfterIssue(p, c, env, outcome, now);
    PublishedComesFromOneProvision(p, c, env, outcome);
    PublishingEstablishesPairInvariant(p, c, env, outcome);
    PairIsUsable(p, Step(p, c, env, outcome).cluster);
    var issue := Published(p, c, env, outcome).value;
    var leaf := issue.provisioned.bundle.leaf;
    ChecksAgreeOnWellFormed(p.text, c.spec, issue.request.password, leaf.names);
    MatchesSpecMeansMatching(p.text, leaf.names, c.spec);
  }

  // ---------- at rest ----------

  // The Secret is good until the given instant, and due from then on.
  ghost predicate GoodUntil(p: Platform, c: Cluster, renewAt: int) {
    forall now :: IssuanceNeeded(p, c, true, now) == if now < renewAt then Current(renewAt) else Needed
  }

  // One look that finds it good tells about every later look at the same Secret and spec.
  lemma OneLookTellsAll(p: Platform, c: Cluster, now: int)
    requires IssuanceNeeded(p, c, true, now).Current?
    ensures GoodUntil(p, c, IssuanceNeeded(p, c, true, now).renewAt)
    ensures now < IssuanceNeeded(p, c, true, now).renewAt
  {}

  // A pass that can read what it needs, before the renewal instant.
  predicate QuietEnv(env: Env, renewAt: int) {
    env.resource == Present && env.secretReadable && env.checkedAt < renewAt
  }

  // The Ready condition says that the Secret holds a current certificate.
  ghost predicate Steady(c: Cluster) {
    forall now :: WithReady(c.status, Ready(c.generation, true, "Issued", HOLDS_CURRENT), now) == c.status
  }

  // A pass at rest never touches the Secret and writes the status at most once more.
  lemma QuietPass(p: Platform, c: Cluster, env: Env, outcome: Result<Signer.Provisioned, Error>, renewAt: int)
    requires GoodUntil(p, c, renewAt) && QuietEnv(env, renewAt)
    ensures var pass := Step(p, c, env, outcome);
      && GoodUntil(p, pass.cluster, renewAt) && pass.cluster.secret == c.secret && pass.cluster.issued == c.issued
      && SecretWrite !in pass.writes
      && Record(pass.cluster.status) == Record(c.status)
      && (env.updatable ==> Steady(pass.cluster) && pass.error.None?)
      && (Steady(c) ==> pass.cluster == c && pass.writes == [] && pass.error.None?)
      && ((pass.writes == [] && pass.cluster == c) || (pass.writes == [StatusWrite] && Steady(pass.cluster)))
  {
    var report := Ready(c.generation, true, "Issued", HOLDS_CURRENT);
    var status := WithReady(c.status, report, env.stampedAt);
    assert IssuanceNeeded(p, c, true, env.checkedAt) == Current(renewAt);
    forall later ensures WithReady(status, report, later) == status {
      SetConditionIsIdempotent(c.status.conditions, report, env.stampedAt, later);
    }
    var next := Step(p, c, env, outcome).cluster;
    assert next.spec == c.spec && next.secret == c.secret;
    forall now ensures IssuanceNeeded(p, next, true, now) == IssuanceNeeded(p, c, true, now) {}
  }

  // The writes of a run.
  function Writes(p: Platform, c: Cluster, moves: seq<Move>): seq<Write>
    decreases |moves|
  {
    if moves == [] then []
    else
      var first := if moves[0].Reconciled? then Step(p, c, moves[0].env, moves[0].outcome).writes else [];
      first + Writes(p, Apply(p, c, moves[0]), moves[1..])
  }

  ghost predicate AllQuiet(moves: seq<Move>, renewAt: int) {
    forall m :: m in moves ==> m.Reconciled? && QuietEnv(m.env, renewAt)
  }

  lemma {:induction false} SteadyRunWritesNothing(p: Platform, c: Cluster, moves: seq<Move>, renewAt: int)
    requires GoodUntil(p, c, renewAt) && Steady(c) && AllQuiet(moves, renewAt)
    ensures After(p, c, moves) == c && Writes(p, c, moves) == []
    decreases |moves|
  {
    if moves != [] {
      assert moves[0] in moves;
      QuietPass(p, c, moves[0].env, moves[0].outcome, renewAt);
      SteadyRunWritesNothing(p, c, moves[1..], renewAt);
    }
  }

  // From a good Secret on, all passes before the renewal instant together write the
  // status at most once and nothing else, whatever updates fail and whatever Key Manager
  // Plus would answer; once an update went through there is nothing left to write.
  lemma {:induction false} QuietRun(p: Platform, c: Cluster, moves: seq<Move>, renewAt: int)
    requires GoodUntil(p, c, renewAt) && AllQuiet(moves, renewAt)
    ensures var last := After(p, c, moves);
      && ((Writes(p, c, moves) == [] && last == c) || (Writes(p, c, moves) == [StatusWrite] && Steady(last)))
      && GoodUntil(p, last, renewAt) && last.secret == c.secret && last.issued == c.issued
      && Record(last.status) == Record(c.status)
      && ((exists m :: m in moves && m.env.updatable) ==> Steady(last))
    decreases |moves|
  {
    if moves != [] {
      var m, rest := moves[0], moves[1..];
      assert m in moves && moves == [m] + rest;
      QuietPass(p, c, m.env, m.outcome, renewAt);
      var next := Apply(p, c, m);
      if Steady(next) {
        SteadyRunWritesNothing(p, next, rest, renewAt);
      } else {
        QuietRun(p, next, rest, renewAt);
      }
    }
  }

  // Issue once, then rest: the whole story of a well-formed spec with an authority that
  // keeps the subject.
  lemma IssueThenQuiet(p: Platform, c: Cluster, env: Env, outcome: Result<Signer.Provisioned, Error>, moves: seq<Move>)
    requires p.Valid() && SplitsWell(p.pki) && HonestFor(p, c, env, outcome)
    requires Published(p, c, env, outcome).Some? && WellFormed(p.text, c.spec)
    requires SubjectKept(p.text, Published(p, c, env, outcome).value.provisioned.bundle.leaf.names, c.spec)
    requires AllQuiet(moves, LeafRenewal(Published(p, c, env, outcome).value.provisioned.bundle.leaf, c.spec.renewBefore))
    ensures var next := Step(p, c, env, outcome).cluster;
      && (Writes(p, next, moves) == [] || Writes(p, next, moves) == [StatusWrite])
      && After(p, next, moves).secret == next.secret && After(p, next, moves).issued == next.issued
      && ((exists m :: m in moves && m.env.updatable) ==> Steady(After(p, next, moves)))
  {
    var next := Step(p, c, env, outcome).cluster;
    var renewAt := LeafRenewal(Published(p, c, env, outcome).value.provisioned.bundle.leaf, c.spec.renewBefore);
    forall now ensures IssuanceNeeded(p, next, true, now) == if now < renewAt then Current(renewAt) else Needed {
      IssueSettlesIffSubjectKept(p, c, env, outcome, now);
      NextLookAfterIssue(p, c, env, outcome, now);
    }
    QuietRun(p, next, moves, renewAt);
  }

  // ---------- never at rest ----------

  // The certificate will be asked to be replaced at once.
  predicate Refused(p: Platform, spec: Spec, leaf: Cert, now: int) {
    MatchesSpec(p.text, leaf.names, spec).Some? || now >= LeafRenewal(leaf, spec.renewBefore)
  }

  // Each pass can do all it needs to and gets a certificate, should it ask for one.
  ghost predicate Capable(p: Platform, spec: Spec, moves: seq<Move>) {
    forall m :: m in moves ==>
      && m.Reconciled? && m.env.resource == Present && m.env.writable && Prepare(spec, m.env).Ok?
      && m.outcome.Ok? && p.pki.splitChain(m.outcome.value.bundle.chainPEM).Some?
  }

  // The look of the next pass does not accept what this pass got.
  predicate NotAccepted(p: Platform, spec: Spec, m: Move, next: Move)
    requires m.Reconciled? && m.outcome.Ok? && next.Reconciled?
  {
    !next.env.secretReadable || Refused(p, spec, m.outcome.value.bundle.leaf, next.env.checkedAt)
  }

  ghost predicate NeverAccepted(p: Platform, spec: Spec, moves: seq<Move>)
    requires Capable(p, spec, moves)
  {
    forall i :: 0 <= i < |moves| - 1 ==> NotAccepted(p, spec, moves[i], moves[i + 1])
  }

  function SecretWrites(ws: seq<Write>): nat {
    if ws == [] then 0 else (if ws[0] == SecretWrite then 1 else 0) + SecretWrites(ws[1..])
  }

  lemma {:induction false} SecretWritesConcat(a: seq<Write>, b: seq<Write>)
    ensures SecretWrites(a + b) == SecretWrites(a) + SecretWrites(b)
  {
    if a == [] {
      assert a + b == b;
    } else {
      assert (a + b)[1..] == a[1..] + b;
      SecretWritesConcat(a[1..], b);
    }
  }

  predicate NeededFor(p: Platform, c: Cluster, m: Move)
    requires m.Reconciled?
  {
    IssuanceNeeded(p, c, m.env.secretReadable, m.env.checkedAt).Needed?
  }

  lemma NeededPassIssues(p: Platform, c: Cluster, m: Move)
    requires m.Reconciled? && m.env.resource == Present && m.env.writable && Prepare(c.spec, m.env).Ok?
    requires m.outcome.Ok? && p.pki.splitChain(m.outcome.value.bundle.chainPEM).Some?
    requires IssuanceNeeded(p, c, m.env.secretReadable, m.env.checkedAt).Needed?
    ensures var issue := Published(p, c, m.env, m.outcome); issue.Some? && issue.value.provisioned == m.outcome.value
    ensures SecretWrites(Step(p, c, m.env, m.outcome).writes) == 1
  {
    var ws := Step(p, c, m.env, m.outcome).writes;
    assert ws == [SecretWrite] || ws == [SecretWrite] + [StatusWrite];
    SecretWritesConcat([SecretWrite], [StatusWrite]);
    assert SecretWrites([SecretWrite]) == 1 && SecretWrites([StatusWrite]) == 0;
  }

  lemma NextPassIssuesIffNotAccepted(p: Platform, c: Cluster, m: Move, n: Move)
    requires p.Valid() && SplitsWell(p.pki) && m.Reconciled? && n.Reconciled? && Allowed(p, c, m)
    requires Published(p, c, m.env, m.outcome).Some? && m.outcome.Ok?
    requires Published(p, c, m.env, m.outcome).value.provisioned == m.outcome.value
    ensures NeededFor(p, Apply(p, c, m), n) <==> NotAccepted(p, c.spec, m, n)
  {
    NextLookAfterIssue(p, c, m.env, m.outcome, n.env.checkedAt);
  }

  lemma {:induction false} AtMostOneWriteEach(p: Platform, c: Cluster, moves: seq<Move>)
    ensures SecretWrites(Writes(p, c, moves)) <= |moves|
    decreases |moves|
  {
    if moves != [] {
      var m := moves[0];
      AtMostOneWriteEach(p, Apply(p, c, m), moves[1..]);
      if m.Reconciled? {
        SecretWritesOfAPass(p, c, m.env, m.outcome);
        SecretWritesConcat(Step(p, c, m.env, m.outcome).writes, Writes(p, Apply(p, c, m), moves[1..]));
      } else {
        SecretWritesConcat([], Writes(p, Apply(p, c, m), moves[1..]));
      }
    }
  }

  lemma SecretWritesOfAPass(p: Platform, c: Cluster, env: Env, outcome: Result<Signer.Provisioned, Error>)
    ensures SecretWrites(Step(p, c, env, outcome).writes) == if Published(p, c, env, outcome).Some? then 1 else 0
  {
    hide IssuanceNeeded, IssueOutcome, SetCondition;
    var ws := Step(p, c, env, outcome).writes;
    assert ws == [] || ws == [StatusWrite] || ws == [SecretWrite] || ws == [SecretWrite] + [StatusWrite];
    SecretWritesConcat([SecretWrite], [StatusWrite]);
    assert SecretWrites([SecretWrite]) == 1 && SecretWrites([StatusWrite]) == 0;
  }

  lemma WritesOfTheFirst(p: Platform, c: Cluster, moves: seq<Move>)
    requires moves != [] && moves[0].Reconciled?
    ensures SecretWrites(Writes(p, c, moves)) ==
      (if Published(p, c, moves[0].env, moves[0].outcome).Some? then 1 else 0)
      + SecretWrites(Writes(p, Apply(p, c, moves[0]), moves[1..]))
  {
    var m := moves[0];
    SecretWritesOfAPass(p, c, m.env, m.outcome);
    SecretWritesConcat(Step(p, c, m.env, m.outcome).writes, Writes(p, Apply(p, c, m), moves[1..]));
  }

  // Of passes that can all do what they need to, every single one issues and writes the
  // Secret exactly when each look fails to accept what the pass before got.
  lemma {:induction false} EveryPassIssuesIffNeverAccepted(p: Platform, c: Cluster, moves: seq<Move>)
    requires p.Valid() && SplitsWell(p.pki) && AllAllowed(p, c, moves) && Capable(p, c.spec, moves)
    requires moves != [] ==> NeededFor(p, c, moves[0])
    ensures SecretWrites(Writes(p, c, moves)) == |moves| <==> NeverAccepted(p, c.spec, moves)
    decreases |moves|
  {
    if moves != [] {
      var m, rest := moves[0], moves[1..];
      assert m in moves && forall n :: n in rest ==> n in moves;
      NeededPassIssues(p, c, m);
      var next := Apply(p, c, m);
      PassWritesWhatItPublishes(p, c, m.env, m.outcome);
      WritesOfTheFirst(p, c, moves);
      if rest != [] {
        assert rest[0] in rest;
        NextPassIssuesIffNotAccepted(p, c, m, rest[0]);
        NeverAcceptedStep(p, c.spec, moves);
        if NotAccepted(p, c.spec, m, rest[0]) {
          EveryPassIssuesIffNeverAccepted(p, next, rest);
        } else {
          WritesOfTheFirst(p, next, rest);
          AtMostOneWriteEach(p, Apply(p, next, rest[0]), rest[1..]);
        }
      }
    }
  }

  lemma NeverAcceptedStep(p: Platform, spec: Spec, moves: seq<Move>)
    requires Capable(p, spec, moves) && |moves| > 1
    ensures Capable(p, spec, moves[1..])
    ensures NeverAccepted(p, spec, moves) <==>
      NotAccepted(p, spec, moves[0], moves[1]) && NeverAccepted(p, spec, moves[1..])
  {
    var rest := moves[1..];
    assert forall n :: n in rest ==> n in moves;
    if NeverAccepted(p, spec, moves) {
      forall i | 0 <= i < |rest| - 1 ensures NotAccepted(p, spec, rest[i], rest[i + 1]) {
        assert rest[i] == moves[i + 1] && rest[i + 1] == moves[i + 1 + 1];
      }
    }
    if NotAccepted(p, spec, moves[0], moves[1]) && NeverAccepted(p, spec, rest) {
      forall i | 0 <= i < |moves| - 1 ensures NotAccepted(p, spec, moves[i], moves[i + 1]) {
        if i > 0 {
          assert moves[i] == rest[i - 1] && moves[i + 1] == rest[i - 1 + 1];
        }
      }
    }
  }

  // An authority that strips the organization: every single pass issues again.
  lemma StrippedOrganizationNeverRests(p: Platform, c: Cluster, moves: seq<Move>)
    requires p.Valid() && SplitsWell(p.pki) && AllAllowed(p, c, moves) && Capable(p, c.spec, moves)
    requires moves != [] ==> NeededFor(p, c, moves[0])
    requires c.spec.subject.organization != ""
    requires forall m :: m in moves ==> m.outcome.value.bundle.leaf.names.organization == []
    ensures SecretWrites(Writes(p, c, moves)) == |moves|
  {
    forall i | 0 <= i < |moves| - 1 ensures NotAccepted(p, c.spec, moves[i], moves[i + 1]) {
      assert moves[i] in moves && moves[i + 1] in moves;
      StrippedOrganizationIsRefused(p, c.spec, moves[i].outcome.value.bundle.leaf, moves[i + 1].env.checkedAt);
    }
    EveryPassIssuesIffNeverAccepted(p, c, moves);
  }

  // So does every pass when the renewal lead reaches the lifetime of what is issued, the
  // validity of which has begun by the time of the next look.
  lemma OverlongLeadNeverRests(p: Platform, c: Cluster, moves: seq<Move>)
    requires p.Valid() && SplitsWell(p.pki) && AllAllowed(p, c, moves) && Capable(p, c.spec, moves)
    requires moves != [] ==> NeededFor(p, c, moves[0])
    requires c.spec.renewBefore.Some? && c.spec.renewBefore.value > 0
    requires forall i :: 0 <= i < |moves| ==> Outlasts(p, c.spec, moves, i)
    ensures SecretWrites(Writes(p, c, moves)) == |moves|
  {
    forall i | 0 <= i < |moves| - 1 ensures NotAccepted(p, c.spec, moves[i], moves[i + 1]) {
      assert moves[i] in moves && moves[i + 1] in moves;
      assert Outlasts(p, c.spec, moves, i);
      OverlongLeadIsRefused(p, c.spec, moves[i].outcome.value.bundle.leaf, moves[i + 1].env.checkedAt);
    }
    EveryPassIssuesIffNeverAccepted(p, c, moves);
  }

  ghost predicate Outlasts(p: Platform, spec: Spec, moves: seq<Move>, i: nat)
    requires Capable(p, spec, moves) && i < |moves| && spec.renewBefore.Some?
  {
    var leaf := moves[i].outcome.value.bundle.leaf;
    && leaf.notAfter - leaf.notBefore <= spec.renewBefore.value
    && (i < |moves| - 1 ==> leaf.notBefore <= moves[i + 1].env.checkedAt)
  }

  // No look that can read the Secret comes after the renewal instant of what any pass
  // before it got, and the authority kept the subject each time.
  ghost predicate BeforeRenewal(p: Platform, spec: Spec, moves: seq<Move>) {
    && (forall m :: m in moves ==> m.Reconciled? && m.env.resource == Present && m.env.secretReadable)
    && (forall i, j :: 0 <= i < j < |moves| && moves[i].outcome.Ok? ==>
         var leaf := moves[i].outcome.value.bundle.leaf;
         SubjectKept(p.text, leaf.names, spec) && moves[j].env.checkedAt < LeafRenewal(leaf, spec.renewBefore))
  }

  lemma PublishedIsTheAnswer(p: Platform, c: Cluster, m: Move)
    requires m.Reconciled? && Published(p, c, m.env, m.outcome).Some?
    ensures m.outcome.Ok? && Published(p, c, m.env, m.outcome).value.provisioned == m.outcome.value
  {
    hide IssuanceNeeded;
  }

  lemma QuietAfterIssue(p: Platform, c: Cluster, moves: seq<Move>)
    requires p.Valid() && SplitsWell(p.pki) && WellFormed(p.text, c.spec)
    requires |moves| > 1 && BeforeRenewal(p, c.spec, moves) && Allowed(p, c, moves[0])
    requires Published(p, c, moves[0].env, moves[0].outcome).Some?
    ensures SecretWrites(Writes(p, Apply(p, c, moves[0]), moves[1..])) == 0
  {
    var m, rest := moves[0], moves[1..];
    PublishedIsTheAnswer(p, c, m);
    var leaf := m.outcome.value.bundle.leaf;
    assert moves[1].env.checkedAt < LeafRenewal(leaf, c.spec.renewBefore) && SubjectKept(p.text, leaf.names, c.spec);
    forall n | n in rest ensures n.Reconciled? && QuietEnv(n.env, LeafRenewal(leaf, c.spec.renewBefore)) {
      var j :| 0 <= j < |rest| && rest[j] == n;
      assert moves[j + 1] == n && n in moves;
    }
    IssueThenQuiet(p, c, m.env, m.outcome, rest);
    assert SecretWrites([StatusWrite]) == SecretWrites([]) == 0;
  }

  // From any cluster, whatever the Secret holds and whatever calls, writes and updates
  // fail: for a well-formed spec and an authority that keeps the subject, all passes before
  // renewal together issue at most once.
  lemma {:induction false} AtMostOneIssue(p: Platform, c: Cluster, moves: seq<Move>)
    requires p.Valid() && SplitsWell(p.pki) && AllAllowed(p, c, moves)
    requires WellFormed(p.text, c.spec) && BeforeRenewal(p, c.spec, moves)
    ensures SecretWrites(Writes(p, c, moves)) <= 1
    decreases |moves|
  {
    if moves != [] {
      var m, rest := moves[0], moves[1..];
      assert m in moves && forall n :: n in rest ==> n in moves;
      WritesOfTheFirst(p, c, moves);
      PassWritesWhatItPublishes(p, c, m.env, m.outcome);
      if Published(p, c, m.env, m.outcome).Some? && rest != [] {
        QuietAfterIssue(p, c, moves);
      } else {
        LaterMovesBeforeRenewal(p, c.spec, moves);
        AtMostOneIssue(p, Apply(p, c, m), rest);
        assert rest == [] ==> Writes(p, Apply(p, c, m), rest) == [];
      }
    }
  }

  lemma LaterMovesBeforeRenewal(p: Platform, spec: Spec, moves: seq<Move>)
    requires moves != [] && BeforeRenewal(p, spec, moves)
    ensures BeforeRenewal(p, spec, moves[1..])
  {
    var rest := moves[1..];
    assert forall n :: n in rest ==> n in moves;
    forall i, j | 0 <= i < j < |rest| && rest[i].outcome.Ok?
      ensures var leaf := rest[i].outcome.value.bundle.leaf;
        SubjectKept(p.text, leaf.names, spec) && rest[j].env.checkedAt < LeafRenewal(leaf, spec.renewBefore)
    {
      assert rest[i] == moves[i + 1] && rest[j] == moves[j + 1];
    }
  }

  // A Secret that cannot be read is replaced, good as it may be.
  lemma UnreadableSecretIsReplaced(p: Platform, c: Cluster, m: Move)
    requires m.Reconciled? && m.env.resource == Present && !m.env.secretReadable
    requires m.env.writable && Prepare(c.spec, m.env).Ok?
    requires m.outcome.Ok? && p.pki.splitChain(m.outcome.value.bundle.chainPEM).Some?
    ensures SecretWrites(Step(p, c, m.env, m.outcome).writes) == 1
    ensures Apply(p, c, m).issued.Some? && Apply(p, c, m).issued.value.provisioned == m.outcome.value
  {
    NeededPassIssues(p, c, m);
    PassWritesWhatItPublishes(p, c, m.env, m.outcome);
  }

  // A certificate without the organization asked for is refused, however good its names.
  lemma StrippedOrganizationIsRefused(p: Platform, spec: Spec, leaf: Cert, now: int)
    requires spec.subject.organization != "" && leaf.names.organization == []
    ensures Refused(p, spec, leaf, now)
  {
    MatchesSpecMeansMatching(p.text, leaf.names, spec);
  }

  // For every spec that is not well-formed there is a certificate that is accepted on
  // issuing and refused at any time after.
  lemma IllFormedSpecIsNeverSettled(p: Platform, spec: Spec, password: string, leaf: Cert, now: int)
    requires p.Valid() && !WellFormed(p.text, spec)
    requires leaf.names == LeastAccepted(p.text, spec)
    ensures ProvisionCovered(p.text, RequestOf(spec, password), leaf.names)
    ensures Refused(p, spec, leaf, now)
  {
    LeastAcceptedIsAccepted(p.text, spec, password);
    MatchesSpecMeansMatching(p.text, leaf.names, spec);
    if NamesMatch(p.text, leaf.names, spec) {
      LeastAcceptedMatchesOnlyWellFormed(p.text, spec);
    }
  }

  // So is any certificate once the renewal lead reaches its lifetime.
  lemma OverlongLeadIsRefused(p: Platform, spec: Spec, leaf: Cert, now: int)
    requires spec.renewBefore.Some? && spec.renewBefore.value > 0 && leaf.notAfter - leaf.notBefore <= spec.renewBefore.value
    requires now >= leaf.notBefore
    ensures Refused(p, spec, leaf, now)
  {}

  // ---------- renewal ----------

  // The pass returns no error and asks to be called again after a delay.
  predicate EndsWell(pass: Pass) {
    pass.error.None? && pass.requeue.Some?
  }

  // The renewal instant of the certificate in the Secret.
  function RenewalOf(p: Platform, c: Cluster): Option<int> {
    if c.secret.None? then None
    else
      match p.pki.leafOf(Entry(c.secret.value, TLS_CERT))
      case None => None
      case Some(leaf) => Some(LeafRenewal(leaf, c.spec.renewBefore))
  }

  function Later(a: int, b: int): int {
    if a < b then b else a
  }

  // A pass that finds the Secret good ends well, unless it loses a status update it has to
  // make; then it returns that error and leaves everything as it was.
  lemma ContentPassEnds(p: Platform, c: Cluster, env: Env, outcome: Result<Signer.Provisioned, Error>)
    requires env.resource == Present && IssuanceNeeded(p, c, env.secretReadable, env.checkedAt).Current?
    ensures var pass := Step(p, c, env, outcome);
      var news := WithReady(c.status, Ready(c.generation, true, "Issued", HOLDS_CURRENT), env.stampedAt) != c.status;
      && (EndsWell(pass) <==> env.updatable || !news)
      && (!EndsWell(pass) ==> pass == Pass(c, None, Some(UPDATE_FAILED), []))
  {}

  // A pass that issues ends well likewise, and its Secret is written either way.
  lemma IssuingPassEnds(p: Platform, c: Cluster, env: Env, outcome: Result<Signer.Provisioned, Error>)
    requires Published(p, c, env, outcome).Some? && env.updatable
    ensures EndsWell(Step(p, c, env, outcome))
  {}

  // So every pass that can do all it needs to ends well.
  lemma CapablePassEndsWell(p: Platform, c: Cluster, m: Move)
    requires Capable(p, c.spec, [m]) && m.env.updatable
    ensures EndsWell(Step(p, c, m.env, m.outcome))
  {
    assert m in [m];
    if NeededFor(p, c, m) {
      NeededPassIssues(p, c, m);
      IssuingPassEnds(p, c, m.env, m.outcome);
    } else {
      ContentPassEnds(p, c, m.env, m.outcome);
    }
  }

  // The Secret holds certificate and key, and the certificate matches the spec.
  predicate Accepted(p: Platform, c: Cluster) {
    && c.secret.Some?
    && Entry(c.secret.value, TLS_CERT) != "" && Entry(c.secret.value, TLS_KEY) != ""
    && var leaf := p.pki.leafOf(Entry(c.secret.value, TLS_CERT));
      leaf.Some? && MatchesSpec(p.text, leaf.value.names, c.spec).None?
  }

  // A look that can read the Secret decides by these two alone.
  lemma SecretDecides(p: Platform, c: Cluster, now: int)
    requires RenewalOf(p, c).Some?
    ensures var renewAt := RenewalOf(p, c).value;
      IssuanceNeeded(p, c, true, now) == if Accepted(p, c) && now < renewAt then Current(renewAt) else Needed
  {}

  lemma GoodSecretIsAccepted(p: Platform, c: Cluster, readable: bool, now: int)
    requires IssuanceNeeded(p, c, readable, now).Current?
    ensures readable && Accepted(p, c) && RenewalOf(p, c) == Some(IssuanceNeeded(p, c, readable, now).renewAt)
  {}

  lemma IssuedSecretHasRenewal(p: Platform, c: Cluster, env: Env, outcome: Result<Signer.Provisioned, Error>)
    requires p.Valid() && SplitsWell(p.pki) && HonestFor(p, c, env, outcome) && Published(p, c, env, outcome).Some?
    ensures var issue, next := Published(p, c, env, outcome).value, Step(p, c, env, outcome).cluster;
      RenewalOf(p, next) == Some(LeafRenewal(issue.provisioned.bundle.leaf, issue.renewBefore))
  {
    PublishingEstablishesPairInvariant(p, c, env, outcome);
    PublishedComesFromOneProvision(p, c, env, outcome);
    PassWritesWhatItPublishes(p, c, env, outcome);
    PairIsUsable(p, Step(p, c, env, outcome).cluster);
    hide PairInvariant, HonestFor, Step, Published, LeafRenewal;
  }

  // A pass ends well only by finding the Secret good or by issuing.
  lemma EndingWellHasReason(p: Platform, c: Cluster, env: Env, outcome: Result<Signer.Provisioned, Error>)
    requires EndsWell(Step(p, c, env, outcome))
    ensures var issue, need := Published(p, c, env, outcome), IssuanceNeeded(p, c, env.secretReadable, env.checkedAt);
      && env.resource == Present && (issue.None? <==> need.Current?)
      && Step(p, c, env, outcome).requeue == Some(Until(
           if issue.Some? then Some(LeafRenewal(issue.value.provisioned.bundle.leaf, issue.value.renewBefore))
           else Some(need.renewAt), env.scheduledAt))
  {
    hide IssuanceNeeded, IssueOutcome, SetCondition, LeafRenewal, Until, IsPermanent, Written;
  }

  // It asks for the renewal instant of the certificate it leaves in the Secret.
  lemma EndingWellSchedules(p: Platform, c: Cluster, env: Env, outcome: Result<Signer.Provisioned, Error>)
    requires p.Valid() && SplitsWell(p.pki) && HonestFor(p, c, env, outcome)
    requires EndsWell(Step(p, c, env, outcome))
    ensures var pass := Step(p, c, env, outcome);
      && RenewalOf(p, pass.cluster).Some?
      && pass.requeue == Some(Until(RenewalOf(p, pass.cluster), env.scheduledAt))
      && (Published(p, c, env, outcome).None? ==> Accepted(p, pass.cluster))
  {
    EndingWellHasReason(p, c, env, outcome);
    PassWritesWhatItPublishes(p, c, env, outcome);
    if Published(p, c, env, outcome).Some? {
      IssuedSecretHasRenewal(p, c, env, outcome);
    } else {
      GoodSecretIsAccepted(p, c, env.secretReadable, env.checkedAt);
    }
    hide IssuanceNeeded, Step, Published, HonestFor, LeafRenewal, Until;
  }

  // After a pass that ends well, one that issued or one that was content: looks before the
  // renewal instant are content exactly when the certificate matches; looks from then on
  // find issuing needed; and the look it asks for is one of those, unless the wait is more
  // than a duration can express, and no more than a second late.
  lemma NoMissedOrEarlyRenewal(p: Platform, c: Cluster, env: Env, outcome: Result<Signer.Provisioned, Error>)
    requires p.Valid() && SplitsWell(p.pki) && HonestFor(p, c, env, outcome)
    requires EndsWell(Step(p, c, env, outcome))
    ensures var pass := Step(p, c, env, outcome);
      RenewalOf(p, pass.cluster).Some? &&
      var renewAt, wake := RenewalOf(p, pass.cluster).value, env.scheduledAt + pass.requeue.value;
      && (forall now :: IssuanceNeeded(p, pass.cluster, true, now) ==
           if Accepted(p, pass.cluster) && now < renewAt then Current(renewAt) else Needed)
      && (Published(p, c, env, outcome).None? ==> Accepted(p, pass.cluster))
      && env.scheduledAt + NS_PER_SECOND <= wake <= Later(renewAt, env.scheduledAt) + NS_PER_SECOND
      && (wake >= renewAt <==> renewAt - env.scheduledAt <= MAX_INT64)
  {
    EndingWellSchedules(p, c, env, outcome);
    var next := Step(p, c, env, outcome).cluster;
    forall now ensures IssuanceNeeded(p, next, true, now) ==
      if Accepted(p, next) && now < RenewalOf(p, next).value then Current(RenewalOf(p, next).value) else Needed
    {
      SecretDecides(p, next, now);
    }
    hide IssuanceNeeded, Step, Published, HonestFor, RenewalOf, Accepted;
  }

  // Two passes in a row, of which the first ends well.
  predicate Asked(p: Platform, c: Cluster, moves: seq<Move>) {
    && |moves| > 1 && moves[0].Reconciled? && moves[1].Reconciled?
    && EndsWell(Step(p, c, moves[0].env, moves[0].outcome))
  }

  // Every pass comes no later than the one before asked for.
  ghost predicate Prompt(p: Platform, c: Cluster, moves: seq<Move>)
    decreases |moves|
  {
    moves == [] || (
      && (Asked(p, c, moves) ==>
           moves[1].env.checkedAt <=
             moves[0].env.scheduledAt + Step(p, c, moves[0].env, moves[0].outcome).requeue.value)
      && Prompt(p, Apply(p, c, moves[0]), moves[1..]))
  }

  // Every such look comes at most a second after the renewal instant of the certificate it
  // finds, or after the pass before was done when that was later.
  ghost predicate InTime(p: Platform, c: Cluster, moves: seq<Move>)
    decreases |moves|
  {
    moves == [] || (
      var next := Apply(p, c, moves[0]);
      && (Asked(p, c, moves) ==>
           && RenewalOf(p, next).Some?
           && moves[1].env.checkedAt <= Later(RenewalOf(p, next).value, moves[0].env.scheduledAt) + NS_PER_SECOND)
      && InTime(p, next, moves[1..]))
  }

  // Over whole runs, with any answers, failures and edits, no renewal is missed.
  lemma {:induction false} PromptRunsAreInTime(p: Platform, c: Cluster, moves: seq<Move>)
    requires p.Valid() && SplitsWell(p.pki) && AllAllowed(p, c, moves) && Prompt(p, c, moves)
    ensures InTime(p, c, moves)
    decreases |moves|
  {
    if moves != [] {
      if Asked(p, c, moves) {
        NoMissedOrEarlyRenewal(p, c, moves[0].env, moves[0].outcome);
      }
      PromptRunsAreInTime(p, Apply(p, c, moves[0]), moves[1..]);
    }
  }

  // ---------- a lost status update ----------

  // The Secret was written but the update of the status was lost: as long as the Secret
  // stays good nothing repairs the record, which is still that of before the issue.
  lemma StatusAfterALostUpdate(p: Platform, c: Cluster, env: Env, outcome: Result<Signer.Provisioned, Error>,
      moves: seq<Move>)
    requires p.Valid() && SplitsWell(p.pki) && HonestFor(p, c, env, outcome)
    requires Published(p, c, env, outcome).Some? && !env.updatable
    requires var leaf := Published(p, c, env, outcome).value.provisioned.bundle.leaf;
      MatchesSpec(p.text, leaf.names, c.spec).None? && AllQuiet(moves, LeafRenewal(leaf, c.spec.renewBefore))
    ensures var last := After(p, Step(p, c, env, outcome).cluster, moves);
      && Record(last.status) == Record(c.status) && last.issued == Published(p, c, env, outcome)
      && (Described(last) <==> RecordOf(last.issued.value) == Record(c.status))
  {
    var next := Step(p, c, env, outcome).cluster;
    var renewAt := LeafRenewal(Published(p, c, env, outcome).value.provisioned.bundle.leaf, c.spec.renewBefore);
    forall now ensures IssuanceNeeded(p, next, true, now) == if now < renewAt then Current(renewAt) else Needed {
      NextLookAfterIssue(p, c, env, outcome, now);
    }
    PassWritesWhatItPublishes(p, c, env, outcome);
    PassRecordsWhatItPublishes(p, c, env, outcome);
    QuietRun(p, next, moves, renewAt);
  }
}
