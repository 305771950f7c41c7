// One pass in plain terms: what it looks at, asks for, writes and reports, by the entries of
// the Secret, the fields of the spec and those of the status.
module Passes {
  import opened Basics
  import opened Text
  import opened Errors
  import opened Certificates
  import opened Chain
  import opened Api
  import opened NameChecks
  import opened Renewal
  import opened Conditions
  import opened Client
  import opened Protocol
  import opened Reconciler
  import opened Runs
  import Signer

  // ---------- the look ----------

  // The certificate is not due: its end is further off than the configured lead or, without
  // one, than a third of its lifetime as far as a duration can express it.
  predicate NotYetDue(leaf: Cert, renewBefore: Option<int>, now: int) {
    var lifetime := leaf.notAfter - leaf.notBefore;
    var lead :=
      if renewBefore.Some? && renewBefore.value > 0 then renewBefore.value
      else if lifetime >= 0 then (if lifetime > 0x7FFF_FFFF_FFFF_FFFF then 0x7FFF_FFFF_FFFF_FFFF else lifetime) / 3
      else -((if -lifetime > 0x8000_0000_0000_0000 then 0x8000_0000_0000_0000 else -lifetime) / 3);
    now < leaf.notAfter - lead
  }

  lemma NotYetDueMeansRenewalAhead(leaf: Cert, renewBefore: Option<int>, now: int)
    ensures NotYetDue(leaf, renewBefore, now) <==> now < LeafRenewal(leaf, renewBefore)
  {}

  // The certificate bears the common name, every DNS name and IP address, and the
  // organization and unit that are asked for.
  ghost predicate AsSpecified(text: Text, issued: Names, spec: Spec) {
    && text.EqualFold(issued.commonName, spec.commonName)
    && (forall n :: n in spec.dnsNames ==> text.ContainsFold(issued.dnsNames, n))
    && (forall a :: a in spec.ipAddresses ==> text.parseIP(a).Some? && text.parseIP(a).value in issued.ipAddresses)
    && (spec.subject.organization != "" ==> text.ContainsFold(issued.organization, spec.subject.organization))
    && (spec.subject.organizationalUnit != "" ==>
         text.ContainsFold(issued.organizationalUnit, spec.subject.organizationalUnit))
  }

  lemma MatchingIsAsSpecified(text: Text, issued: Names, spec: Spec)
    ensures MatchesSpec(text, issued, spec).None? <==> AsSpecified(text, issued, spec)
  {
    MatchesSpecMeansMatching(text, issued, spec);
    if NamesMatch(text, issued, spec) {
      assert forall n :: n in spec.dnsNames ==> text.ContainsFold(issued.dnsNames, n);
    }
    if AsSpecified(text, issued, spec) {
      assert forall i :: 0 <= i < |spec.dnsNames| ==> spec.dnsNames[i] in spec.dnsNames;
      assert forall i :: 0 <= i < |spec.ipAddresses| ==> spec.ipAddresses[i] in spec.ipAddresses;
    }
  }

  // A look finds nothing to do exactly when it can read the Secret, both entries are there,
  // and the certificate is as specified and not yet due.
  lemma LookInPlainTerms(p: Platform, c: Cluster, readable: bool, now: int)
    ensures IssuanceNeeded(p, c, readable, now).Current? ==>
      && readable && c.secret.Some?
      && "tls.crt" in c.secret.value && "tls.key" in c.secret.value
      && p.pki.leafOf(c.secret.value["tls.crt"]).Some?
    ensures readable && c.secret.Some? && "tls.crt" in c.secret.value && "tls.key" in c.secret.value ==>
      var certPEM, leaf := c.secret.value["tls.crt"], p.pki.leafOf(c.secret.value["tls.crt"]);
      leaf.Some? ==>
        (IssuanceNeeded(p, c, readable, now).Current? <==>
          && certPEM != "" && c.secret.value["tls.key"] != ""
          && AsSpecified(p.text, leaf.value.names, c.spec) && NotYetDue(leaf.value, c.spec.renewBefore, now))
  {
    if readable && c.secret.Some? && "tls.crt" in c.secret.value {
      var leaf := p.pki.leafOf(c.secret.value["tls.crt"]);
      if leaf.Some? {
        MatchingIsAsSpecified(p.text, leaf.value.names, c.spec);
        NotYetDueMeansRenewalAhead(leaf.value, c.spec.renewBefore, now);
      }
    }
    hide MatchesSpec, AsSpecified, NotYetDue, LeafRenewal;
  }

  // ---------- the request ----------

  // The request carries the spec, field by field, and the password.
  predicate CarriesSpec(r: ProvisionRequest, spec: Spec, password: string) {
    && r.commonName == spec.commonName && r.altNames == spec.dnsNames + spec.ipAddresses
    && r.organization == spec.subject.organization && r.organizationalUnit == spec.subject.organizationalUnit
    && r.location == spec.subject.locality && r.state == spec.subject.province && r.country == spec.subject.country
    && r.keyAlgorithm == spec.privateKey.algorithm && r.signatureAlgorithm == spec.privateKey.signatureAlgorithm
    && r.keyLength == (match spec.privateKey.size case Some(n) => n case None => 0)
    && r.storeType == spec.privateKey.storeType && r.exportFileType == ""
    && r.validityType == spec.validityType && r.validityDays == spec.validityDays
    && r.password == password
  }

  // The password is a fresh one or, when the spec names a Secret, what that holds under the
  // key named, or under "password", without the space around it.
  predicate PasswordFor(spec: Spec, env: Env, password: string) {
    match spec.passwordRef
    case None => env.randomPassword == Some(password)
    case Some(ref) =>
      var key := if ref.key == "" then "password" else ref.key;
      && env.passwordSecret.Some? && key in env.passwordSecret.value
      && password == TrimSpace(env.passwordSecret.value[key]) && password != ""
  }

  // Everything before the first call is there.
  predicate Equipped(spec: Spec, env: Env) {
    && spec.issuerKind in {"", "KMPIssuer", "KMPClusterIssuer"}
    && env.issuerReadable && env.authReadable && env.builderFailure.None?
    && match spec.passwordRef
       case None => env.randomPassword.Some?
       case Some(ref) =>
         var key := if ref.key == "" then "password" else ref.key;
         env.passwordSecret.Some? && key in env.passwordSecret.value && TrimSpace(env.passwordSecret.value[key]) != ""
  }

  lemma PreparedInPlainTerms(spec: Spec, env: Env)
    ensures Prepare(spec, env).Ok? <==> Equipped(spec, env)
    ensures Prepare(spec, env).Ok? ==>
      var (request, generated) := Prepare(spec, env).value;
      && PasswordFor(spec, env, request.password) && CarriesSpec(request, spec, request.password)
      && generated == spec.passwordRef.None?
  {
    TrimSpaceTrims("");
    hide TrimSpace;
  }

  // The first call of a pass, if it makes any, creates the request the spec asks for.
  lemma RequestInPlainTerms(p: Platform, spec: Spec, env: Env, ctx: Context, es: seq<Event>,
      outcome: Result<Signer.Provisioned, Error>)
    requires Prepare(spec, env).Ok? && Answers(p, Prepare(spec, env).value.0, ctx, es, outcome) && es != []
    ensures es[0].call.CreateCSR? && PasswordFor(spec, env, es[0].call.request.password)
    ensures CarriesSpec(es[0].call.request, spec, es[0].call.request.password)
  {
    var request := Prepare(spec, env).value.0;
    PreparedInPlainTerms(spec, env);
    Signer.ProvisionMakesItsCalls(p, ctx.opts, request);
    assert ctx == Context(p, ctx.opts, Provisioning(request));
    hide Prepare, CarriesSpec, PasswordFor, Signer.Final, Signer.ProvisionedWell, Signer.Classified;
    assert Signer.CallOfProvision(p, ctx.opts, request, es, 0);
  }

  // ---------- what is written ----------

  // A pass issues exactly when a look finds it needed, it is equipped, the calls yield key
  // and certificate, the chain splits and the Secret can be written.
  lemma PublishingInPlainTerms(p: Platform, c: Cluster, env: Env, outcome: Result<Signer.Provisioned, Error>)
    ensures Published(p, c, env, outcome).Some? <==>
      && env.resource == Present && IssuanceNeeded(p, c, env.secretReadable, env.checkedAt).Needed?
      && Equipped(c.spec, env) && outcome.Ok? && p.pki.splitChain(outcome.value.bundle.chainPEM).Some? && env.writable
  {
    PreparedInPlainTerms(c.spec, env);
    hide IssuanceNeeded, Prepare, Equipped;
  }

  // The entry after an issue: a new value, or what was there.
  ghost predicate EntryIs(next: SecretData, was: Option<SecretData>, key: string, value: string, replaced: bool) {
    if replaced then key in next && next[key] == value
    else (key in next <==> was.Some? && key in was.value) && (key in next ==> next[key] == was.value[key])
  }

  // What such a pass leaves in the Secret: the certificates up to the leaf's issuer, the
  // key, the CA if the chain has one, the password if it was generated, and everything else
  // as it was.
  lemma SecretInPlainTerms(p: Platform, c: Cluster, env: Env, outcome: Result<Signer.Provisioned, Error>)
    requires Published(p, c, env, outcome).Some?
    ensures var next := Step(p, c, env, outcome).cluster.secret;
      var v := outcome.value;
      var (chain, ca) := p.pki.splitChain(v.bundle.chainPEM).value;
      && next.Some?
      && EntryIs(next.value, c.secret, "tls.crt", chain, true) && EntryIs(next.value, c.secret, "tls.key", v.keyPEM, true)
      && EntryIs(next.value, c.secret, "ca.crt", ca, ca != "")
      && (if c.spec.passwordRef.None? then EntryIs(next.value, c.secret, "keystore-password", env.randomPassword.value, true)
          else EntryIs(next.value, c.secret, "keystore-password", "", false))
      && forall key :: key !in {"tls.crt", "tls.key", "ca.crt", "keystore-password"} ==>
           EntryIs(next.value, c.secret, key, "", false)
  {
    PassWritesWhatItPublishes(p, c, env, outcome);
    PublishingInPlainTerms(p, c, env, outcome);
    PreparedInPlainTerms(c.spec, env);
    var issue := Published(p, c, env, outcome).value;
    assert issue.provisioned == outcome.value && issue.generated == c.spec.passwordRef.None?;
    assert Some((issue.chainPEM, issue.caPEM)) == p.pki.splitChain(outcome.value.bundle.chainPEM);
    assert c.spec.passwordRef.None? ==> env.randomPassword == Some(issue.request.password);
    hide Step, Published, Prepare, Equipped, PasswordFor, CarriesSpec;
    WrittenInPlainTerms(c.secret, issue);
  }

  lemma WrittenInPlainTerms(was: Option<SecretData>, issue: Issue)
    ensures var next := Written(was, issue);
      && EntryIs(next, was, "tls.crt", issue.chainPEM, true) && EntryIs(next, was, "tls.key", issue.provisioned.keyPEM, true)
      && EntryIs(next, was, "ca.crt", issue.caPEM, issue.caPEM != "")
      && EntryIs(next, was, "keystore-password", issue.request.password, issue.generated)
      && forall key :: key !in {"tls.crt", "tls.key", "ca.crt", "keystore-password"} ==> EntryIs(next, was, key, "", false)
  {
    assert |"tls.crt"| == 7 && |"tls.key"| == 7 && |"ca.crt"| == 6 && |"keystore-password"| == 17;
    assert "tls.crt"[4] == 'c' && "tls.key"[4] == 'k';
  }

  // ---------- what is recorded ----------

  // A status tells of an issue exactly when its record is that of the issue.
  lemma RecordTells(s: Status, issue: Issue)
    ensures Record(s) == RecordOf(issue) <==> Tells(s, issue.provisioned, issue.renewBefore)
  {
    var r := Record(s);
    assert r.serialNumber == s.serialNumber && r.csrID == s.csrID && r.notBefore == s.notBefore;
    assert r.notAfter == s.notAfter && r.renewalTime == s.renewalTime && r.conditions == [];
  }

  // After any run the status tells of the last issue whose update went through, and says
  // what it said before if there was none.
  lemma StatusInPlainTerms(p: Platform, c: Cluster, moves: seq<Move>)
    ensures var s, issue := After(p, c, moves).status, LastRecorded(p, c, moves);
      match issue
      case Some(i) =>
        var leaf := i.provisioned.bundle.leaf;
        && s.serialNumber == i.provisioned.serialNumber && s.csrID == i.provisioned.csrID
        && s.notBefore == Some(leaf.notBefore) && s.notAfter == Some(leaf.notAfter)
        && s.renewalTime == Some(RenewalTime(leaf.notBefore, leaf.notAfter, i.renewBefore))
      case None =>
        && s.serialNumber == c.status.serialNumber && s.csrID == c.status.csrID
        && s.notBefore == c.status.notBefore && s.notAfter == c.status.notAfter && s.renewalTime == c.status.renewalTime
  {
    StatusShowsTheLastRecorded(p, c, moves);
    var s, issue := After(p, c, moves).status, LastRecorded(p, c, moves);
    if issue.Some? {
      RecordTells(s, issue.value);
    } else {
      SameRecord(s, c.status);
    }
    hide After, LastRecorded, RecordOf, Record;
  }

  lemma SameRecord(s: Status, t: Status)
    ensures Record(s) == Record(t) ==>
      && s.serialNumber == t.serialNumber && s.csrID == t.csrID
      && s.notBefore == t.notBefore && s.notAfter == t.notAfter && s.renewalTime == t.renewalTime
  {
    var r, q := Record(s), Record(t);
    assert r.serialNumber == s.serialNumber && r.csrID == s.csrID && r.notBefore == s.notBefore;
    assert r.notAfter == s.notAfter && r.renewalTime == s.renewalTime;
    assert q.serialNumber == t.serialNumber && q.csrID == t.csrID && q.notBefore == t.notBefore;
    assert q.notAfter == t.notAfter && q.renewalTime == t.renewalTime;
  }

  // What the n-th move of a run records, if it is a pass that issues and updates the status.
  function RecordedBy(p: Platform, c: Cluster, moves: seq<Move>, n: nat): Option<Issue>
    requires n < |moves|
  {
    var m := moves[n];
    if m.Reconciled? && m.env.updatable then Published(p, After(p, c, moves[..n]), m.env, m.outcome) else None
  }

  // The n-th move records the issue, and no later one records any.
  ghost predicate RecordedLastAt(p: Platform, c: Cluster, moves: seq<Move>, n: nat, issue: Issue)
    requires n < |moves|
  {
    RecordedBy(p, c, moves, n) == Some(issue) && forall j :: n < j < |moves| ==> RecordedBy(p, c, moves, j) == None
  }

  ghost predicate RecordedLast(p: Platform, c: Cluster, moves: seq<Move>, issue: Issue) {
    exists n :: 0 <= n < |moves| && RecordedLastAt(p, c, moves, n, issue)
  }

  lemma RecordedLater(p: Platform, c: Cluster, moves: seq<Move>, n: nat)
    requires 0 < n < |moves|
    ensures RecordedBy(p, c, moves, n) == RecordedBy(p, Apply(p, c, moves[0]), moves[1..], n - 1)
  {
    assert moves[..n][0] == moves[0] && moves[..n][1..] == moves[1..][..n - 1];
  }

  // The last issue whose update went through is the one a pass recorded last.
  lemma {:induction false} LastRecordedIsOfAPass(p: Platform, c: Cluster, moves: seq<Move>)
    ensures match LastRecorded(p, c, moves)
      case Some(issue) => RecordedLast(p, c, moves, issue)
      case None => forall n :: 0 <= n < |moves| ==> RecordedBy(p, c, moves, n) == None
    decreases |moves|
  {
    if moves != [] {
      var rest, next := moves[1..], Apply(p, c, moves[0]);
      LastRecordedStep(p, c, moves);
      assert moves[..0] == [] && RecordedBy(p, c, moves, 0) ==
        if moves[0].Reconciled? && moves[0].env.updatable then Published(p, c, moves[0].env, moves[0].outcome) else None;
      LastRecordedIsOfAPass(p, next, rest);
      hide LastRecorded, RecordedBy, Apply, Published;
      forall n | 0 < n < |moves| ensures RecordedBy(p, c, moves, n) == RecordedBy(p, next, rest, n - 1) {
        RecordedLater(p, c, moves, n);
      }
      var later, last := LastRecorded(p, next, rest), LastRecorded(p, c, moves);
      if later.Some? {
        var n :| 0 <= n < |rest| && RecordedLastAt(p, next, rest, n, later.value);
        assert RecordedLastAt(p, c, moves, n + 1, later.value);
      } else if last.Some? {
        assert RecordedLastAt(p, c, moves, 0, last.value);
      }
    }
  }

  lemma LastRecordedStep(p: Platform, c: Cluster, moves: seq<Move>)
    requires moves != []
    ensures LastRecorded(p, c, moves) ==
      var later := LastRecorded(p, Apply(p, c, moves[0]), moves[1..]);
      if later.Some? then later
      else if moves[0].Reconciled? && moves[0].env.updatable then Published(p, c, moves[0].env, moves[0].outcome)
      else None
  {
    hide Published, Apply;
  }

  // ---------- what is reported ----------

  function ReadyReport(c: Cluster, env: Env, need: Need, issued: bool): Report {
    if need.Current? then Report("Ready", true, "Issued", "The Secret holds a current certificate", c.generation)
    else if issued then Report("Ready", true, "Issued", "Key Manager Plus issued the certificate", c.generation)
    else Report("Ready", false, "Failed", env.failureText, c.generation)
  }

  lemma ReadyIsSet(p: Platform, c: Cluster, env: Env, outcome: Result<Signer.Provisioned, Error>)
    requires env.resource == Present && env.updatable
    ensures var need := IssuanceNeeded(p, c, env.secretReadable, env.checkedAt);
      var report := ReadyReport(c, env, need, Published(p, c, env, outcome).Some?);
      Step(p, c, env, outcome).cluster.status.conditions == SetCondition(c.status.conditions, report, env.stampedAt)
  {
    hide IssuanceNeeded, IssueOutcome, SetCondition, IsPermanent, LeafRenewal, Written;
  }

  // A pass whose update goes through leaves one Ready condition more or the first one
  // changed: true for a good or new certificate, false for a failure, with the generation of
  // the spec it saw; it moves its transition time exactly when that is a change.
  lemma ReadyInPlainTerms(p: Platform, c: Cluster, env: Env, outcome: Result<Signer.Provisioned, Error>)
    requires env.resource == Present && env.updatable
    ensures var need := IssuanceNeeded(p, c, env.secretReadable, env.checkedAt);
      var issued := Published(p, c, env, outcome).Some?;
      var was, shown := OfKind(c.status.conditions, "Ready"), OfKind(Step(p, c, env, outcome).cluster.status.conditions, "Ready");
      && shown != [] && shown[0].kind == "Ready" && shown[0].generation == c.generation
      && shown[0].status == (need.Current? || issued)
      && shown[0].reason == (if need.Current? || issued then "Issued" else "Failed")
      && shown[0].message == (if need.Current? then "The Secret holds a current certificate"
                              else if issued then "Key Manager Plus issued the certificate" else env.failureText)
      && shown[0].lastTransition == (if was != [] && was[0].status == shown[0].status then was[0].lastTransition else env.stampedAt)
  {
    var need := IssuanceNeeded(p, c, env.secretReadable, env.checkedAt);
    var issued := Published(p, c, env, outcome).Some?;
    var report := ReadyReport(c, env, need, issued);
    SetConditionSetsOne(c.status.conditions, report, env.stampedAt);
    ReadyIsSet(p, c, env, outcome);
    hide Step, SetCondition, IssuanceNeeded, Published, OfKind;
  }

  // How long it waits: a minute after a failure that is tried again, and until an instant,
  // but no less than a second.
  lemma RetryInPlainTerms(at: int, now: int)
    ensures RETRY_AFTER == 60_000_000_000 && Until(None, now) == RETRY_AFTER
    ensures var wait := if at - now > 0x7FFF_FFFF_FFFF_FFFF then 0x7FFF_FFFF_FFFF_FFFF else at - now;
      Until(Some(at), now) == if wait > 1_000_000_000 then wait else 1_000_000_000
  {}
}
