// The checks that an issued certificate carries the names asked for: on issuing
// (internal/kmp/verify.go, internal/kmp/provision.go) and on every later look at the
// Secret (matchesSpec of internal/controllers/kmpcertificate_controller.go).
module NameChecks {
  import opened Basics
  import opened Text
  import opened Errors
  import opened Certificates
  import opened Api

  // ---------- verifyRequestedNames ----------

  // Every identity of the request is among the issued ones.
  predicate RequestCovered(text: Text, requested: Names, issued: Names) {
    && (requested.commonName != "" ==> text.EqualFold(requested.commonName, issued.commonName))
    && (forall i :: 0 <= i < |requested.dnsNames| ==> text.ContainsFold(issued.dnsNames, requested.dnsNames[i]))
    && (forall i :: 0 <= i < |requested.ipAddresses| ==> requested.ipAddresses[i] in issued.ipAddresses)
    && (forall i :: 0 <= i < |requested.emails| ==> text.ContainsFold(issued.emails, requested.emails[i]))
    && (forall i :: 0 <= i < |requested.uris| ==> requested.uris[i] in issued.uris)
  }

  method MissingFold(text: Text, requested: seq<string>, issued: seq<string>) returns (missing: seq<string>)
    ensures missing == [] <==> forall i :: 0 <= i < |requested| ==> text.ContainsFold(issued, requested[i])
  {
    missing := [];
    for i := 0 to |requested|
      invariant missing == [] <==> forall j :: 0 <= j < i ==> text.ContainsFold(issued, requested[j])
    {
      if !text.ContainsFold(issued, requested[i]) {
        missing := missing + [requested[i]];
      }
    }
  }

  method Missing<T(==)>(requested: seq<T>, issued: seq<T>) returns (missing: seq<T>)
    ensures missing == [] <==> forall i :: 0 <= i < |requested| ==> requested[i] in issued
  {
    missing := [];
    for i := 0 to |requested|
      invariant missing == [] <==> forall j :: 0 <= j < i ==> requested[j] in issued
    {
      var found := false;
      for k := 0 to |issued|
        invariant !found && forall l :: 0 <= l < k ==> issued[l] != requested[i]
      {
        if issued[k] == requested[i] {
          found := true;
          break;
        }
      }
      if !found {
        missing := missing + [requested[i]];
      }
    }
  }

  method VerifyRequestedNames(text: Text, requested: Names, issued: Names) returns (err: Option<Error>)
    ensures err == None <==> RequestCovered(text, requested, issued)
    ensures err.Some? ==> IsPermanent(err.value)
  {
    var complete := requested.commonName == "" || text.EqualFold(requested.commonName, issued.commonName);
    var dns := MissingFold(text, requested.dnsNames, issued.dnsNames);
    var ips := Missing(requested.ipAddresses, issued.ipAddresses);
    var emails := MissingFold(text, requested.emails, issued.emails);
    var uris := Missing(requested.uris, issued.uris);
    if complete && |dns| == 0 && |ips| == 0 && |emails| == 0 && |uris| == 0 {
      return None;
    }
    return Some(Wrap(Plain(UnusableResponse)));
  }

  // The names hold at least those of another certificate, in any order.
  ghost predicate Extends(more: Names, fewer: Names) {
    && more.commonName == fewer.commonName
    && (forall n :: n in fewer.dnsNames ==> n in more.dnsNames)
    && (forall ip :: ip in fewer.ipAddresses ==> ip in more.ipAddresses)
    && (forall e :: e in fewer.emails ==> e in more.emails)
    && (forall u :: u in fewer.uris ==> u in more.uris)
  }

  // A certificate authority may add names and order them as it likes.
  lemma AddedNamesStayAcceptable(text: Text, requested: Names, issued: Names, more: Names)
    requires RequestCovered(text, requested, issued) && Extends(more, issued)
    ensures RequestCovered(text, requested, more)
  {
    forall i | 0 <= i < |requested.dnsNames| ensures text.ContainsFold(more.dnsNames, requested.dnsNames[i]) {
      FoldAmongMore(text, issued.dnsNames, more.dnsNames, requested.dnsNames[i]);
    }
    forall i | 0 <= i < |requested.emails| ensures text.ContainsFold(more.emails, requested.emails[i]) {
      FoldAmongMore(text, issued.emails, more.emails, requested.emails[i]);
    }
  }

  lemma FoldAmongMore(text: Text, values: seq<string>, more: seq<string>, want: string)
    requires text.ContainsFold(values, want) && forall v :: v in values ==> v in more
    ensures text.ContainsFold(more, want)
  {
    var i :| 0 <= i < |values| && text.EqualFold(values[i], want);
    assert values[i] in more;
    var k :| 0 <= k < |more| && more[k] == values[i];
    assert text.EqualFold(more[k], want);
  }

  // ---------- verifyProvisionedNames ----------

  // An alternative name is blank, an issued IP address, or an issued DNS name.
  predicate AltNameCovered(text: Text, name: string, issued: Names) {
    var n := TrimSpace(name);
    n == "" ||
    match text.parseIP(n)
    case Some(ip) => ip in issued.ipAddresses
    case None => text.ContainsFold(issued.dnsNames, n)
  }

  predicate ProvisionCovered(text: Text, req: ProvisionRequest, issued: Names) {
    && text.EqualFold(req.commonName, issued.commonName)
    && forall i :: 0 <= i < |req.altNames| ==> AltNameCovered(text, req.altNames[i], issued)
  }

  method VerifyProvisionedNames(text: Text, req: ProvisionRequest, issued: Names) returns (err: Option<Error>)
    ensures err == None <==> ProvisionCovered(text, req, issued)
    ensures err.Some? ==> IsPermanent(err.value)
  {
    var missing: seq<string> := [];
    if !text.EqualFold(req.commonName, issued.commonName) {
      missing := missing + [req.commonName];
    }
    for i := 0 to |req.altNames|
      invariant missing == [] <==>
        && text.EqualFold(req.commonName, issued.commonName)
        && forall j :: 0 <= j < i ==> AltNameCovered(text, req.altNames[j], issued)
    {
      var name := TrimSpace(req.altNames[i]);
      if name == "" {
        continue;
      }
      var ip := text.parseIP(name);
      if ip.Some? {
        var absent := Missing([ip.value], issued.ipAddresses);
        assert [ip.value][0] == ip.value;
        if |absent| > 0 {
          missing := missing + [name];
        }
        continue;
      }
      if !text.ContainsFold(issued.dnsNames, name) {
        missing := missing + [name];
      }
    }
    if |missing| == 0 {
      return None;
    }
    return Some(Wrap(Plain(UnusableResponse)));
  }

  // ---------- matchesSpec ----------

  datatype Mismatch =
    | OtherCommonName
    | NoDNSName(name: string)
    | NotAnIPAddress(address: string)
    | NoIPAddress(address: string)
    | OtherOrganization
    | OtherOrganizationalUnit

  function DNSMismatch(text: Text, wanted: seq<string>, issued: seq<string>): Option<Mismatch> {
    if wanted == [] then None
    else if !text.ContainsFold(issued, wanted[0]) then Some(NoDNSName(wanted[0]))
    else DNSMismatch(text, wanted[1..], issued)
  }

  function IPMismatch(text: Text, wanted: seq<string>, issued: seq<IP>): Option<Mismatch> {
    if wanted == [] then None
    else
      match text.parseIP(wanted[0])
      case None => Some(NotAnIPAddress(wanted[0]))
      case Some(ip) => if ip !in issued then Some(NoIPAddress(wanted[0])) else IPMismatch(text, wanted[1..], issued)
  }

  // The first way in which a certificate no longer matches the spec.
  function MatchesSpec(text: Text, issued: Names, spec: Spec): Option<Mismatch> {
    if !text.EqualFold(issued.commonName, spec.commonName) then Some(OtherCommonName)
    else
      var dns := DNSMismatch(text, spec.dnsNames, issued.dnsNames);
      if dns.Some? then dns
      else
        var ips := IPMismatch(text, spec.ipAddresses, issued.ipAddresses);
        if ips.Some? then ips
        else if spec.subject.organization != "" && !text.ContainsFold(issued.organization, spec.subject.organization) then
          Some(OtherOrganization)
        else if spec.subject.organizationalUnit != ""
          && !text.ContainsFold(issued.organizationalUnit, spec.subject.organizationalUnit) then
          Some(OtherOrganizationalUnit)
        else None
  }

  // Common name and alternative names match.
  predicate NamesMatch(text: Text, issued: Names, spec: Spec) {
    && text.EqualFold(issued.commonName, spec.commonName)
    && (forall i :: 0 <= i < |spec.dnsNames| ==> text.ContainsFold(issued.dnsNames, spec.dnsNames[i]))
    && (forall i :: 0 <= i < |spec.ipAddresses| ==>
         text.parseIP(spec.ipAddresses[i]).Some? && text.parseIP(spec.ipAddresses[i]).value in issued.ipAddresses)
  }

  // The certificate authority kept the organization and organizational unit.
  predicate SubjectKept(text: Text, issued: Names, spec: Spec) {
    && (spec.subject.organization != "" ==> text.ContainsFold(issued.organization, spec.subject.organization))
    && (spec.subject.organizationalUnit != "" ==> text.ContainsFold(issued.organizationalUnit, spec.subject.organizationalUnit))
  }

  lemma {:induction false} DNSMismatchFinds(text: Text, wanted: seq<string>, issued: seq<string>)
    ensures DNSMismatch(text, wanted, issued).None? <==> forall i :: 0 <= i < |wanted| ==> text.ContainsFold(issued, wanted[i])
  {
    if wanted != [] {
      DNSMismatchFinds(text, wanted[1..], issued);
      assert forall i :: 0 < i < |wanted| ==> wanted[i] == wanted[1..][i - 1];
    }
  }

  lemma {:induction false} IPMismatchFinds(text: Text, wanted: seq<string>, issued: seq<IP>)
    ensures IPMismatch(text, wanted, issued).None? <==>
      forall i :: 0 <= i < |wanted| ==> text.parseIP(wanted[i]).Some? && text.parseIP(wanted[i]).value in issued
  {
    if wanted != [] {
      IPMismatchFinds(text, wanted[1..], issued);
      assert forall i :: 0 < i < |wanted| ==> wanted[i] == wanted[1..][i - 1];
    }
  }

  // No mismatch is reported exactly when names and subject both match.
  lemma MatchesSpecMeansMatching(text: Text, issued: Names, spec: Spec)
    ensures MatchesSpec(text, issued, spec).None? <==> NamesMatch(text, issued, spec) && SubjectKept(text, issued, spec)
  {
    DNSMismatchFinds(text, spec.dnsNames, issued.dnsNames);
    IPMismatchFinds(text, spec.ipAddresses, issued.ipAddresses);
  }

  // ---------- the two checks agree ----------

  // DNS names are trimmed, not blank and not IP addresses; IP addresses are.
  ghost predicate WellFormed(text: Text, spec: Spec) {
    && (forall i :: 0 <= i < |spec.dnsNames| ==> WellFormedDNSName(text, spec.dnsNames[i]))
    && (forall i :: 0 <= i < |spec.ipAddresses| ==> text.parseIP(spec.ipAddresses[i]).Some?)
  }

  predicate WellFormedDNSName(text: Text, name: string) {
    name != "" && Trimmed(name) && text.parseIP(name).None?
  }

  lemma EqualFoldIsSymmetric(text: Text, s: string, t: string)
    ensures text.EqualFold(s, t) == text.EqualFold(t, s)
  {}

  lemma ChecksAgreeOnWellFormed(text: Text, spec: Spec, password: string, issued: Names)
    requires text.Valid() && WellFormed(text, spec)
    ensures ProvisionCovered(text, RequestOf(spec, password), issued) <==> NamesMatch(text, issued, spec)
  {
    var req := RequestOf(spec, password);
    var n := |spec.dnsNames|;
    EqualFoldIsSymmetric(text, req.commonName, issued.commonName);
    forall i | 0 <= i < n
      ensures AltNameCovered(text, req.altNames[i], issued) <==> text.ContainsFold(issued.dnsNames, spec.dnsNames[i])
    {
      TrimSpaceTrims(spec.dnsNames[i]);
    }
    assert forall j :: 0 <= j < |spec.ipAddresses| ==> req.altNames[n + j] == spec.ipAddresses[j];
    if ProvisionCovered(text, req, issued) {
      forall j | 0 <= j < |spec.ipAddresses| ensures text.parseIP(spec.ipAddresses[j]).value in issued.ipAddresses {
        assert AltNameCovered(text, req.altNames[n + j], issued);
      }
    }
  }

  // The trimmed DNS names among alternative names, and the IP addresses among them.
  function DNSPart(text: Text, names: seq<string>): seq<string> {
    if names == [] then []
    else
      var n := TrimSpace(names[0]);
      (if n != "" && text.parseIP(n).None? then [n] else []) + DNSPart(text, names[1..])
  }

  function IPPart(text: Text, names: seq<string>): seq<IP> {
    if names == [] then []
    else
      var ip := text.parseIP(TrimSpace(names[0]));
      (if ip.Some? then [ip.value] else []) + IPPart(text, names[1..])
  }

  lemma {:induction false} PartsHold(text: Text, names: seq<string>, i: nat)
    requires i < |names|
    ensures var n := TrimSpace(names[i]);
      && (n != "" && text.parseIP(n).None? ==> n in DNSPart(text, names))
      && (text.parseIP(n).Some? ==> text.parseIP(n).value in IPPart(text, names))
  {
    if i > 0 {
      PartsHold(text, names[1..], i - 1);
    }
  }

  lemma {:induction false} DNSPartIsWellFormed(text: Text, names: seq<string>)
    ensures forall n :: n in DNSPart(text, names) ==> WellFormedDNSName(text, n)
  {
    if names != [] {
      TrimSpaceTrims(names[0]);
      DNSPartIsWellFormed(text, names[1..]);
    }
  }

  // A name that folds to a well-formed one is well-formed itself.
  lemma FoldingKeepsWellFormed(text: Text, a: string, b: string)
    requires text.Valid() && text.EqualFold(a, b) && WellFormedDNSName(text, a)
    ensures WellFormedDNSName(text, b)
  {}

  // The least certificate verifyProvisionedNames accepts for a spec.
  function LeastAccepted(text: Text, spec: Spec): Names {
    var names := spec.dnsNames + spec.ipAddresses;
    Names(spec.commonName, [], [], DNSPart(text, names), IPPart(text, names), [], [])
  }

  lemma LeastAcceptedIsAccepted(text: Text, spec: Spec, password: string)
    ensures ProvisionCovered(text, RequestOf(spec, password), LeastAccepted(text, spec))
  {
    var req, issued := RequestOf(spec, password), LeastAccepted(text, spec);
    forall i | 0 <= i < |req.altNames| ensures AltNameCovered(text, req.altNames[i], issued) {
      PartsHold(text, req.altNames, i);
      var n := TrimSpace(req.altNames[i]);
      if n != "" && text.parseIP(n).None? {
        var k :| 0 <= k < |issued.dnsNames| && issued.dnsNames[k] == n;
        assert text.EqualFold(issued.dnsNames[k], n);
      }
    }
  }

  lemma LeastAcceptedMatchesOnlyWellFormed(text: Text, spec: Spec)
    requires text.Valid() && NamesMatch(text, LeastAccepted(text, spec), spec)
    ensures WellFormed(text, spec)
  {
    var issued := LeastAccepted(text, spec);
    DNSPartIsWellFormed(text, spec.dnsNames + spec.ipAddresses);
    forall i | 0 <= i < |spec.dnsNames| ensures WellFormedDNSName(text, spec.dnsNames[i]) {
      var k :| 0 <= k < |issued.dnsNames| && text.EqualFold(issued.dnsNames[k], spec.dnsNames[i]);
      assert issued.dnsNames[k] in issued.dnsNames;
      FoldingKeepsWellFormed(text, issued.dnsNames[k], spec.dnsNames[i]);
    }
  }

  // Everything accepted on issuing keeps matching later.
  ghost predicate AcceptedNamesMatch(text: Text, spec: Spec, password: string) {
    forall issued :: ProvisionCovered(text, RequestOf(spec, password), issued) ==> NamesMatch(text, issued, spec)
  }

  // verifyProvisionedNames and matchesSpec agree about names, for every certificate,
  // exactly when the spec is well-formed. Otherwise some certificate is accepted on
  // issuing and refused on the next look.
  lemma ChecksAgreeIffWellFormed(text: Text, spec: Spec, password: string)
    requires text.Valid()
    ensures AcceptedNamesMatch(text, spec, password) <==> WellFormed(text, spec)
  {
    LeastAcceptedIsAccepted(text, spec, password);
    if AcceptedNamesMatch(text, spec, password) {
      LeastAcceptedMatchesOnlyWellFormed(text, spec);
    }
    if WellFormed(text, spec) {
      forall issued | ProvisionCovered(text, RequestOf(spec, password), issued) ensures NamesMatch(text, issued, spec) {
        ChecksAgreeOnWellFormed(text, spec, password, issued);
      }
    }
  }
}
