// A small library that meets every contract relied on, and runs in it that meet the
// hypotheses of the theorems about issuing, resting and not resting: PEM text is a marker,
// the bytes as characters, and a closing character; every long enough string is base64.
module Model {
  import opened Basics
  import opened Text
  import opened Documents
  import opened Response
  import opened Identifiers
  import opened Errors
  import opened Certificates
  import opened Chain
  import opened Extraction
  import opened KeyExport
  import opened Signing
  import opened Api
  import opened NameChecks
  import opened Client
  import opened Protocol
  import opened Reconciler
  import opened Runs
  import opened Convergence
  import Signer

  const CLOSE: char := '\U{1000}'

  function Spell(der: Der): string {
    seq(|der|, i requires 0 <= i < |der| => (der[i] as int) as char) + [CLOSE]
  }

  // The bytes up to the closing character, and what follows it.
  function Unspell(s: string): Option<(Der, string)> {
    if s == "" then None
    else if s[0] == CLOSE then Some(([], s[1..]))
    else if s[0] as int >= 256 then None
    else
      match Unspell(s[1..])
      case None => None
      case Some((der, rest)) => Some(([(s[0] as int) as Byte] + der, rest))
  }

  lemma {:induction false} UnspellSpell(der: Der, rest: string)
    ensures Unspell(Spell(der) + rest) == Some((der, rest))
  {
    var s := Spell(der) + rest;
    if der == [] {
      assert s[1..] == rest;
    } else {
      UnspellSpell(der[1..], rest);
      assert s[1..] == Spell(der[1..]) + rest;
      assert (s[0] as int) as Byte == der[0];
      assert der == [der[0]] + der[1..];
    }
  }

  lemma {:induction false} UnspellShrinks(s: string)
    ensures Unspell(s).Some? ==> |Unspell(s).value.1| < |s|
  {
    if s != "" && s[0] != CLOSE && s[0] as int < 256 {
      UnspellShrinks(s[1..]);
    }
  }

  function EncodeBlock(b: Block): string {
    PEM_PREFIX + Spell(b.bytes)
  }

  function DecodeBlock(s: string): Option<(Block, string)> {
    if PEM_PREFIX <= s then
      match Unspell(s[|PEM_PREFIX|..])
      case None => None
      case Some((der, rest)) => Some((Block(PEM_CERTIFICATE, der, false), rest))
    else None
  }

  function CertOf(der: Der): Cert {
    Cert(der, der, if |der| > 0 then der[1..] else [], Comparable(|der|), Names("a", [], [], [], [], [], []), 0, 3)
  }

  function FirstCert(s: string): Option<Cert> {
    match DecodeBlock(s)
    case None => None
    case Some((block, _)) => Some(CertOf(block.bytes))
  }

  const PKI: Pki := Pki(
    (child: Cert, parent: Cert) => true,
    DecodeBlock,
    EncodeBlock,
    (s: string) => Some([1]),
    (der: Der) => Some(CertOf(der)),
    (b: Block, password: string) => None,
    (der: Der) => Some(PrivateKey(|der|, Some(Comparable(|der|)))),
    (k: PrivateKey) => Some("key"),
    (s: string) => if s == "" then None else Some((s, "")),
    FirstCert)

  lemma DecodeEncoded(b: Block, rest: string)
    requires b.kind == PEM_CERTIFICATE && !b.encrypted
    ensures DecodeBlock(EncodeBlock(b) + rest) == Some((b, rest))
  {
    var s := EncodeBlock(b) + rest;
    assert PEM_PREFIX <= s;
    assert s[|PEM_PREFIX|..] == Spell(b.bytes) + rest;
    UnspellSpell(b.bytes, rest);
  }

  lemma PkiIsValid()
    ensures PKI.Valid()
  {
    forall s ensures PKI.decodePem(s).Some? ==> |PKI.decodePem(s).value.1| < |s| {
      if PEM_PREFIX <= s {
        UnspellShrinks(s[|PEM_PREFIX|..]);
      }
    }
    forall b: Block, rest | b.kind == PEM_CERTIFICATE && b.bytes != [] && !b.encrypted
      ensures PKI.decodePem(PKI.encodePem(b) + rest) == Some((b, rest)) {
      DecodeEncoded(b, rest);
    }
    forall b: Block ensures PEM_PREFIX <= PKI.encodePem(b) {
      assert PKI.encodePem(b) == EncodeBlock(b);
    }
  }

  lemma PkiSplitsWell()
    ensures SplitsWell(PKI)
  {
    forall chain: seq<Cert> | chain != [] && forall c :: c in chain ==> PKI.Parsed(c)
      ensures PKI.leafOf(EncodeAll(PKI, chain)) == Some(chain[0]) && EncodeAll(PKI, chain) != "" {
      var b, rest := CertificateBlock(chain[0]), EncodeAll(PKI, chain[1..]);
      assert EncodeAll(PKI, chain) == EncodeBlock(b) + rest;
      DecodeEncoded(b, rest);
      assert chain[0] in chain;
      assert PKI.parseCert(chain[0].raw) == Some(CertOf(chain[0].raw));
    }
  }

  const DECODER: Decoder := (s: string) => if s == "r" then Some(DOC) else None

  const P: Platform := Platform(ASCII, PKI, DECODER)

  // All contracts can be met at once.
  lemma ContractsCanBeMet()
    ensures P.Valid() && SplitsWell(P.pki)
  {
    AsciiIsValid();
    PkiIsValid();
    PkiSplitsWell();
  }

  // ---------- one response ----------

  // A response good for every call: two ids and a payload that reads both as the
  // certificate and as its key.
  const LONG: string := seq(128, i => 'A')

  const MEMBERS: seq<Member> := [
    Member("CSR_ID", Str("7")), Member("Certificate_ID", Str("8")), Member("z", Str(LONG))]

  const DOC: Json := Obj(MEMBERS)

  const STRINGS: seq<string> := ["7", "8", LONG]

  const REPLY: Reply := Answer(200, "r", SORTED)

  const BODY: Body := Body(DOC, SORTED)

  lemma {:induction false} FlatPlaces(parent: Json, rest: seq<Json>, path: seq<nat>)
    requires forall i :: 0 <= i < |rest| ==> rest[i] < parent && rest[i].Str?
    ensures PlacesAmong(parent, rest, path) == []
    decreases |rest|
  {
    if rest != [] {
      FlatPlaces(parent, rest[1..], path);
      assert PlacesAmong(rest[0], [], path + [|rest|]) == [];
    }
  }

  // In the response every search comes down to one range over its members.
  lemma SearchIsARange(wanted: set<string>)
    ensures FindScalar(ASCII, DOC, wanted, SORTED, []) == FirstOffer(ScalarOffer(ASCII, wanted), MEMBERS, MEMBERS)
  {
    FindScalarIsFindAt(ASCII, DOC, wanted, SORTED, []);
    FlatPlaces(DOC, Children(DOC), []);
    assert Places(DOC, []) == [Place([], MEMBERS)];
    var offer := ScalarOffer(ASCII, wanted);
    assert FindAt(offer, [Place([], MEMBERS)], wanted, SORTED) ==
      if FirstOffer(offer, MEMBERS, MEMBERS).Some? then FirstOffer(offer, MEMBERS, MEMBERS)
      else FindAt(offer, [], wanted, SORTED);
  }

  predicate Starts(key: string, c: char) {
    key != "" && !Separator(LowerAscii(key[0])) && LowerAscii(key[0]) == c
  }

  lemma NormalizedStart(key: string, c: char)
    requires Starts(key, c)
    ensures NormalizeKey(ASCII, key) != "" && NormalizeKey(ASCII, key)[0] == c
  {
    assert ASCII.ToLower(key)[0] == LowerAscii(key[0]);
  }

  // No member has a key that starts like one of these.
  lemma NothingFound(keys: seq<string>)
    requires forall k :: k in keys ==> Starts(k, 's') || Starts(k, 'r') || Starts(k, 'm') || Starts(k, 'e')
    ensures FindString(ASCII, DOC, keys, SORTED).None?
  {
    var wanted := WantedKeys(ASCII, keys);
    SearchIsARange(wanted);
    FirstOfferIsAHit(ScalarOffer(ASCII, wanted), MEMBERS, MEMBERS);
    forall m | m in MEMBERS ensures Offered(ASCII, m, wanted).None? {
      assert Starts(m.key, 'c') || Starts(m.key, 'z');
      NormalizedStart(m.key, if Starts(m.key, 'c') then 'c' else 'z');
      forall k | k in keys ensures NormalizeKey(ASCII, k) != NormalizeKey(ASCII, m.key) {
        var s := if Starts(k, 's') then 's' else if Starts(k, 'r') then 'r' else if Starts(k, 'm') then 'm' else 'e';
        NormalizedStart(k, s);
      }
    }
  }

  // A member with one of the keys is found, if not another.
  lemma SomethingFound(keys: seq<string>, m: Member)
    requires m in MEMBERS && m.key in keys && m.value.Str? && ScalarString(m.value).Some?
    ensures Field(P, BODY, keys) != ""
  {
    var wanted := WantedKeys(ASCII, keys);
    SearchIsARange(wanted);
    FirstOfferIsAHit(ScalarOffer(ASCII, wanted), MEMBERS, MEMBERS);
    assert NormalizeKey(ASCII, m.key) in wanted;
    assert Offered(ASCII, m, wanted).Some?;
    FoundIsNotBlank(ASCII, DOC, keys, SORTED);
  }

  lemma NoOutcomeIsFound()
    ensures FindString(ASCII, DOC, KMP_WORDS.statusKeys, SORTED).None?
    ensures FindString(ASCII, DOC, KMP_WORDS.messageKeys, SORTED).None?
  {
    var status, message := KMP_WORDS.statusKeys, KMP_WORDS.messageKeys;
    forall k | k in status ensures Starts(k, 's') || Starts(k, 'r') {
      assert k == status[0] || k == status[1] || k == status[2] || k == status[3];
    }
    forall k | k in message ensures Starts(k, 'm') || Starts(k, 'r') || Starts(k, 'e') {
      assert k == message[0] || k == message[1] || k == message[2] || k == message[3] || k == message[4]
        || k == message[5] || k == message[6];
    }
    NothingFound(status);
    NothingFound(message);
  }

  // It reports neither success nor failure, which is success.
  lemma ResponseIsASuccess()
    ensures Decoded(P, REPLY) == Ok(BODY) && Raw(P, REPLY) == Ok("r")
  {
    NoOutcomeIsFound();
    AsciiIsValid();
    SucceededJudges(ASCII, KMP_WORDS, DOC, SORTED);
    hide FindString, Succeeded;
  }

  lemma RequestIdIsFound()
    ensures Field(P, BODY, CSR_ID_KEYS) == "7"
  {
    var wanted := WantedKeys(ASCII, CSR_ID_KEYS);
    SearchIsARange(wanted);
    TrimSpaceTrims("7");
    assert MEMBERS[0].key == CSR_ID_KEYS[0];
    assert Offered(ASCII, MEMBERS[0], wanted) == Some("7");
  }

  lemma CertificateIdIsFound()
    ensures Field(P, BODY, CERTIFICATE_ID_KEYS) != ""
  {
    TrimSpaceTrims("8");
    var m := MEMBERS[1];
    assert m in MEMBERS && m.key == CERTIFICATE_ID_KEYS[0];
    SomethingFound(CERTIFICATE_ID_KEYS, m);
  }

  lemma SerialNumberIsNotFound()
    ensures Field(P, BODY, SERIAL_NUMBER_KEYS) == ""
  {
    var serial := SERIAL_NUMBER_KEYS;
    forall k | k in serial ensures Starts(k, 's') {
      assert k == serial[0] || k == serial[1] || k == serial[2] || k == serial[3];
    }
    NothingFound(serial);
  }

  // ---------- its payload ----------

  lemma StringsOfTheResponse()
    ensures AllStrings(DOC) == STRINGS
  {
    var cs := Children(DOC);
    assert cs == [Str("7"), Str("8"), Str(LONG)];
    assert cs[1..] == [Str("8"), Str(LONG)] && cs[1..][1..] == [Str(LONG)] && cs[1..][1..][1..] == [];
    assert AllStringsAmong(DOC, cs[1..][1..]) == [LONG] + AllStringsAmong(DOC, []);
    assert AllStringsAmong(DOC, cs[1..]) == ["8"] + AllStringsAmong(DOC, cs[1..][1..]);
    assert AllStringsAmong(DOC, cs) == ["7"] + AllStringsAmong(DOC, cs[1..]);
  }

  lemma {:induction false} NoDashNoPem(s: string)
    requires '-' !in s
    ensures !Contains(s, PEM_PREFIX)
  {
    assert PEM_PREFIX[0] == '-';
    if s != "" {
      NoDashNoPem(s[1..]);
    }
  }

  lemma {:induction false} CompactShrinks(s: string)
    ensures |Compact(s)| <= |s|
  {
    if s != "" {
      CompactShrinks(s[1..]);
    }
  }

  lemma {:induction false} CompactKeeps(s: string)
    requires forall i :: 0 <= i < |s| ==> s[i] == 'A'
    ensures Compact(s) == s
  {
    if s != "" {
      CompactKeeps(s[1..]);
      assert s == [s[0]] + s[1..];
    }
  }

  const LEAF: Cert := CertOf([1])
  const KEY: PrivateKey := PrivateKey(1, Some(Comparable(1)))

  // A short string holds nothing.
  lemma ShortHoldsNothing(s: string)
    requires '-' !in s && |s| < 64
    ensures ScanValue(PKI, s) == PemScan([], false)
    ensures forall password :: ReadCandidate(PKI, s, password) == NotAKey
  {
    NoDashNoPem(s);
    CompactShrinks(s);
  }

  lemma PayloadHoldsBoth()
    ensures ScanValue(PKI, LONG) == PemScan([LEAF], false)
    ensures forall password :: ReadCandidate(PKI, LONG, password) == Key(KEY)
  {
    NoDashNoPem(LONG);
    CompactKeeps(LONG);
  }

  lemma CertificateIsExtracted()
    ensures Got(P, REPLY) == Ok([LEAF])
  {
    ResponseIsASuccess();
    StringsOfTheResponse();
    ShortHoldsNothing("7");
    ShortHoldsNothing("8");
    PayloadHoldsBoth();
    assert STRINGS[1..] == ["8", LONG] && STRINGS[1..][1..] == [LONG] && STRINGS[1..][1..][1..] == [];
    assert ScanAll(PKI, STRINGS[1..][1..]).certs == [LEAF];
    assert ScanAll(PKI, STRINGS[1..]).certs == [LEAF];
    assert ScanAll(PKI, STRINGS) == PemScan([LEAF], false);
    assert [LEAF][1..] == [];
    assert FirstOccurrences([LEAF], {}) == [LEAF];
  }

  lemma KeyIsRead(password: string)
    ensures FirstKey(PKI, Candidates(DECODER, "r"), password) == Some(KEY)
  {
    StringsOfTheResponse();
    ShortHoldsNothing("r");
    ShortHoldsNothing("7");
    ShortHoldsNothing("8");
    PayloadHoldsBoth();
    var all := Candidates(DECODER, "r");
    assert all == ["r", "7", "8", LONG];
    assert all[1..] == STRINGS && STRINGS[1..] == ["8", LONG] && STRINGS[1..][1..] == [LONG];
    assert FirstKey(PKI, STRINGS[1..][1..], password) == Some(KEY);
    assert FirstKey(PKI, STRINGS[1..], password) == Some(KEY);
  }

  // ---------- a whole Provision ----------

  const OPTIONS: SigningOptions := SigningOptions("", "s", "c", "t", "", None, "", "", None, None, "")

  const BUNDLE: Bundle := Bundle(LEAF, [LEAF], EncodeAll(PKI, [LEAF]))

  const ISSUED: Signer.Provisioned := Signer.Provisioned(BUNDLE, KEY, "key", "7", "")

  function FlowOf(req: ProvisionRequest): Context {
    Context(P, OPTIONS, Provisioning(req))
  }

  lemma SigningStep(c: Context, csr: CSR, id: string, reply: Reply)
    requires id != "" && SignedBy(c.p, reply).Ok?
    ensures var result := SignedBy(c.p, reply).value;
      Advance(c, Identified(csr, id), Event(SignCSR(RequestFor(c.opts, id, SignHints(c.flow))), reply)) ==
        Signed(id, FetchName(c.flow, csr, result), result.serialNumber)
  {}

  lemma FetchingStep(c: Context, id: string, name: string, serialNumber: string, reply: Reply)
    requires name != "" && Got(c.p, reply).Ok?
    ensures Advance(c, Signed(id, name, serialNumber), Event(GetCertificate(name, serialNumber), reply)) ==
      Fetched(id, serialNumber, Got(c.p, reply).value)
  {}

  lemma ExportingStep(c: Context, id: string, serialNumber: string, certs: seq<Cert>, reply: Reply)
    requires c.flow.Provisioning? && Raw(c.p, reply).Ok?
    ensures Advance(c, Fetched(id, serialNumber, certs), Event(ExportCSR(id, ExportFileType(c.flow.request)), reply)) ==
      Exported(id, serialNumber, certs, Raw(c.p, reply).value)
  {}

  lemma BundleIsBuilt()
    ensures BundleOf(PKI, [LEAF], Comparable(1)) == Ok(BUNDLE)
  {
    assert [LEAF][1..] == [];
    assert Others([LEAF], LEAF) == [];
    assert ChainOf(PKI, [LEAF], LEAF) == [LEAF];
  }

  lemma WholeTraceIsWell(req: ProvisionRequest, c: Context, es: seq<Event>)
    requires req.commonName == "a" && req.altNames == [] && c == FlowOf(req)
    requires Run(c, es) == Exported("7", "", [LEAF], "r")
    ensures Signer.ProvisionedWell(c, req, es, ISSUED)
  {
    KeyIsRead(req.password);
    BundleIsBuilt();
    hide Run, BundleOf, FirstKey, Candidates;
    assert ProvisionCovered(ASCII, req, LEAF.names);
  }

  predicate Modest(req: ProvisionRequest) {
    req.commonName == "a" && req.altNames == [] && req.password != ""
  }

  lemma ModestIsAcceptable(req: ProvisionRequest)
    requires Modest(req)
    ensures Signer.Acceptable(req)
  {
    TrimSpaceTrims("a");
  }

  // ---------- the flows themselves ----------

  // Where a flow is after n calls, all of them right and all given the response.
  function Stage(c: Context, csr: CSR, result: SignResult, certs: seq<Cert>, n: nat): Phase {
    if n == 0 then Idle
    else if n == 1 then Identified(csr, csr.id)
    else if n == 2 then Signed(csr.id, FetchName(c.flow, csr, result), result.serialNumber)
    else if n == 3 then Fetched(csr.id, result.serialNumber, certs)
    else if n == 4 && c.flow.Provisioning? then Exported(csr.id, result.serialNumber, certs, "r")
    else Broken
  }

  ghost predicate GivenTheResponse(c: Context, csr: CSR, result: SignResult, certs: seq<Cert>, reply: Reply) {
    && StoredCSR(c, reply) == Ok(csr) && SignedBy(c.p, reply) == Ok(result) && Got(c.p, reply) == Ok(certs)
    && Raw(c.p, reply) == Ok("r") && csr.id != "" && FetchName(c.flow, csr, result) != ""
  }

  // Another call leads to the next stage or is none a flow makes.
  lemma NextStage(c: Context, csr: CSR, result: SignResult, certs: seq<Cert>, n: nat, e: Event)
    requires GivenTheResponse(c, csr, result, certs, e.reply)
    ensures Advance(c, Stage(c, csr, result, certs, n), e) in {Broken, Stage(c, csr, result, certs, n + 1)}
    ensures n == 1 && Advance(c, Stage(c, csr, result, certs, n), e) != Broken ==> e.call.SignCSR?
  {
    hide StoredCSR, SignedBy, Got, Raw, RequestFor, FetchName;
    if n == 0 {
      FirstStage(c, e);
    }
  }

  lemma FirstStage(c: Context, e: Event)
    ensures Advance(c, Idle, e) in {Broken, AfterStore(StoredCSR(c, e.reply))}
  {}

  lemma {:induction false} RunsByStages(c: Context, csr: CSR, result: SignResult, certs: seq<Cert>, es: seq<Event>)
    requires forall i :: 0 <= i < |es| ==> GivenTheResponse(c, csr, result, certs, es[i].reply)
    ensures Run(c, es) in {Broken, Stage(c, csr, result, certs, |es|)}
    ensures |es| == 2 && Run(c, es) != Broken ==> es[1].call.SignCSR?
    decreases |es|
  {
    hide GivenTheResponse, Advance;
    if es != [] {
      var n := |es| - 1;
      RunsByStages(c, csr, result, certs, es[..n]);
      NextStage(c, csr, result, certs, n, es[n]);
      BrokenStaysBroken(c, es[n]);
    }
  }

  lemma BrokenStaysBroken(c: Context, e: Event)
    ensures Advance(c, Broken, e) == Broken
  {}

  // Of the stages a flow may end in only the last.
  lemma FinalStage(c: Context, csr: CSR, result: SignResult, certs: seq<Cert>, es: seq<Event>)
    requires es != [] && Signer.Final(c, es) && Run(c, es) == Stage(c, csr, result, certs, |es|)
    requires FetchName(c.flow, csr, result) != "" && (|es| == 2 ==> es[1].call.SignCSR?)
    ensures |es| == if c.flow.Provisioning? then 4 else 3
  {
    hide Run, FetchName, LookupName;
  }

  lemma FinalIsNotBroken(c: Context, es: seq<Event>)
    requires Signer.Final(c, es)
    ensures Run(c, es) != Broken
  {
    hide Run;
  }

  lemma ResponseHasName(c: Context, csr: CSR, result: SignResult, certs: seq<Cert>, reply: Reply)
    requires GivenTheResponse(c, csr, result, certs, reply)
    ensures FetchName(c.flow, csr, result) != ""
  {
    hide StoredCSR, SignedBy, Got, Raw, FetchName;
  }

  // A flow that ends where it may, given the response every time, ends complete.
  lemma ResponseCompletes(c: Context, csr: CSR, result: SignResult, certs: seq<Cert>, es: seq<Event>)
    requires forall i :: 0 <= i < |es| ==> GivenTheResponse(c, csr, result, certs, es[i].reply)
    requires es != [] && Signer.Final(c, es)
    ensures Run(c, es) == if c.flow.Provisioning? then Exported(csr.id, result.serialNumber, certs, "r")
      else Fetched(csr.id, result.serialNumber, certs)
  {
    hide Run, GivenTheResponse, FetchName, Signer.Final;
    FinalIsNotBroken(c, es);
    assert GivenTheResponse(c, csr, result, certs, es[0].reply);
    ResponseHasName(c, csr, result, certs, es[0].reply);
    RunsByStages(c, csr, result, certs, es);
    FinalStage(c, csr, result, certs, es);
  }

  // Made of the right calls, a flow gets all the way.
  lemma RunToFetched(c: Context, csr: CSR, result: SignResult, certs: seq<Cert>, reply: Reply) returns (es: seq<Event>)
    requires GivenTheResponse(c, csr, result, certs, reply)
    ensures es != [] && Run(c, es) == Fetched(csr.id, result.serialNumber, certs)
  {
    hide Advance, Run, StoredCSR, SignedBy, Got, Raw, RequestFor, FetchName;
    var storing := Event(if c.flow.Importing? then ImportCSR else CreateCSR(c.flow.request), reply);
    var signing := Event(SignCSR(RequestFor(c.opts, csr.id, SignHints(c.flow))), reply);
    var fetching := Event(GetCertificate(FetchName(c.flow, csr, result), result.serialNumber), reply);
    Signer.FirstCall(c, storing);
    SigningStep(c, csr, csr.id, reply);
    FetchingStep(c, csr.id, FetchName(c.flow, csr, result), result.serialNumber, reply);
    RunSnoc(c, [storing], signing);
    RunSnoc(c, [storing] + [signing], fetching);
    es := [storing] + [signing] + [fetching];
  }

  lemma RunToExported(c: Context, csr: CSR, result: SignResult, certs: seq<Cert>, reply: Reply) returns (es: seq<Event>)
    requires GivenTheResponse(c, csr, result, certs, reply) && c.flow.Provisioning?
    ensures es != [] && Run(c, es) == Exported(csr.id, result.serialNumber, certs, "r")
  {
    hide Advance, Run, StoredCSR, SignedBy, Got, Raw, ExportFileType, FetchName;
    var before := RunToFetched(c, csr, result, certs, reply);
    var exporting := Event(ExportCSR(csr.id, ExportFileType(c.flow.request)), reply);
    ExportingStep(c, csr.id, result.serialNumber, certs, reply);
    RunSnoc(c, before, exporting);
    es := before + [exporting];
  }

  lemma IdsAndNames(found: CSR, result: SignResult)
    requires found == CSR(Field(P, BODY, CSR_ID_KEYS), Field(P, BODY, COMMON_NAME_KEYS))
    requires result == SignResult(
      Field(P, BODY, CERTIFICATE_ID_KEYS), Field(P, BODY, COMMON_NAME_KEYS), Field(P, BODY, SERIAL_NUMBER_KEYS))
    ensures Imported(P, REPLY) == Ok(found) && SignedBy(P, REPLY) == Ok(result)
    ensures Got(P, REPLY) == Ok([LEAF]) && Raw(P, REPLY) == Ok("r")
    ensures found.id == "7" && result.serialNumber == ""
  {
    ResponseIsASuccess();
    RequestIdIsFound();
    CertificateIdIsFound();
    SerialNumberIsNotFound();
    CertificateIsExtracted();
    hide Decoded, Got, Raw, Field;
  }

  lemma CreationIsGivenTheResponse(req: ProvisionRequest) returns (csr: CSR, result: SignResult)
    requires req.commonName != ""
    ensures GivenTheResponse(FlowOf(req), csr, result, [LEAF], REPLY) && csr.id == "7" && result.serialNumber == ""
  {
    var name := Field(P, BODY, COMMON_NAME_KEYS);
    var found := CSR(Field(P, BODY, CSR_ID_KEYS), name);
    csr := if name == "" then found.(commonName := req.commonName) else found;
    result := SignResult(Field(P, BODY, CERTIFICATE_ID_KEYS), name, Field(P, BODY, SERIAL_NUMBER_KEYS));
    IdsAndNames(found, result);
    hide Imported, SignedBy, Got, Raw, Field;
  }

  lemma WholeRunExists(req: ProvisionRequest) returns (es: seq<Event>)
    requires req.commonName != ""
    ensures es != [] && Run(FlowOf(req), es) == Exported("7", "", [LEAF], "r")
  {
    var csr, result := CreationIsGivenTheResponse(req);
    var c := FlowOf(req);
    assert c.flow.Provisioning?;
    hide GivenTheResponse, Run, FlowOf;
    es := RunToExported(c, csr, result, [LEAF], REPLY);
  }

  // The run of a full Provision, for a request of the name the certificate is for.
  lemma ProvisionRunExists(req: ProvisionRequest)
    requires Modest(req)
    ensures Honest(P, req, Ok(ISSUED))
  {
    var c := FlowOf(req);
    var es := WholeRunExists(req);
    ModestIsAcceptable(req);
    WholeTraceIsWell(req, c, es);
    hide Run, Signer.ProvisionedWell, Signer.Acceptable, Signer.ProvisionAnswers;
    Signer.YieldAnswers(c, es);
    assert Answers(P, req, c, es, Ok(ISSUED));
  }

  // A server that gives the response to every call.
  ghost predicate AlwaysResponds(server: Server) {
    forall n :: server.replies(n) == REPLY
  }

  // Provision against it succeeds with the certificate and key of the response.
  method ProvisionSucceeds(signer: Signer.Signer, req: ProvisionRequest) returns (r: Result<Signer.Provisioned, Error>)
    requires signer.client.p == P && signer.opts == OPTIONS
    requires signer.client.trace == [] && AlwaysResponds(signer.client.server) && Modest(req)
    modifies signer.client
    ensures r == Ok(ISSUED)
  {
    hide Signer.ProvisionAnswers, Signer.Final, Modest, AlwaysResponds;
    ContractsCanBeMet();
    ghost var es;
    r, es := signer.Provision(req);
    assert [] + es == es;
    assert AnsweredBy(signer.client.server, []);
    ProvisionAnswersTheResponse(req, es, signer.client.server, r);
  }

  lemma ResponseMeansWholeRun(req: ProvisionRequest, es: seq<Event>, server: Server)
    requires req.commonName != "" && AlwaysResponds(server) && AnsweredBy(server, es)
    requires es != [] && Signer.Final(FlowOf(req), es)
    ensures Run(FlowOf(req), es) == Exported("7", "", [LEAF], "r")
  {
    var csr, result := CreationIsGivenTheResponse(req);
    var c := FlowOf(req);
    assert c.flow.Provisioning?;
    assert forall i :: 0 <= i < |es| ==> es[i].reply == REPLY;
    hide GivenTheResponse, Run, FlowOf, Signer.Final, AlwaysResponds, AnsweredBy;
    ResponseCompletes(c, csr, result, [LEAF], es);
  }

  lemma ProvisionAnswersTheResponse(req: ProvisionRequest, es: seq<Event>, server: Server,
      r: Result<Signer.Provisioned, Error>)
    requires Modest(req) && AlwaysResponds(server) && AnsweredBy(server, es)
    requires Signer.ProvisionAnswers(FlowOf(req), req, es, r)
    ensures r == Ok(ISSUED)
  {
    var c := FlowOf(req);
    ModestIsAcceptable(req);
    hide Run, Signer.ProvisionedWell, Signer.Final, Signer.Acceptable, AlwaysResponds, AnsweredBy;
    ResponseMeansWholeRun(req, es, server);
    WholeTraceIsWell(req, c, es);
    hide Signer.ProvisionAnswers, FlowOf;
    Signer.ProvisionReturnsWhatItsCallsYield(c, req, es, r);
  }

  const REQUEST: Signer.CertificateRequest :=
    Signer.CertificateRequest(Names("a", [], [], [], [], [], []), Comparable(1))

  lemma ImportIsGivenTheResponse(hints: Hints) returns (csr: CSR, result: SignResult)
    ensures GivenTheResponse(Signer.ImportContext(P, OPTIONS, REQUEST, hints), csr, result, [LEAF], REPLY)
  {
    csr := CSR(Field(P, BODY, CSR_ID_KEYS), Field(P, BODY, COMMON_NAME_KEYS));
    result := SignResult(Field(P, BODY, CERTIFICATE_ID_KEYS), csr.commonName, Field(P, BODY, SERIAL_NUMBER_KEYS));
    IdsAndNames(csr, result);
    hide Imported, SignedBy, Got, Raw, Field;
  }

  lemma FetchedIsSignedWell(c: Context, es: seq<Event>)
    requires c.p == P && Run(c, es).Fetched? && Run(c, es).certs == [LEAF]
    ensures Signer.SignedWell(c, REQUEST, es, BUNDLE)
  {
    BundleIsBuilt();
    hide Run, BundleOf;
  }

  // The run of a full Sign.
  lemma SignRunExists(hints: Hints) returns (es: seq<Event>)
    ensures var c := Signer.ImportContext(P, OPTIONS, REQUEST, hints);
      Signer.SignedWell(c, REQUEST, es, BUNDLE) && Signer.SignAnswers(c, REQUEST, es, Ok(BUNDLE))
  {
    var c := Signer.ImportContext(P, OPTIONS, REQUEST, hints);
    var csr, result := ImportIsGivenTheResponse(hints);
    es := RunToFetched(c, csr, result, [LEAF], REPLY);
    FetchedIsSignedWell(c, es);
    hide GivenTheResponse, Run, FetchName, Signer.SignedWell, Signer.SignAnswers;
    Signer.YieldAnswers(c, es);
  }

  // So does Sign, for a request of that name and key.
  method SignSucceeds(signer: Signer.Signer, hints: Hints) returns (r: Result<Bundle, Error>)
    requires signer.client.p == P && signer.opts == OPTIONS
    requires signer.client.trace == [] && AlwaysResponds(signer.client.server)
    modifies signer.client
    ensures r == Ok(BUNDLE)
  {
    hide Signer.SignAnswers, Signer.Final, AlwaysResponds;
    ContractsCanBeMet();
    ghost var es;
    r, es := signer.Sign(Some(REQUEST), hints);
    assert [] + es == es;
    assert AnsweredBy(signer.client.server, []);
    SignAnswersTheResponse(hints, es, signer.client.server, r);
  }

  lemma SignAnswersTheResponse(hints: Hints, es: seq<Event>, server: Server, r: Result<Bundle, Error>)
    requires AlwaysResponds(server) && AnsweredBy(server, es)
    requires Signer.SignAnswers(Signer.ImportContext(P, OPTIONS, REQUEST, hints), REQUEST, es, r)
    ensures r == Ok(BUNDLE)
    ensures Signer.SignedWell(Signer.ImportContext(P, OPTIONS, REQUEST, hints), REQUEST, es, BUNDLE)
  {
    var c := Signer.ImportContext(P, OPTIONS, REQUEST, hints);
    var csr, result := ImportIsGivenTheResponse(hints);
    hide GivenTheResponse, Run, Signer.SignedWell, Signer.Final;
    ResponseCompletes(c, csr, result, [LEAF], es);
    FetchedIsSignedWell(c, es);
    Signer.SignReturnsWhatItsCallsYield(c, REQUEST, es, r);
  }

  // ---------- passes ----------

  function SpecWith(organization: string, renewBefore: Option<int>): Spec {
    Spec("", "a", [], [], Subject(organization, "", "", "", ""), KeySpec("", None, "", ""), None, "", renewBefore, None)
  }

  function EnvWith(updatable: bool): Env {
    Env(Present, true, true, true, None, Some("p"), None, true, updatable, "", 0, 0, 0)
  }

  function Start(spec: Spec): Cluster {
    Cluster(spec, 1, None, NO_STATUS, None)
  }

  function PassWith(updatable: bool): Move {
    Reconciled(EnvWith(updatable), Ok(ISSUED))
  }

  lemma PassIsAllowed(c: Cluster, organization: string, renewBefore: Option<int>, updatable: bool)
    requires c.spec == SpecWith(organization, renewBefore)
    ensures Prepare(c.spec, EnvWith(updatable)).Ok?
    ensures HonestFor(P, c, EnvWith(updatable), Ok(ISSUED)) && Allowed(P, c, PassWith(updatable))
    ensures P.pki.splitChain(ISSUED.bundle.chainPEM).Some?
  {
    ProvisionRunExists(RequestOf(c.spec, "p"));
    assert c.spec.issuerKind == "" && KeyStorePassword(c.spec, EnvWith(updatable)) == Ok(("p", true));
    assert Prepare(c.spec, EnvWith(updatable)) == Ok((RequestOf(c.spec, "p"), true));
    assert PEM_PREFIX <= ISSUED.bundle.chainPEM;
  }

  // A pass that publishes.
  lemma FirstPassPublishes(organization: string, renewBefore: Option<int>, updatable: bool)
    ensures var c := Start(SpecWith(organization, renewBefore));
      && NeededFor(P, c, PassWith(updatable)) && HonestFor(P, c, EnvWith(updatable), Ok(ISSUED))
      && Published(P, c, EnvWith(updatable), Ok(ISSUED)).Some?
      && Published(P, c, EnvWith(updatable), Ok(ISSUED)).value.provisioned == ISSUED
  {
    var c := Start(SpecWith(organization, renewBefore));
    PassIsAllowed(c, organization, renewBefore, updatable);
    NeededPassIssues(P, c, PassWith(updatable));
  }

  lemma StillMoves(moves: seq<Move>)
    requires forall m :: m in moves ==> m.Reconciled? && m.env in {EnvWith(true), EnvWith(false)}
    ensures AllQuiet(moves, 2)
  {}

  // The first pass writes the Secret and, if it can, a status that describes it.
  lemma FirstPassWrites(organization: string, renewBefore: Option<int>, updatable: bool)
    ensures var c := Start(SpecWith(organization, renewBefore));
      var next := Apply(P, c, PassWith(updatable));
      next.secret.Some? && next.issued.Some? && (Described(next) <==> updatable)
  {
    var c, m := Start(SpecWith(organization, renewBefore)), PassWith(updatable);
    FirstPassPublishes(organization, renewBefore, updatable);
    hide SpecWith, LeafRenewal;
    PassWritesWhatItPublishes(P, c, m.env, m.outcome);
    RecordingRepairs(P, c, m.env, m.outcome);
    assert RecordOf(Published(P, c, m.env, m.outcome).value).notBefore == Some(0);
  }

  // Without an organization the certificate keeps the subject and is good until 2.
  lemma FirstIssueSettles(updatable: bool)
    ensures var c := Start(SpecWith("", None));
      var issue := Published(P, c, EnvWith(updatable), Ok(ISSUED));
      issue.Some? &&
      var leaf := issue.value.provisioned.bundle.leaf;
      && WellFormed(P.text, c.spec) && SubjectKept(P.text, leaf.names, c.spec)
      && MatchesSpec(P.text, leaf.names, c.spec).None? && LeafRenewal(leaf, c.spec.renewBefore) == 2
  {
    var c := Start(SpecWith("", None));
    FirstPassPublishes("", None, updatable);
    hide Published, EnvWith;
    MatchesSpecMeansMatching(P.text, LEAF.names, c.spec);
  }

  // Without an organization one pass issues, and any number of passes after it, whatever
  // updates they lose, leaves the Secret alone.
  lemma QuietRunExists(moves: seq<Move>)
    requires forall m :: m in moves ==> m.Reconciled? && m.env in {EnvWith(true), EnvWith(false)}
    ensures var next := Apply(P, Start(SpecWith("", None)), PassWith(true));
      && next.secret.Some? && Described(next)
      && (Writes(P, next, moves) == [] || Writes(P, next, moves) == [StatusWrite])
      && After(P, next, moves).secret == next.secret
  {
    var c, m := Start(SpecWith("", None)), PassWith(true);
    FirstPassWrites("", None, true);
    ContractsCanBeMet();
    FirstPassPublishes("", None, true);
    FirstIssueSettles(true);
    StillMoves(moves);
    hide SpecWith, EnvWith, Writes, After, Described, AllQuiet, LeafRenewal, WellFormed, SubjectKept, HonestFor, Step,
      Published;
    IssueThenQuiet(P, c, m.env, m.outcome, moves);
  }

  function Passes(n: nat): (moves: seq<Move>)
    ensures |moves| == n && forall m :: m in moves ==> m == PassWith(true)
  {
    if n == 0 then [] else [PassWith(true)] + Passes(n - 1)
  }

  lemma {:induction false} PassesAreAllowed(c: Cluster, organization: string, renewBefore: Option<int>, n: nat)
    requires c.spec == SpecWith(organization, renewBefore)
    ensures AllAllowed(P, c, Passes(n)) && Capable(P, c.spec, Passes(n))
    decreases n
  {
    PassIsAllowed(c, organization, renewBefore, true);
    if n > 0 {
      var m := PassWith(true);
      PassWritesWhatItPublishes(P, c, m.env, m.outcome);
      PassesAreAllowed(Apply(P, c, m), organization, renewBefore, n - 1);
      assert Passes(n)[0] == m && Passes(n)[1..] == Passes(n - 1);
    }
  }

  // With an organization the authority strips, any number of passes issues as many times.
  lemma StrippedRunExists(n: nat)
    ensures SecretWrites(Writes(P, Start(SpecWith("o", None)), Passes(n))) == n
  {
    var c := Start(SpecWith("o", None));
    assert c.spec.subject.organization != "";
    hide SpecWith;
    ContractsCanBeMet();
    PassesAreAllowed(c, "o", None, n);
    FirstPassPublishes("o", None, true);
    StrippedOrganizationNeverRests(P, c, Passes(n));
  }

  lemma AllOutlast(spec: Spec, moves: seq<Move>, i: nat)
    requires Capable(P, spec, moves) && i < |moves| && spec.renewBefore == Some(3)
    requires forall m :: m in moves ==> m == PassWith(true)
    ensures Outlasts(P, spec, moves, i)
  {
    assert moves[i] == PassWith(true);
    assert i + 1 < |moves| ==> moves[i + 1] == PassWith(true);
  }

  // So it does with a renewal lead as long as the lifetime.
  lemma OverlongRunExists(n: nat)
    ensures SecretWrites(Writes(P, Start(SpecWith("", Some(3))), Passes(n))) == n
  {
    var c, moves := Start(SpecWith("", Some(3))), Passes(n);
    assert c.spec.renewBefore == Some(3);
    hide SpecWith;
    ContractsCanBeMet();
    PassesAreAllowed(c, "", Some(3), n);
    FirstPassPublishes("", Some(3), true);
    forall i | 0 <= i < n ensures Outlasts(P, c.spec, moves, i) {
      AllOutlast(c.spec, moves, i);
    }
    hide Passes, AllAllowed, Writes, Capable, Outlasts, NeededFor;
    OverlongLeadNeverRests(P, c, moves);
  }

  // The first issue, its status update lost: any number of passes that lose theirs as well
  // leaves a status that does not describe the Secret.
  lemma LostUpdateExists(moves: seq<Move>)
    requires forall m :: m in moves ==> m.Reconciled? && m.env in {EnvWith(true), EnvWith(false)}
    ensures var c := Start(SpecWith("", None));
      !Described(After(P, Apply(P, c, PassWith(false)), moves))
  {
    var c, m := Start(SpecWith("", None)), PassWith(false);
    ContractsCanBeMet();
    FirstPassPublishes("", None, false);
    FirstIssueSettles(false);
    StillMoves(moves);
    hide SpecWith, After, AllQuiet, HonestFor, MatchesSpec;
    StatusAfterALostUpdate(P, c, m.env, m.outcome, moves);
    var last := After(P, Apply(P, c, m), moves);
    assert RecordOf(last.issued.value).notBefore == Some(0) && c.status == NO_STATUS;
  }
}
