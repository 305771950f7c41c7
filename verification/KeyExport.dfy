// internal/kmp/privatekey.go: reading the escrowed key out of an export.
module KeyExport {
  import opened Basics
  import opened Text
  import opened Documents
  import opened Response
  import opened Certificates
  import opened Extraction

  // A candidate string is a key, is no key at all, or is one that cannot be read.
  datatype KeyRead = Key(key: PrivateKey) | NotAKey | Unreadable

  const PRIVATE_KEY_MARK := "PRIVATE KEY"
  const ENCRYPTED_PKCS8 := "ENCRYPTED PRIVATE KEY"

  function ReadBlock(pki: Pki, block: Block, password: string): KeyRead {
    if block.encrypted then
      if password == "" then Unreadable
      else
        var der := pki.decrypt(block, password);
        if der.None? then Unreadable else ReadDer(pki, der.value)
    else if block.kind == ENCRYPTED_PKCS8 then Unreadable
    else ReadDer(pki, block.bytes)
  }

  function ReadDer(pki: Pki, der: Der): KeyRead {
    var key := pki.parseKey(der);
    if key.Some? then Key(key.value) else Unreadable
  }

  // parsePEMPrivateKey: the first block that is any kind of private key decides.
  function ReadPem(pki: Pki, data: string, password: string): KeyRead
    decreases |data|
  {
    var next := pki.decodePem(data);
    if next.None? || |next.value.1| >= |data| then NotAKey
    else
      var (block, rest) := next.value;
      if Contains(block.kind, PRIVATE_KEY_MARK) then ReadBlock(pki, block, password)
      else ReadPem(pki, rest, password)
  }

  predicate HoldsPrivateKey(block: Block) {
    Contains(block.kind, PRIVATE_KEY_MARK)
  }

  // A document reads as its n-th block does when no block before is a private key.
  ghost predicate Decides(pki: Pki, blocks: seq<Block>, n: nat, password: string, read: KeyRead)
    requires n < |blocks|
  {
    && HoldsPrivateKey(blocks[n]) && (forall i :: 0 <= i < n ==> !HoldsPrivateKey(blocks[i]))
    && read == ReadBlock(pki, blocks[n], password)
  }

  // No block is a private key, or the first that is decides.
  ghost predicate ReadsAs(pki: Pki, blocks: seq<Block>, password: string, read: KeyRead) {
    || ((forall i :: 0 <= i < |blocks| ==> !HoldsPrivateKey(blocks[i])) && read == NotAKey)
    || (exists n :: 0 <= n < |blocks| && Decides(pki, blocks, n, password, read))
  }

  lemma OneMoreBlock(pki: Pki, block: Block, later: seq<Block>, password: string, read: KeyRead)
    requires !HoldsPrivateKey(block) && ReadsAs(pki, later, password, read)
    ensures ReadsAs(pki, [block] + later, password, read)
  {
    var blocks := [block] + later;
    if n :| 0 <= n < |later| && Decides(pki, later, n, password, read) {
      assert Decides(pki, blocks, n + 1, password, read);
    }
  }

  // The first private key block of a document decides, readable or not; whatever follows
  // it is not looked at, and without one there is no key.
  lemma {:induction false} FirstPrivateKeyDecides(pki: Pki, data: string, password: string)
    ensures ReadsAs(pki, Blocks(pki, data), password, ReadPem(pki, data, password))
    decreases |data|
  {
    var next := pki.decodePem(data);
    if next.Some? && |next.value.1| < |data| {
      var block, rest := next.value.0, next.value.1;
      if HoldsPrivateKey(block) {
        assert Decides(pki, [block] + Blocks(pki, rest), 0, password, ReadBlock(pki, block, password));
      } else {
        FirstPrivateKeyDecides(pki, rest, password);
        OneMoreBlock(pki, block, Blocks(pki, rest), password, ReadPem(pki, rest, password));
      }
    }
  }

  method ParsePEMPrivateKey(pki: Pki, data: string, password: string) returns (r: KeyRead)
    requires pki.Valid()
    ensures r == ReadPem(pki, data, password) && ReadsAs(pki, Blocks(pki, data), password, r)
  {
    FirstPrivateKeyDecides(pki, data, password);
    var rest := data;
    while true
      invariant ReadPem(pki, data, password) == ReadPem(pki, rest, password)
      decreases |rest|
    {
      var next := pki.decodePem(rest);
      if next.None? {
        return NotAKey;
      }
      var block := next.value.0;
      rest := next.value.1;
      if Contains(block.kind, PRIVATE_KEY_MARK) {
        return ReadBlock(pki, block, password);
      }
    }
  }

  function ReadCandidate(pki: Pki, candidate: string, password: string): KeyRead {
    if Contains(candidate, PEM_PREFIX) then ReadPem(pki, candidate, password)
    else
      var compact := Compact(candidate);
      if |compact| < 64 then NotAKey
      else
        var der := pki.decodeBase64(compact);
        if der.None? then NotAKey
        else
          var key := pki.parseKey(der.value);
          if key.Some? then Key(key.value) else NotAKey
  }

  // The export itself, then every string of the JSON envelope it may be.
  function Candidates(decode: Decoder, data: string): seq<string> {
    [data] + if decode(data).Some? then AllStrings(decode(data).value) else []
  }

  datatype ExportError = EmptyExport | UnreadableKey | UnencodableKey | NoKeyFound

  datatype ExportedKey = ExportedKey(key: PrivateKey, pem: string)

  function FirstKey(pki: Pki, candidates: seq<string>, password: string): Option<PrivateKey> {
    if candidates == [] then None
    else
      var read := ReadCandidate(pki, candidates[0], password);
      if read.Key? then Some(read.key) else FirstKey(pki, candidates[1..], password)
  }

  method ParsePrivateKeyCandidate(pki: Pki, candidate: string, password: string) returns (r: KeyRead)
    requires pki.Valid()
    ensures r == ReadCandidate(pki, candidate, password)
  {
    if Contains(candidate, PEM_PREFIX) {
      r := ParsePEMPrivateKey(pki, candidate, password);
    } else {
      r := ReadCandidate(pki, candidate, password);
    }
  }

  method CandidatesOf(decode: Decoder, data: string) returns (candidates: seq<string>)
    ensures candidates == Candidates(decode, data)
  {
    candidates := [data];
    var parsed := decode(data);
    if parsed.Some? {
      var strings := new Collector();
      strings.WalkStrings(parsed.value);
      candidates := candidates + strings.out;
    }
  }

  // What each outcome says: a key is the first candidate that reads as one, however
  // many before it could not be read; without any, an unreadable key is reported in
  // preference to none.
  ghost predicate Explains(pki: Pki, candidates: seq<string>, password: string, r: Result<ExportedKey, ExportError>) {
    match r
    case Ok(k) => FirstKey(pki, candidates, password) == Some(k.key) && pki.encodeKey(k.key) == Some(k.pem)
    case Err(EmptyExport) => false
    case Err(UnencodableKey) =>
      var key := FirstKey(pki, candidates, password);
      key.Some? && pki.encodeKey(key.value) == None
    case Err(UnreadableKey) =>
      && (forall i :: 0 <= i < |candidates| ==> !ReadCandidate(pki, candidates[i], password).Key?)
      && (exists i :: 0 <= i < |candidates| && ReadCandidate(pki, candidates[i], password) == Unreadable)
    case Err(NoKeyFound) =>
      forall i :: 0 <= i < |candidates| ==> ReadCandidate(pki, candidates[i], password) == NotAKey
  }

  method FirstKeyAmong(pki: Pki, candidates: seq<string>, password: string) returns (r: Result<ExportedKey,
      ExportError>)
    requires pki.Valid()
    ensures Explains(pki, candidates, password, r)
  {
    var failed := false;
    for i := 0 to |candidates|
      invariant FirstKey(pki, candidates[i..], password) == FirstKey(pki, candidates, password)
      invariant forall j :: 0 <= j < i ==> !ReadCandidate(pki, candidates[j], password).Key?
      invariant failed <==> exists j :: 0 <= j < i && ReadCandidate(pki, candidates[j], password) == Unreadable
    {
      assert candidates[i..][1..] == candidates[i + 1..];
      var read := ParsePrivateKeyCandidate(pki, candidates[i], password);
      if !read.Key? {
        failed := failed || read == Unreadable;
        continue;
      }
      var encoded := pki.encodeKey(read.key);
      if encoded.None? {
        return Err(UnencodableKey);
      }
      return Ok(ExportedKey(read.key, encoded.value));
    }
    return Err(if failed then UnreadableKey else NoKeyFound);
  }

  lemma {:induction false} NoKeyIsFirst(pki: Pki, candidates: seq<string>, password: string)
    requires forall i :: 0 <= i < |candidates| ==> !ReadCandidate(pki, candidates[i], password).Key?
    ensures FirstKey(pki, candidates, password) == None
  {
    if candidates != [] {
      NoKeyIsFirst(pki, candidates[1..], password);
    }
  }

  // There is an error exactly when no candidate is a key that can be written out.
  lemma ExplainedErrorsMeanNoKey(pki: Pki, candidates: seq<string>, password: string, r: Result<ExportedKey, ExportError>)
    requires Explains(pki, candidates, password, r)
    ensures var key := FirstKey(pki, candidates, password);
      r.Ok? <==> key.Some? && pki.encodeKey(key.value).Some?
  {
    if r.Err? && (r.error.UnreadableKey? || r.error.NoKeyFound?) {
      NoKeyIsFirst(pki, candidates, password);
    }
  }

  // ---------- the key in plain terms ----------

  // The block is the private key: decrypted with the password when it is encrypted, and as
  // it is when it is not; the newer way of encrypting cannot be undone.
  ghost predicate BlockHoldsKey(pki: Pki, block: Block, password: string, key: PrivateKey) {
    if block.encrypted then
      && password != "" && pki.decrypt(block, password).Some?
      && pki.parseKey(pki.decrypt(block, password).value) == Some(key)
    else block.kind != "ENCRYPTED PRIVATE KEY" && pki.parseKey(block.bytes) == Some(key)
  }

  // The text is the private key: in the first of its PEM blocks that is a private key, or,
  // without PEM, as base64 of at least 64 characters.
  ghost predicate TextHoldsKey(pki: Pki, candidate: string, password: string, key: PrivateKey) {
    if Contains(candidate, "-----BEGIN") then
      exists n :: 0 <= n < |Blocks(pki, candidate)|
        && Contains(Blocks(pki, candidate)[n].kind, "PRIVATE KEY")
        && (forall i :: 0 <= i < n ==> !Contains(Blocks(pki, candidate)[i].kind, "PRIVATE KEY"))
        && BlockHoldsKey(pki, Blocks(pki, candidate)[n], password, key)
    else
      var compact := Compact(candidate);
      |compact| >= 64 && pki.decodeBase64(compact).Some? && pki.parseKey(pki.decodeBase64(compact).value) == Some(key)
  }

  lemma BlockReadsAsKey(pki: Pki, block: Block, password: string, key: PrivateKey)
    ensures ReadBlock(pki, block, password) == Key(key) <==> BlockHoldsKey(pki, block, password, key)
  {}

  lemma PemReadsAsKey(pki: Pki, data: string, password: string, key: PrivateKey)
    requires Contains(data, "-----BEGIN")
    ensures ReadPem(pki, data, password) == Key(key) <==> TextHoldsKey(pki, data, password, key)
  {
    var blocks := Blocks(pki, data);
    FirstPrivateKeyDecides(pki, data, password);
    hide ReadBlock, BlockHoldsKey, Contains, Blocks;
    forall n | 0 <= n < |blocks|
      ensures ReadBlock(pki, blocks[n], password) == Key(key) <==> BlockHoldsKey(pki, blocks[n], password, key)
    {
      BlockReadsAsKey(pki, blocks[n], password, key);
    }
    if TextHoldsKey(pki, data, password, key) {
      var n :| 0 <= n < |blocks| && Contains(blocks[n].kind, "PRIVATE KEY")
        && (forall i :: 0 <= i < n ==> !Contains(blocks[i].kind, "PRIVATE KEY"))
        && BlockHoldsKey(pki, blocks[n], password, key);
      assert HoldsPrivateKey(blocks[n]);
      var m :| 0 <= m < |blocks| && Decides(pki, blocks, m, password, ReadPem(pki, data, password));
      assert m == n;
    }
  }

  lemma CandidateReadsAsKey(pki: Pki, candidate: string, password: string, key: PrivateKey)
    ensures ReadCandidate(pki, candidate, password) == Key(key) <==> TextHoldsKey(pki, candidate, password, key)
  {
    if Contains(candidate, "-----BEGIN") {
      PemReadsAsKey(pki, candidate, password, key);
    }
    hide ReadPem, Blocks;
  }

  // There is a private key block in the text, and the first does not hold a key.
  ghost predicate TextSpoilsKey(pki: Pki, candidate: string, password: string) {
    && Contains(candidate, "-----BEGIN")
    && (exists block :: block in Blocks(pki, candidate) && Contains(block.kind, "PRIVATE KEY"))
    && forall key :: !TextHoldsKey(pki, candidate, password, key)
  }

  lemma CandidateIsSpoilt(pki: Pki, candidate: string, password: string)
    ensures ReadCandidate(pki, candidate, password) == Unreadable <==> TextSpoilsKey(pki, candidate, password)
  {
    var read := ReadCandidate(pki, candidate, password);
    forall key ensures read == Key(key) <==> TextHoldsKey(pki, candidate, password, key) {
      CandidateReadsAsKey(pki, candidate, password, key);
    }
    if Contains(candidate, "-----BEGIN") {
      var blocks := Blocks(pki, candidate);
      FirstPrivateKeyDecides(pki, candidate, password);
      assert forall i :: 0 <= i < |blocks| ==> HoldsPrivateKey(blocks[i]) == Contains(blocks[i].kind, "PRIVATE KEY");
    }
    hide ReadPem, TextHoldsKey, Contains, Blocks;
  }

  ghost predicate SomeTextSpoilsKey(pki: Pki, candidates: seq<string>, password: string) {
    exists j :: 0 <= j < |candidates| && TextSpoilsKey(pki, candidates[j], password)
  }

  // Without a key, a spoilt one decides which error is reported.
  lemma ErrorsTellOfSpoiltKeys(pki: Pki, candidates: seq<string>, password: string, r: Result<ExportedKey, ExportError>)
    requires Explains(pki, candidates, password, r)
    ensures r == Err(UnreadableKey) ==>
      NoTextHoldsKey(pki, candidates, password) && SomeTextSpoilsKey(pki, candidates, password)
    ensures r == Err(NoKeyFound) ==>
      NoTextHoldsKey(pki, candidates, password) && !SomeTextSpoilsKey(pki, candidates, password)
  {
    forall j | 0 <= j < |candidates|
      ensures ReadCandidate(pki, candidates[j], password) == Unreadable <==> TextSpoilsKey(pki, candidates[j], password)
    {
      CandidateIsSpoilt(pki, candidates[j], password);
    }
    hide ReadCandidate, TextHoldsKey, TextSpoilsKey, FirstKey;
    if r.Err? && (r.error.UnreadableKey? || r.error.NoKeyFound?) {
      forall j, key | 0 <= j < |candidates| ensures !TextHoldsKey(pki, candidates[j], password, key) {
        CandidateReadsAsKey(pki, candidates[j], password, key);
        assert !ReadCandidate(pki, candidates[j], password).Key?;
      }
      assert NoTextHoldsKey(pki, candidates, password);
    }
  }

  ghost predicate NoTextHoldsKey(pki: Pki, candidates: seq<string>, password: string) {
    forall j, key :: 0 <= j < |candidates| ==> !TextHoldsKey(pki, candidates[j], password, key)
  }

  // The n-th text holds the key, and no text before it holds one.
  ghost predicate FirstHoldsKey(pki: Pki, candidates: seq<string>, password: string, n: nat, key: PrivateKey)
    requires n < |candidates|
  {
    && TextHoldsKey(pki, candidates[n], password, key)
    && forall j, other :: 0 <= j < n ==> !TextHoldsKey(pki, candidates[j], password, other)
  }

  // The key is that of the first text that holds one.
  ghost predicate HeldFirst(pki: Pki, candidates: seq<string>, password: string, key: PrivateKey) {
    exists n :: 0 <= n < |candidates| && FirstHoldsKey(pki, candidates, password, n, key)
  }

  // The key that is found is that of the first text that holds one; there is none only when
  // no text does.
  lemma {:induction false} FirstKeyInPlainTerms(pki: Pki, candidates: seq<string>, password: string)
    ensures match FirstKey(pki, candidates, password)
      case Some(key) => HeldFirst(pki, candidates, password, key)
      case None => NoTextHoldsKey(pki, candidates, password)
  {
    hide ReadCandidate, TextHoldsKey;
    if candidates != [] {
      var rest := candidates[1..];
      FirstKeyInPlainTerms(pki, rest, password);
      forall key ensures ReadCandidate(pki, candidates[0], password) == Key(key) <==>
        TextHoldsKey(pki, candidates[0], password, key)
      {
        CandidateReadsAsKey(pki, candidates[0], password, key);
      }
      var first := FirstKey(pki, candidates, password);
      if ReadCandidate(pki, candidates[0], password).Key? {
        assert ReadCandidate(pki, candidates[0], password) == Key(first.value);
        assert TextHoldsKey(pki, candidates[0], password, first.value);
        assert FirstHoldsKey(pki, candidates, password, 0, first.value);
        assert HeldFirst(pki, candidates, password, first.value);
      } else if first.Some? {
        var n :| 0 <= n < |rest| && FirstHoldsKey(pki, rest, password, n, first.value);
        forall j, key | 0 <= j < n + 1 ensures !TextHoldsKey(pki, candidates[j], password, key) {
          assert j > 0 ==> candidates[j] == rest[j - 1];
        }
        assert FirstHoldsKey(pki, candidates, password, n + 1, first.value);
      } else {
        forall j, key | 0 <= j < |candidates| ensures !TextHoldsKey(pki, candidates[j], password, key) {
          assert j > 0 ==> candidates[j] == rest[j - 1];
        }
      }
    }
  }

  // The export and, if it is JSON, every string in it.
  function Texts(decode: Decoder, data: string): seq<string> {
    match decode(data)
    case None => [data]
    case Some(doc) => [data] + AllStrings(doc)
  }

  lemma TextsAreCandidates(decode: Decoder, data: string)
    ensures Texts(decode, data) == Candidates(decode, data)
  {
    hide AllStrings;
  }

  method ParseExportedPrivateKey(pki: Pki, decode: Decoder, data: string, password: string)
    returns (r: Result<ExportedKey, ExportError>)
    requires pki.Valid()
    ensures if data == "" then r == Err(EmptyExport) else Explains(pki, Candidates(decode, data), password, r)
    ensures match r
      case Ok(k) =>
        data != "" && pki.encodeKey(k.key) == Some(k.pem) && HeldFirst(pki, Texts(decode, data), password, k.key)
      case Err(EmptyExport) => data == ""
      case Err(UnencodableKey) =>
        exists key :: HeldFirst(pki, Texts(decode, data), password, key) && pki.encodeKey(key) == None
      case Err(err) =>
        && NoTextHoldsKey(pki, Texts(decode, data), password)
        && (err == UnreadableKey <==> SomeTextSpoilsKey(pki, Texts(decode, data), password))
  {
    hide AllStrings, HeldFirst, NoTextHoldsKey, SomeTextSpoilsKey;
    TextsAreCandidates(decode, data);
    FirstKeyInPlainTerms(pki, Candidates(decode, data), password);
    if |data| == 0 {
      return Err(EmptyExport);
    }
    var candidates := CandidatesOf(decode, data);
    r := FirstKeyAmong(pki, candidates, password);
    ErrorsTellOfSpoiltKeys(pki, candidates, password, r);
  }

  // MatchesCertificate.
  predicate MatchesCertificate(key: PrivateKey, cert: Cert) {
    key.public.Some? && cert.key.Comparable? && cert.key == key.public.value
  }
}
