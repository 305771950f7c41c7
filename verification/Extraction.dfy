// internal/kmp/chain.go: collecting the certificates a response carries, as PEM blocks
// or as bare base64, each once.
module Extraction {
  import opened Basics
  import opened Text
  import opened Certificates
  import opened Chain

  // The certificates of a PEM document up to a block that does not parse, and whether
  // there is such a block.
  datatype PemScan = PemScan(certs: seq<Cert>, failed: bool)

  function ScanPem(pki: Pki, data: string): PemScan
    decreases |data|
  {
    var next := pki.decodePem(data);
    if next.None? || |next.value.1| >= |data| then PemScan([], false)
    else
      var (block, rest) := next.value;
      if block.kind != PEM_CERTIFICATE then ScanPem(pki, rest)
      else
        var cert := pki.parseCert(block.bytes);
        if cert.None? then PemScan([], true)
        else
          var later := ScanPem(pki, rest);
          PemScan([cert.value] + later.certs, later.failed)
  }

  // The blocks of a document, in order.
  function Blocks(pki: Pki, data: string): seq<Block>
    decreases |data|
  {
    var next := pki.decodePem(data);
    if next.None? || |next.value.1| >= |data| then [] else [next.value.0] + Blocks(pki, next.value.1)
  }

  function CertificateBlocks(blocks: seq<Block>): seq<Block> {
    if blocks == [] then []
    else (if blocks[0].kind == PEM_CERTIFICATE then [blocks[0]] else []) + CertificateBlocks(blocks[1..])
  }

  // The certificates are what the first certificate blocks parse to, one each; they are all
  // there are, or the next one does not parse.
  ghost predicate ReadsUpToFailure(pki: Pki, blocks: seq<Block>, scan: PemScan) {
    && |scan.certs| <= |blocks|
    && (forall i :: 0 <= i < |scan.certs| ==> pki.parseCert(blocks[i].bytes) == Some(scan.certs[i]))
    && (if scan.failed then |scan.certs| < |blocks| && pki.parseCert(blocks[|scan.certs|].bytes) == None
        else |scan.certs| == |blocks|)
  }

  lemma {:induction false} ScanReadsUpToFailure(pki: Pki, data: string)
    ensures ReadsUpToFailure(pki, CertificateBlocks(Blocks(pki, data)), ScanPem(pki, data))
    decreases |data|
  {
    var next := pki.decodePem(data);
    if next.Some? && |next.value.1| < |data| {
      var block, rest := next.value.0, next.value.1;
      ScanReadsUpToFailure(pki, rest);
      var all, later := CertificateBlocks(Blocks(pki, data)), CertificateBlocks(Blocks(pki, rest));
      assert Blocks(pki, data)[1..] == Blocks(pki, rest);
      if block.kind == PEM_CERTIFICATE {
        assert all == [block] + later;
      } else {
        assert all == later;
      }
    }
  }

  method ParsePEMCertificates(pki: Pki, data: string) returns (scan: PemScan)
    requires pki.Valid()
    ensures scan == ScanPem(pki, data) && ReadsUpToFailure(pki, CertificateBlocks(Blocks(pki, data)), scan)
  {
    ScanReadsUpToFailure(pki, data);
    var certs := [];
    var rest := data;
    while true
      invariant ScanPem(pki, data) == PemScan(certs + ScanPem(pki, rest).certs, ScanPem(pki, rest).failed)
      decreases |rest|
    {
      var next := pki.decodePem(rest);
      if next.None? {
        break;
      }
      ghost var before := rest;
      var block := next.value.0;
      rest := next.value.1;
      if block.kind != PEM_CERTIFICATE {
        continue;
      }
      var cert := pki.parseCert(block.bytes);
      if cert.None? {
        return PemScan(certs, true);
      }
      assert ScanPem(pki, before).certs == [cert.value] + ScanPem(pki, rest).certs;
      certs := certs + [cert.value];
    }
    return PemScan(certs, false);
  }

  function Compact(s: string): string {
    if s == "" then ""
    else (if s[0] in "\n\r\t " then "" else [s[0]]) + Compact(s[1..])
  }

  lemma {:induction false} CompactSnoc(s: string, c: char)
    ensures Compact(s + [c]) == Compact(s) + (if c in "\n\r\t " then "" else [c])
  {
    if s == "" {
      assert "" + [c] == [c] && [c][1..] == "";
    } else {
      assert (s + [c])[1..] == s[1..] + [c];
      CompactSnoc(s[1..], c);
    }
  }

  // Compacting leaves out line breaks, tabs and spaces and nothing else.
  lemma {:induction false} CompactKeepsTheRest(s: string) returns (at: seq<nat>)
    ensures AtTheRest(s, Compact(s), at, c => c != '\n' && c != '\r' && c != '\t' && c != ' ')
  {
    at := [];
    if s != "" {
      var n := |s| - 1;
      at := CompactKeepsTheRest(s[..n]);
      OneMoreAtTheRest(s[..n], s[n], Compact(s[..n]), at, c => c != '\n' && c != '\r' && c != '\t' && c != ' ');
      CompactSnoc(s[..n], s[n]);
      assert s == s[..n] + [s[n]];
      assert Compact(s[..n]) + "" == Compact(s[..n]);
      assert s[n] in "\n\r\t " <==> s[n] == '\n' || s[n] == '\r' || s[n] == '\t' || s[n] == ' ';
      at := if s[n] in "\n\r\t " then at else at + [n];
    }
  }

  // A bare base64 certificate. Shorter strings are never one.
  function Base64Certificate(pki: Pki, value: string): Option<Cert> {
    var compact := Compact(value);
    if |compact| < 128 then None
    else
      var der := pki.decodeBase64(compact);
      if der.None? then None else pki.parseCert(der.value)
  }

  function ScanValue(pki: Pki, value: string): PemScan {
    if Contains(value, PEM_PREFIX) then ScanPem(pki, value)
    else
      var cert := Base64Certificate(pki, value);
      PemScan(if cert.Some? then [cert.value] else [], false)
  }

  predicate HoldsCert(pki: Pki, block: Block, c: Cert) {
    block.kind == "CERTIFICATE" && pki.parseCert(block.bytes) == Some(c)
  }

  // The certificates are those the first n blocks hold; the next block, if any, is of type
  // CERTIFICATE and does not parse.
  ghost predicate ReadBefore(pki: Pki, blocks: seq<Block>, scan: PemScan, n: nat) {
    && n <= |blocks|
    && (forall c :: c in scan.certs <==> exists k :: 0 <= k < n && HoldsCert(pki, blocks[k], c))
    && (forall k :: 0 <= k < n && blocks[k].kind == "CERTIFICATE" ==> pki.parseCert(blocks[k].bytes).Some?)
    && (if scan.failed then n < |blocks| && blocks[n].kind == "CERTIFICATE" && pki.parseCert(blocks[n].bytes) == None
        else n == |blocks|)
  }

  lemma {:induction false} ReadBeforeFailure(pki: Pki, data: string) returns (n: nat)
    ensures ReadBefore(pki, Blocks(pki, data), ScanPem(pki, data), n)
    decreases |data|
  {
    n := 0;
    var next := pki.decodePem(data);
    if next.Some? && |next.value.1| < |data| {
      var block, rest := next.value.0, next.value.1;
      var blocks, later := Blocks(pki, data), Blocks(pki, rest);
      if block.kind != "CERTIFICATE" || pki.parseCert(block.bytes).Some? {
        var m := ReadBeforeFailure(pki, rest);
        n := m + 1;
        forall c ensures c in ScanPem(pki, data).certs <==> exists k :: 0 <= k < n && HoldsCert(pki, blocks[k], c) {
          if HoldsCert(pki, block, c) {
            assert HoldsCert(pki, blocks[0], c);
          } else if k :| 0 <= k < m && HoldsCert(pki, later[k], c) {
            assert HoldsCert(pki, blocks[k + 1], c);
          }
        }
      }
    }
  }

  // Where one string's certificates come from: those of a PEM document are read from its
  // blocks, and any other string is base64 of at least 128 characters, or holds none.
  lemma HeldInPlainTerms(pki: Pki, value: string) returns (n: nat)
    ensures var scan := ScanValue(pki, value);
      if Contains(value, "-----BEGIN") then ReadBefore(pki, Blocks(pki, value), scan, n)
      else
        && !scan.failed
        && (forall c :: scan.certs == [c] <==>
          && |Compact(value)| >= 128 && pki.decodeBase64(Compact(value)).Some?
          && pki.parseCert(pki.decodeBase64(Compact(value)).value) == Some(c))
        && (scan.certs == [] || exists c :: scan.certs == [c])
  {
    n := ReadBeforeFailure(pki, value);
  }

  // Everything found, in order and with repetitions.
  function ScanAll(pki: Pki, values: seq<string>): PemScan {
    if values == [] then PemScan([], false)
    else
      var first, later := ScanValue(pki, values[0]), ScanAll(pki, values[1..]);
      PemScan(first.certs + later.certs, first.failed || later.failed)
  }

  // Keeps the first certificate of each byte string not seen before.
  function FirstOccurrences(certs: seq<Cert>, seen: set<Der>): seq<Cert> {
    if certs == [] then []
    else if certs[0].raw in seen then FirstOccurrences(certs[1..], seen)
    else [certs[0]] + FirstOccurrences(certs[1..], seen + {certs[0].raw})
  }

  // certificatesFromStrings; None is the error of the first PEM document that failed.
  function Extracted(pki: Pki, values: seq<string>): Option<seq<Cert>> {
    var scan := ScanAll(pki, values);
    if scan.certs == [] && scan.failed then None else Some(FirstOccurrences(scan.certs, {}))
  }

  function Raws(certs: seq<Cert>): set<Der> {
    set c | c in certs :: c.raw
  }

  lemma {:induction false} FirstOccurrencesConcat(a: seq<Cert>, b: seq<Cert>, seen: set<Der>)
    ensures FirstOccurrences(a + b, seen) == FirstOccurrences(a, seen) + FirstOccurrences(b, seen + Raws(a))
    decreases |a|
  {
    if a == [] {
      assert a + b == b;
      assert seen + Raws(a) == seen;
    } else {
      assert (a + b)[1..] == a[1..] + b;
      assert a == [a[0]] + a[1..];
      RawsConcat([a[0]], a[1..]);
      assert Raws([a[0]]) == {a[0].raw};
      if a[0].raw in seen {
        FirstOccurrencesConcat(a[1..], b, seen);
        assert seen + Raws(a[1..]) == seen + Raws(a);
      } else {
        var later := seen + {a[0].raw};
        FirstOccurrencesConcat(a[1..], b, later);
        assert later + Raws(a[1..]) == seen + Raws(a);
        Associate([a[0]], FirstOccurrences(a[1..], later), FirstOccurrences(b, later + Raws(a[1..])));
      }
    }
  }

  lemma FirstOccurrencesSnoc(a: seq<Cert>, c: Cert, seen: set<Der>, before: seq<Cert>)
    ensures before + FirstOccurrences(a + [c], seen) ==
      before + FirstOccurrences(a, seen) + FirstOccurrences([c], seen + Raws(a))
    ensures seen + Raws(a + [c]) == seen + Raws(a) + {c.raw}
  {
    FirstOccurrencesConcat(a, [c], seen);
    Associate(before, FirstOccurrences(a, seen), FirstOccurrences([c], seen + Raws(a)));
    RawsConcat(a, [c]);
    assert Raws([c]) == {c.raw};
  }

  // The seen map, the certificates kept and the first failure, as the closure updates
  // them.
  class Gatherer {
    const pki: Pki
    var certs: seq<Cert>
    var seen: set<Der>
    var failed: bool

    constructor (pki: Pki)
      ensures certs == [] && seen == {} && !failed && this.pki == pki
    {
      this.pki := pki;
      certs, seen, failed := [], {}, false;
    }

    method Add(cert: Cert)
      modifies this`certs, this`seen
      ensures certs == old(certs) + FirstOccurrences([cert], old(seen))
      ensures seen == old(seen) + {cert.raw}
    {
      assert [cert][1..] == [];
      if cert.raw in seen {
        return;
      }
      seen := seen + {cert.raw};
      certs := certs + [cert];
    }

    method AddAll(parsed: seq<Cert>)
      modifies this`certs, this`seen
      ensures certs == old(certs) + FirstOccurrences(parsed, old(seen))
      ensures seen == old(seen) + Raws(parsed)
    {
      for i := 0 to |parsed|
        invariant certs == old(certs) + FirstOccurrences(parsed[..i], old(seen))
        invariant seen == old(seen) + Raws(parsed[..i])
      {
        FirstOccurrencesSnoc(parsed[..i], parsed[i], old(seen), old(certs));
        assert parsed[..i + 1] == parsed[..i] + [parsed[i]];
        Add(parsed[i]);
      }
      assert parsed[..|parsed|] == parsed;
    }

    method AddValue(value: string)
      requires pki.Valid()
      modifies this
      ensures certs == old(certs) + FirstOccurrences(ScanValue(pki, value).certs, old(seen))
      ensures seen == old(seen) + Raws(ScanValue(pki, value).certs)
      ensures failed == (old(failed) || ScanValue(pki, value).failed)
    {
      if Contains(value, PEM_PREFIX) {
        var scan := ParsePEMCertificates(pki, value);
        if scan.failed && !failed {
          failed := true;
        }
        AddAll(scan.certs);
        return;
      }
      var cert := Base64Certificate(pki, value);
      AddAll(if cert.Some? then [cert.value] else []);
    }
  }

  method CertificatesFromStrings(pki: Pki, values: seq<string>) returns (r: Option<seq<Cert>>)
    requires pki.Valid()
    ensures r == Extracted(pki, values)
  {
    var g := new Gatherer(pki);
    for i := 0 to |values|
      invariant g.pki == pki
      invariant g.certs == FirstOccurrences(ScanAll(pki, values[..i]).certs, {})
      invariant g.seen == Raws(ScanAll(pki, values[..i]).certs)
      invariant g.failed == ScanAll(pki, values[..i]).failed
    {
      ScanAllSnoc(pki, values[..i], values[i]);
      assert values[..i + 1] == values[..i] + [values[i]];
      FirstOccurrencesConcat(ScanAll(pki, values[..i]).certs, ScanValue(pki, values[i]).certs, {});
      RawsConcat(ScanAll(pki, values[..i]).certs, ScanValue(pki, values[i]).certs);
      assert {} + Raws(ScanAll(pki, values[..i]).certs) == g.seen;
      g.AddValue(values[i]);
    }
    assert values[..|values|] == values;
    FirstOccurrencesAreFirst(ScanAll(pki, values).certs, {});
    if |g.certs| == 0 && g.failed {
      return None;
    }
    return Some(g.certs);
  }

  lemma RawsConcat(a: seq<Cert>, b: seq<Cert>)
    ensures Raws(a + b) == Raws(a) + Raws(b)
  {
    assert forall c :: c in a + b <==> c in a || c in b;
  }

  lemma {:induction false} ScanAllSnoc(pki: Pki, values: seq<string>, value: string)
    ensures ScanAll(pki, values + [value]) ==
      PemScan(ScanAll(pki, values).certs + ScanValue(pki, value).certs,
              ScanAll(pki, values).failed || ScanValue(pki, value).failed)
  {
    if values == [] {
      assert [value][1..] == [];
      assert [] + [value] == [value];
      assert ScanAll(pki, [value]).certs == ScanValue(pki, value).certs;
    } else {
      assert (values + [value])[1..] == values[1..] + [value];
      ScanAllSnoc(pki, values[1..], value);
    }
  }

  // ---------- what is extracted ----------

  // The position of the first certificate with the bytes, or past the end.
  function FirstWith(certs: seq<Cert>, raw: Der): (i: nat)
    ensures i <= |certs|
    ensures i < |certs| ==> certs[i].raw == raw
    ensures forall j :: 0 <= j < i ==> certs[j].raw != raw
  {
    if certs == [] || certs[0].raw == raw then 0 else 1 + FirstWith(certs[1..], raw)
  }

  // Each kept certificate is the first with its bytes, and they are kept in the order in
  // which they were met.
  ghost predicate FirstInOrder(certs: seq<Cert>, kept: seq<Cert>) {
    && (forall i :: 0 <= i < |kept| ==>
         FirstWith(certs, kept[i].raw) < |certs| && certs[FirstWith(certs, kept[i].raw)] == kept[i])
    && (forall i, j :: 0 <= i < j < |kept| ==> FirstWith(certs, kept[i].raw) < FirstWith(certs, kept[j].raw))
  }

  lemma InOrderBehindAnother(certs: seq<Cert>, kept: seq<Cert>)
    requires certs != [] && FirstInOrder(certs[1..], kept) && forall c :: c in kept ==> c.raw != certs[0].raw
    ensures FirstInOrder(certs, kept) && FirstInOrder(certs, [certs[0]] + kept)
  {
    var all := [certs[0]] + kept;
    forall k | 0 <= k < |kept| ensures FirstWith(certs, kept[k].raw) == 1 + FirstWith(certs[1..], kept[k].raw) {
      assert kept[k] in kept;
    }
    assert FirstWith(certs, all[0].raw) == 0;
    assert forall k :: 0 < k < |all| ==> all[k] == kept[k - 1];
  }

  lemma {:induction false} KeptInOrder(certs: seq<Cert>, seen: set<Der>)
    ensures FirstInOrder(certs, FirstOccurrences(certs, seen))
    decreases |certs|
  {
    if certs != [] {
      var later := seen + {certs[0].raw};
      KeptInOrder(certs[1..], later);
      FirstOccurrencesAreFirst(certs[1..], later);
      InOrderBehindAnother(certs, FirstOccurrences(certs[1..], later));
      assert certs[0].raw in seen ==> later == seen;
    }
  }

  // All kept certificates differ in their bytes and none was seen before; nothing found
  // is lost.
  lemma {:induction false} FirstOccurrencesAreFirst(certs: seq<Cert>, seen: set<Der>)
    ensures var kept := FirstOccurrences(certs, seen);
      && (forall i, j :: 0 <= i < j < |kept| ==> kept[i].raw != kept[j].raw)
      && (forall c :: c in kept ==> c in certs && c.raw !in seen)
      && Raws(kept) == Raws(certs) - seen
      && (seen == {} && kept == [] ==> certs == [])
    decreases |certs|
  {
    if certs != [] {
      assert certs == [certs[0]] + certs[1..];
      assert Raws(certs) == {certs[0].raw} + Raws(certs[1..]);
      if certs[0].raw in seen {
        FirstOccurrencesAreFirst(certs[1..], seen);
      } else {
        var rest := FirstOccurrences(certs[1..], seen + {certs[0].raw});
        FirstOccurrencesAreFirst(certs[1..], seen + {certs[0].raw});
        RawsConcat([certs[0]], rest);
        assert Raws([certs[0]]) == {certs[0].raw};
      }
    }
  }

  lemma {:induction false} FirstOccurrencesOfDistinct(certs: seq<Cert>, seen: set<Der>)
    requires forall i, j :: 0 <= i < j < |certs| ==> certs[i].raw != certs[j].raw
    requires forall c :: c in certs ==> c.raw !in seen
    ensures FirstOccurrences(certs, seen) == certs
    decreases |certs|
  {
    if certs != [] {
      assert certs[0] in certs;
      forall c | c in certs[1..] ensures c.raw !in seen + {certs[0].raw} {
        var k :| 0 <= k < |certs[1..]| && certs[1..][k] == c;
        assert certs[k + 1] == c;
      }
      FirstOccurrencesOfDistinct(certs[1..], seen + {certs[0].raw});
    }
  }

  // What reached the caller has no duplicates, misses nothing any string held, and keeps
  // the order in which certificates were first met.
  // There is an error exactly when nothing was found and some PEM document failed.
  lemma ExtractionIsDistinctAndComplete(pki: Pki, values: seq<string>)
    ensures match Extracted(pki, values)
      case None => ScanAll(pki, values).certs == [] && exists v :: v in values && ScanValue(pki, v).failed
      case Some(certs) =>
        && (forall i, j :: 0 <= i < j < |certs| ==> certs[i].raw != certs[j].raw)
        && (forall v, c :: v in values && c in ScanValue(pki, v).certs ==> c.raw in Raws(certs))
        && (forall c :: c in certs ==> exists v :: v in values && c in ScanValue(pki, v).certs)
        && (certs == [] ==> forall v :: v in values ==> !ScanValue(pki, v).failed)
        && FirstInOrder(ScanAll(pki, values).certs, certs)
  {
    KeptInOrder(ScanAll(pki, values).certs, {});
    FirstOccurrencesAreFirst(ScanAll(pki, values).certs, {});
    ScanAllIsAll(pki, values);
  }

  lemma {:induction false} ScanAllIsAll(pki: Pki, values: seq<string>)
    ensures forall c :: c in ScanAll(pki, values).certs <==> exists v :: v in values && c in ScanValue(pki, v).certs
    ensures ScanAll(pki, values).failed <==> exists v :: v in values && ScanValue(pki, v).failed
  {
    if values != [] {
      ScanAllIsAll(pki, values[1..]);
      assert values == [values[0]] + values[1..];
    }
  }

  lemma {:induction false} ScannedAreParsed(pki: Pki, data: string)
    requires pki.Valid()
    ensures forall c :: c in ScanPem(pki, data).certs ==> pki.Parsed(c)
    decreases |data|
  {
    var next := pki.decodePem(data);
    if next.Some? {
      ScannedAreParsed(pki, next.value.1);
    }
  }

  // Every certificate extracted is what its own bytes parse to, so bytes identify it.
  lemma {:induction false} ExtractedAreParsed(pki: Pki, values: seq<string>)
    requires pki.Valid()
    ensures forall c :: c in ScanAll(pki, values).certs ==> pki.Parsed(c)
    ensures Extracted(pki, values).Some? ==> forall c :: c in Extracted(pki, values).value ==> pki.Parsed(c)
  {
    if values != [] {
      ExtractedAreParsed(pki, values[1..]);
      ScannedAreParsed(pki, values[0]);
    }
    FirstOccurrencesAreFirst(ScanAll(pki, values).certs, {});
  }

  // ---------- the round trip ----------

  // The certificate can be written and read back.
  ghost predicate Encodable(pki: Pki, c: Cert) {
    c.raw != [] && pki.Parsed(c)
  }

  lemma ScanOne(pki: Pki, c: Cert, rest: string)
    requires pki.Valid() && Encodable(pki, c)
    ensures ScanPem(pki, pki.encodePem(CertificateBlock(c)) + rest) ==
      PemScan([c] + ScanPem(pki, rest).certs, ScanPem(pki, rest).failed)
  {
    assert pki.decodePem(pki.encodePem(CertificateBlock(c)) + rest) == Some((CertificateBlock(c), rest));
  }

  // Whatever follows encoded certificates, broken or not, does not cost any of them.
  lemma {:induction false} ScanKeepsEarlierCertificates(pki: Pki, chain: seq<Cert>, rest: string)
    requires pki.Valid() && forall c :: c in chain ==> Encodable(pki, c)
    ensures ScanPem(pki, EncodeAll(pki, chain) + rest) ==
      PemScan(chain + ScanPem(pki, rest).certs, ScanPem(pki, rest).failed)
  {
    if chain == [] {
      assert "" + rest == rest;
    } else {
      var first, tail := pki.encodePem(CertificateBlock(chain[0])), EncodeAll(pki, chain[1..]) + rest;
      assert chain[0] in chain;
      assert EncodeAll(pki, chain) + rest == first + tail;
      ScanOne(pki, chain[0], tail);
      ScanKeepsEarlierCertificates(pki, chain[1..], rest);
      assert [chain[0]] + (chain[1..] + ScanPem(pki, rest).certs) == chain + ScanPem(pki, rest).certs;
    }
  }

  lemma EncodedChainIsScanned(pki: Pki, chain: seq<Cert>)
    requires pki.Valid() && forall c :: c in chain ==> Encodable(pki, c)
    ensures ScanValue(pki, EncodeAll(pki, chain)) == PemScan(chain, false)
  {
    var text := EncodeAll(pki, chain);
    if chain == [] {
      assert text == "" && !Contains(text, PEM_PREFIX);
    } else {
      ScanKeepsEarlierCertificates(pki, chain, "");
      assert text + "" == text;
      assert PEM_PREFIX <= pki.encodePem(CertificateBlock(chain[0])) <= text;
      assert Contains(text, PEM_PREFIX);
      assert pki.decodePem("").None?;
    }
  }

  lemma ScanSingle(pki: Pki, value: string)
    ensures ScanAll(pki, [value]) == ScanValue(pki, value)
  {
    assert [value][1..] == [];
    var scan := ScanValue(pki, value);
    assert scan.certs + [] == scan.certs;
  }

  // Reading an encoded chain back gives exactly the chain.
  lemma RoundTrip(pki: Pki, chain: seq<Cert>)
    requires pki.Valid() && forall c :: c in chain ==> Encodable(pki, c)
    requires forall i, j :: 0 <= i < j < |chain| ==> chain[i].raw != chain[j].raw
    ensures Extracted(pki, [EncodeAll(pki, chain)]) == Some(chain)
  {
    hide ScanValue, ScanAll, EncodeAll, FirstOccurrences;
    EncodedChainIsScanned(pki, chain);
    ScanSingle(pki, EncodeAll(pki, chain));
    FirstOccurrencesOfDistinct(chain, {});
  }
}
