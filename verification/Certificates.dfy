// Certificates, keys and the codecs they travel in. Cryptography and encodings are
// fields of Pki; Valid states the little that is relied on.
module Certificates {
  import opened Basics
  import opened Text

  newtype Byte = x: int | 0 <= x < 256

  type Der = seq<Byte>

  // A public key as crypto/x509 yields it: comparable through Equal, of a type without
  // Equal, or absent.
  datatype PublicKey = Comparable(id: nat) | Incomparable(id: nat) | Absent

  // A private key, with its public half when the type offers one.
  datatype PrivateKey = PrivateKey(id: nat, public: Option<PublicKey>)

  datatype Names = Names(
    commonName: string, organization: seq<string>, organizationalUnit: seq<string>,
    dnsNames: seq<string>, ipAddresses: seq<IP>, emails: seq<string>, uris: seq<string>)

  datatype Cert = Cert(
    raw: Der, subject: Der, issuer: Der, key: PublicKey, names: Names, notBefore: int, notAfter: int)

  datatype Block = Block(kind: string, bytes: Der, encrypted: bool)

  const PEM_CERTIFICATE := "CERTIFICATE"
  const PEM_PREFIX := "-----BEGIN"

  datatype Pki = Pki(
    signedBy: (Cert, Cert) -> bool,                    // child.CheckSignatureFrom(parent) == nil
    decodePem: string -> Option<(Block, string)>,      // pem.Decode: a block and what follows it
    encodePem: Block -> string,                        // pem.Encode
    decodeBase64: string -> Option<Der>,
    parseCert: Der -> Option<Cert>,                    // x509.ParseCertificate
    decrypt: (Block, string) -> Option<Der>,           // x509.DecryptPEMBlock
    parseKey: Der -> Option<PrivateKey>,               // PKCS#8, PKCS#1 or SEC 1
    encodeKey: PrivateKey -> Option<string>,           // an unencrypted PKCS#8 block
    splitChain: string -> Option<(string, string)>,    // pki.ParseSingleCertificateChainPEM
    leafOf: string -> Option<Cert>)                    // first of pki.DecodeX509CertificateChainBytes
  {
    // Decoding consumes input, a certificate block written is read back, and a parsed
    // certificate keeps its bytes.
    ghost predicate Valid() {
      && (forall s {:trigger decodePem(s)} :: decodePem(s).Some? ==> |decodePem(s).value.1| < |s|)
      && (forall b: Block, rest :: b.kind == PEM_CERTIFICATE && b.bytes != [] && !b.encrypted ==>
           decodePem(encodePem(b) + rest) == Some((b, rest)))
      && (forall b: Block :: PEM_PREFIX <= encodePem(b))
      && (forall der :: parseCert(der).Some? ==> parseCert(der).value.raw == der)
    }

    // The certificate really is what its bytes parse to.
    predicate Parsed(c: Cert) {
      parseCert(c.raw) == Some(c)
    }
  }
}
