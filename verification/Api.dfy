// The KMPCertificate resource (api/v1alpha1/kmpcertificate_types.go) and the request
// the controller makes of it.
module Api {
  import opened Basics

  datatype Subject = Subject(
    organization: string, organizationalUnit: string, locality: string, province: string, country: string)

  datatype KeySpec = KeySpec(algorithm: string, size: Option<int>, signatureAlgorithm: string, storeType: string)

  datatype SecretKey = SecretKey(name: string, key: string)

  // Durations are in nanoseconds.
  datatype Spec = Spec(
    issuerKind: string, commonName: string, dnsNames: seq<string>, ipAddresses: seq<string>, subject: Subject,
    privateKey: KeySpec, validityDays: Option<int>, validityType: string, renewBefore: Option<int>,
    passwordRef: Option<SecretKey>)

  datatype ProvisionRequest = ProvisionRequest(
    commonName: string, altNames: seq<string>,
    organization: string, organizationalUnit: string, location: string, state: string, country: string,
    keyAlgorithm: string, keyLength: int, signatureAlgorithm: string, storeType: string,
    validityType: string, validityDays: Option<int>, password: string, exportFileType: string)

  // provisionRequest.
  function RequestOf(spec: Spec, password: string): ProvisionRequest {
    ProvisionRequest(
      spec.commonName, spec.dnsNames + spec.ipAddresses,
      spec.subject.organization, spec.subject.organizationalUnit, spec.subject.locality, spec.subject.province,
      spec.subject.country,
      spec.privateKey.algorithm, if spec.privateKey.size.Some? then spec.privateKey.size.value else 0,
      spec.privateKey.signatureAlgorithm, spec.privateKey.storeType,
      spec.validityType, spec.validityDays, password, "")
  }
}
