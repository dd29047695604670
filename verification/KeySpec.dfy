/** The table of key specs and what it implies for a signing request (src/keyspec.c, src/keyspec.h). */
module KeySpec {
  import opened Bytes

  datatype Family = RSA | EC | ED25519 | ML_DSA

  datatype MsgType = DIGEST | RAW | EXTERNAL_MU

  datatype Digest = NONE | SHA256 | SHA384 | SHA512 | OTHER

  datatype Algorithm =
    | RSASSA_PKCS1_V1_5_SHA_256 | RSASSA_PKCS1_V1_5_SHA_384 | RSASSA_PKCS1_V1_5_SHA_512
    | RSASSA_PSS_SHA_256 | RSASSA_PSS_SHA_384 | RSASSA_PSS_SHA_512
    | ECDSA_SHA_256 | ECDSA_SHA_384 | ECDSA_SHA_512
    | ED25519_SHA_512
    | ML_DSA_SHAKE_256

  datatype Spec = Spec(
    name: string, family: Family, msgType: MsgType, keyType: string, group: Option<string>, digest: Digest,
    publicLength: nat, signatureLength: nat)

  const SPECS: seq<Spec> := [
    Spec("RSA_2048", RSA, DIGEST, "RSA", None, NONE, 0, 0),
    Spec("RSA_3072", RSA, DIGEST, "RSA", None, NONE, 0, 0),
    Spec("RSA_4096", RSA, DIGEST, "RSA", None, NONE, 0, 0),
    Spec("ECC_NIST_P256", EC, DIGEST, "EC", Some("prime256v1"), SHA256, 0, 0),
    Spec("ECC_NIST_P384", EC, DIGEST, "EC", Some("secp384r1"), SHA384, 0, 0),
    Spec("ECC_NIST_P521", EC, DIGEST, "EC", Some("secp521r1"), SHA512, 0, 0),
    Spec("ECC_NIST_EDWARDS25519", ED25519, RAW, "ED25519", None, NONE, 32, 64),
    Spec("ML_DSA_44", ML_DSA, EXTERNAL_MU, "ML-DSA-44", None, NONE, 1312, 2420),
    Spec("ML_DSA_65", ML_DSA, EXTERNAL_MU, "ML-DSA-65", None, NONE, 1952, 3309),
    Spec("ML_DSA_87", ML_DSA, EXTERNAL_MU, "ML-DSA-87", None, NONE, 2592, 4627)]

  /** A pointer into the table. */
  ghost predicate Known(spec: Spec) {
    spec in SPECS
  }

  /** A character that tells the names apart. */
  function Mark(name: string): char {
    if |name| == 8 then name[4] else if |name| == 9 then name[8] else if |name| == 13 then name[12] else '-'
  }

  function MarkOfRow(i: nat): char {
    match i
    case 0 => '2' case 1 => '3' case 2 => '4' case 3 => '6' case 4 => '4' case 5 => '1'
    case 6 => '-' case 7 => '4' case 8 => '5' case _ => '7'
  }

  lemma RowNames(i: nat)
    requires i < |SPECS|
    ensures var n := |SPECS[i].name|;
      n == (if i < 3 then 8 else if i < 6 then 13 else if i < 7 then 21 else 9) && Mark(SPECS[i].name) == MarkOfRow(i)
  {
    assert SPECS[i].name == match i
      case 0 => "RSA_2048" case 1 => "RSA_3072" case 2 => "RSA_4096" case 3 => "ECC_NIST_P256"
      case 4 => "ECC_NIST_P384" case 5 => "ECC_NIST_P521" case 6 => "ECC_NIST_EDWARDS25519"
      case 7 => "ML_DSA_44" case 8 => "ML_DSA_65" case _ => "ML_DSA_87";
  }

  /** The names of the table differ in their length or in the character that marks them. */
  lemma NamesApart()
    ensures |"RSA_2048"| == |"RSA_3072"| == |"RSA_4096"| == 8
    ensures "RSA_2048"[4] == '2' && "RSA_3072"[4] == '3' && "RSA_4096"[4] == '4'
    ensures |"ECC_NIST_P256"| == |"ECC_NIST_P384"| == |"ECC_NIST_P521"| == 13 && |"ECC_NIST_EDWARDS25519"| == 21
    ensures "ECC_NIST_P256"[12] == '6' && "ECC_NIST_P384"[12] == '4' && "ECC_NIST_P521"[12] == '1'
    ensures |"ML_DSA_44"| == |"ML_DSA_65"| == |"ML_DSA_87"| == 9
    ensures "ML_DSA_44"[8] == '4' && "ML_DSA_65"[8] == '5' && "ML_DSA_87"[8] == '7'
  {
  }

  /** No two rows share a name. */
  lemma NamesAreDistinct(a: Spec, b: Spec)
    requires Known(a) && Known(b) && a.name == b.name
    ensures a == b
  {
    var i :| 0 <= i < |SPECS| && SPECS[i] == a;
    var j :| 0 <= j < |SPECS| && SPECS[j] == b;
    RowNames(i);
    RowNames(j);
  }

  /** The row with the name, if there is one. */
  method ByName(name: Option<string>) returns (spec: Option<Spec>)
    ensures spec.Some? ==> Known(spec.value) && name == Some(spec.value.name)
    ensures spec.None? ==> forall s :: Known(s) ==> name != Some(s.name)
  {
    if name.None? {
      return None;
    }
    for i := 0 to |SPECS|
      invariant forall j :: 0 <= j < i ==> SPECS[j].name != name.value
    {
      if SPECS[i].name == name.value {
        return Some(SPECS[i]);
      }
    }
    return None;
  }

  function DigestLength(digest: Digest): nat {
    match digest
    case SHA256 => 32
    case SHA384 => 48
    case SHA512 => 64
    case _ => 0
  }

  function SigningAlgorithm(spec: Spec, digest: Digest, pss: bool): Option<Algorithm> {
    match spec.family
    case RSA => (
      match digest
      case SHA256 => Some(if pss then RSASSA_PSS_SHA_256 else RSASSA_PKCS1_V1_5_SHA_256)
      case SHA384 => Some(if pss then RSASSA_PSS_SHA_384 else RSASSA_PKCS1_V1_5_SHA_384)
      case SHA512 => Some(if pss then RSASSA_PSS_SHA_512 else RSASSA_PKCS1_V1_5_SHA_512)
      case _ => None)
    case EC =>
      if digest != spec.digest then None
      else (
        match digest
        case SHA256 => Some(ECDSA_SHA_256)
        case SHA384 => Some(ECDSA_SHA_384)
        case SHA512 => Some(ECDSA_SHA_512)
        case _ => None)
    case ED25519 => if digest == NONE then Some(ED25519_SHA_512) else None
    case ML_DSA => if digest == NONE then Some(ML_DSA_SHAKE_256) else None
  }

  // ---------------------------------------------------------------- the algorithms, read the other way

  /** What KMS documents about an algorithm: the keys it is for, how it takes the message, and its digest. */
  datatype Meaning = Meaning(family: Family, msgType: MsgType, digest: Digest, pss: bool)

  function MeaningOf(a: Algorithm): Meaning {
    match a
    case RSASSA_PKCS1_V1_5_SHA_256 => Meaning(RSA, DIGEST, SHA256, false)
    case RSASSA_PKCS1_V1_5_SHA_384 => Meaning(RSA, DIGEST, SHA384, false)
    case RSASSA_PKCS1_V1_5_SHA_512 => Meaning(RSA, DIGEST, SHA512, false)
    case RSASSA_PSS_SHA_256 => Meaning(RSA, DIGEST, SHA256, true)
    case RSASSA_PSS_SHA_384 => Meaning(RSA, DIGEST, SHA384, true)
    case RSASSA_PSS_SHA_512 => Meaning(RSA, DIGEST, SHA512, true)
    case ECDSA_SHA_256 => Meaning(EC, DIGEST, SHA256, false)
    case ECDSA_SHA_384 => Meaning(EC, DIGEST, SHA384, false)
    case ECDSA_SHA_512 => Meaning(EC, DIGEST, SHA512, false)
    case ED25519_SHA_512 => Meaning(ED25519, RAW, NONE, false)
    case ML_DSA_SHAKE_256 => Meaning(ML_DSA, EXTERNAL_MU, NONE, false)
  }

  /** The rows of the table are consistent: one message type a family, fixed lengths where a row has them. */
  lemma TableFacts(spec: Spec)
    requires Known(spec)
    ensures spec.msgType == (match spec.family case ED25519 => RAW case ML_DSA => EXTERNAL_MU case _ => DIGEST)
    ensures spec.family.EC? <==> spec.group.Some?
    ensures spec.family.EC? <==> spec.digest != NONE
    ensures spec.digest != OTHER
    ensures spec.signatureLength > 0 <==> spec.msgType != DIGEST
    ensures spec.publicLength > 0 <==> spec.msgType != DIGEST
  {
    assert forall i :: 0 <= i < |SPECS| ==> var s := SPECS[i];
      && s.msgType == (match s.family case ED25519 => RAW case ML_DSA => EXTERNAL_MU case _ => DIGEST)
      && (s.family.EC? <==> s.group.Some?) && (s.family.EC? <==> s.digest != NONE) && s.digest != OTHER
      && (s.signatureLength > 0 <==> s.msgType != DIGEST) && (s.publicLength > 0 <==> s.msgType != DIGEST);
  }

  /** Row by row, what AWS documents: the curve's digest, and the sizes of Ed25519 and of FIPS 204. */
  lemma RowsByName(spec: Spec)
    requires Known(spec)
    ensures spec.digest == (if spec.name == "ECC_NIST_P256" then SHA256 else if spec.name == "ECC_NIST_P384" then SHA384
                            else if spec.name == "ECC_NIST_P521" then SHA512 else NONE)
    ensures spec.signatureLength ==
      (if spec.name == "ECC_NIST_EDWARDS25519" then 64 else if spec.name == "ML_DSA_44" then 2420
       else if spec.name == "ML_DSA_65" then 3309 else if spec.name == "ML_DSA_87" then 4627 else 0)
    ensures spec.family == (if spec.name[..3] == "RSA" then RSA else if spec.name[..3] == "ML_" then ML_DSA
                            else if spec.name == "ECC_NIST_EDWARDS25519" then ED25519 else EC)
  {
    var i :| 0 <= i < |SPECS| && SPECS[i] == spec;
    RowNames(i);
    NamesApart();
    RowHeads(i);
  }

  lemma RowHeads(i: nat)
    requires i < |SPECS|
    ensures |SPECS[i].name| >= 3
    ensures SPECS[i].name[..3] == if i < 3 then "RSA" else if i < 7 then "ECC" else "ML_"
  {
    assert SPECS[i].name[..3] == match i
      case 0 => "RSA_2048"[..3] case 1 => "RSA_3072"[..3] case 2 => "RSA_4096"[..3] case 3 => "ECC_NIST_P256"[..3]
      case 4 => "ECC_NIST_P384"[..3] case 5 => "ECC_NIST_P521"[..3] case 6 => "ECC_NIST_EDWARDS25519"[..3]
      case 7 => "ML_DSA_44"[..3] case 8 => "ML_DSA_65"[..3] case _ => "ML_DSA_87"[..3];
    assert "RSA"[0] == 'R' && "ECC"[0] == 'E' && "ML_"[0] == 'M';
  }

  /** The digests KMS signs are as long as their names say. */
  lemma DigestBits(digest: Digest)
    ensures 8 * DigestLength(digest) == match digest
      case SHA256 => 256
      case SHA384 => 384
      case SHA512 => 512
      case _ => 0
  {
  }

  /**
   * The algorithm requested for a key is the one KMS documents for its family, message type, digest and
   * padding, and there is one exactly if KMS can sign: the curve's own digest for EC, a SHA-2 digest for
   * RSA, none for the rest.
   */
  lemma AlgorithmMatches(spec: Spec, digest: Digest, pss: bool)
    requires Known(spec)
    ensures SigningAlgorithm(spec, digest, pss).Some? ==>
      MeaningOf(SigningAlgorithm(spec, digest, pss).value)
        == Meaning(spec.family, spec.msgType, digest, pss && spec.family.RSA?)
    ensures SigningAlgorithm(spec, digest, pss).Some? <==>
      match spec.family
      case RSA => DigestLength(digest) > 0
      case EC => digest == spec.digest
      case _ => digest == NONE
  {
    TableFacts(spec);
    TableAlgorithms(spec, digest, pss);
  }

  lemma TableAlgorithms(spec: Spec, digest: Digest, pss: bool)
    requires spec.msgType == (match spec.family case ED25519 => RAW case ML_DSA => EXTERNAL_MU case _ => DIGEST)
    requires spec.family.EC? ==> spec.digest != NONE && spec.digest != OTHER
    ensures var a := SigningAlgorithm(spec, digest, pss);
      && (a.Some? ==> MeaningOf(a.value) == Meaning(spec.family, spec.msgType, digest, pss && spec.family.RSA?))
      && (a.Some? <==>
            match spec.family
            case RSA => DigestLength(digest) > 0
            case EC => digest == spec.digest
            case _ => digest == NONE)
  {
  }

  /** The three digests KMS signs have different lengths, so a length tells them apart. */
  lemma LengthTellsDigest(a: Digest, b: Digest)
    requires DigestLength(a) == DigestLength(b) > 0
    ensures a == b
  {
  }
}
