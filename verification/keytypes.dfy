/** Host-key types and the compile-time feature flags that select them. */
module KeyTypes {

  /** The key types a key file can be detected as; `Any` is the "not yet
      known" value a read starts from. */
  datatype KeyType =
    | Any
    | Rsa
    | Dss
    | EcdsaNistp256
    | EcdsaNistp384
    | EcdsaNistp521
    | SkEcdsaNistp256
    | Ed25519
    | SkEd25519

  /** The build's feature flags, and the ECDSA curve size used when no
      ECDSA key was loaded. */
  datatype Features = Features(
    rsa: bool,
    dss: bool,
    ecdsa: bool,
    ecc256: bool,
    ecc384: bool,
    ecc521: bool,
    ed25519: bool,
    skEcdsa: bool,
    skEd25519: bool,
    ecdsaDefaultSize: nat)

  predicate IsEcdsa(t: KeyType) {
    t.EcdsaNistp256? || t.EcdsaNistp384? || t.EcdsaNistp521?
  }

  /** The curve size in bits of an ECDSA key type. */
  function EcdsaSize(t: KeyType): nat
    requires IsEcdsa(t)
  {
    match t
    case EcdsaNistp256 => 256
    case EcdsaNistp384 => 384
    case EcdsaNistp521 => 521
  }

  /** The key types that own a slot of the host-key bundle. */
  predicate IsSlot(t: KeyType) {
    t.Rsa? || t.Dss? || IsEcdsa(t) || t.Ed25519?
  }

  /** True when the build has a bundle slot for `t`: the ECDSA sizes need
      both the ECDSA family and their own curve flag. */
  predicate HasSlot(f: Features, t: KeyType) {
    match t
    case Rsa => f.rsa
    case Dss => f.dss
    case EcdsaNistp256 => f.ecdsa && f.ecc256
    case EcdsaNistp384 => f.ecdsa && f.ecc384
    case EcdsaNistp521 => f.ecdsa && f.ecc521
    case Ed25519 => f.ed25519
    case _ => false
  }

  /** The family name a duplicate-key error reports for a slot. */
  function SlotName(t: KeyType): string
    requires IsSlot(t)
  {
    match t
    case Rsa => "RSA"
    case Dss => "DSS"
    case EcdsaNistp256 => "ECDSA256"
    case EcdsaNistp384 => "ECDSA384"
    case EcdsaNistp521 => "ECDSA521"
    case Ed25519 => "ed25519"
  }
}
