/** The six supported digest algorithms, the constructor's normalisation of
    the configured name, and the hash primitive each one selects. */
module Algorithms {
  import opened Optional
  import opened Text

  datatype Algorithm = MD5 | MD5Sess | SHA256 | SHA256Sess | SHA512_256 | SHA512_256Sess {

    /** The name sent in the `algorithm=` parameter. */
    function Name(): string {
      match this
      case MD5 => "MD5"
      case MD5Sess => "MD5-sess"
      case SHA256 => "SHA-256"
      case SHA256Sess => "SHA-256-sess"
      case SHA512_256 => "SHA-512-256"
      case SHA512_256Sess => "SHA-512-256-sess"
    }
  }

  /** The hash functions the client can be configured with. */
  datatype HashPrimitive = Md5 | Sha256 | Sha512_256

  /** The source's `supported_algorithms.includes(name)`: the algorithm with
      exactly this name, if it is one of the six. */
  function FromName(name: string): (r: Option<Algorithm>)
    ensures r.Some? ==> r.value.Name() == name
    ensures r.None? ==> forall a: Algorithm :: a.Name() != name
  {
    if name == "MD5" then Some(MD5)
    else if name == "MD5-sess" then Some(MD5Sess)
    else if name == "SHA-256" then Some(SHA256)
    else if name == "SHA-256-sess" then Some(SHA256Sess)
    else if name == "SHA-512-256" then Some(SHA512_256)
    else if name == "SHA-512-256-sess" then Some(SHA512_256Sess)
    else None
  }

  /** Names are a faithful encoding: reading a name back gives the algorithm. */
  lemma FromNameOfName(a: Algorithm)
    ensures FromName(a.Name()) == Some(a)
  {
  }

  /** The constructor's choice of algorithm: the configured name when it is
      one of the six, and MD5 when it is absent, empty or unsupported (the
      unsupported case also logs a warning, which is not modelled). */
  function NormaliseAlgorithm(configured: Option<string>): (a: Algorithm)
    ensures configured.None? || configured.value == "" ==> a == MD5
    ensures configured.Some? && FromName(configured.value).Some? ==> a.Name() == configured.value
    ensures configured.Some? && (forall b: Algorithm :: b.Name() != configured.value) ==> a == MD5
  {
    var name := if configured.None? || configured.value == "" then "MD5" else configured.value;
    FromName(name).GetOr(MD5)
  }

  /** The hash function the constructor installs: SHA-256 for names starting
      with `SHA-256`, SHA-512/256 for names starting with `SHA-512-256`, MD5
      otherwise. The `-sess` suffix never changes the primitive. */
  function PrimitiveOf(a: Algorithm): (p: HashPrimitive)
    ensures p == Sha256 <==> StartsWith(a.Name(), "SHA-256")
    ensures p == Sha512_256 <==> StartsWith(a.Name(), "SHA-512-256")
    ensures p == Md5 <==> !StartsWith(a.Name(), "SHA-256") && !StartsWith(a.Name(), "SHA-512-256")
  {
    match a
    case MD5 | MD5Sess =>
      assert a.Name()[0] == 'M';
      Md5
    case SHA256 | SHA256Sess =>
      assert a.Name()[..7] == "SHA-256" && a.Name()[4] == '2';
      Sha256
    case SHA512_256 | SHA512_256Sess =>
      assert a.Name()[..11] == "SHA-512-256" && a.Name()[4] == '5';
      Sha512_256
  }

  /** Whether the algorithm re-keys HA1 with the nonces: exactly the names
      ending in `-sess`. */
  function IsSess(a: Algorithm): (r: bool)
    ensures r <==> EndsWith(a.Name(), "-sess")
  {
    a.MD5Sess? || a.SHA256Sess? || a.SHA512_256Sess?
  }
}
