/** The hash algorithms `get_hashcmd` knows, each naming a release of the repository. */
module HashAlgorithms {
  import opened Wrappers

  datatype Algorithm = MD5 | SHA224 | SHA256 | SHA384 | SHA512

  /** The identifier of an algorithm, as given on the command line and used as release tag. */
  function Name(a: Algorithm): string {
    match a
    case MD5 => "MD5"
    case SHA224 => "SHA224"
    case SHA256 => "SHA256"
    case SHA384 => "SHA384"
    case SHA512 => "SHA512"
  }

  const SupportedNames: set<string> := {"MD5", "SHA224", "SHA256", "SHA384", "SHA512"}

  /**
   * `get_hashcmd`: the algorithm whose digest function it returns, or None for
   * an identifier it does not know. The digest itself is a parameter of the
   * operations that hash files.
   */
  function HashCommand(hashalgo: string): (r: Option<Algorithm>)
    ensures r.Some? <==> hashalgo in SupportedNames
    ensures r.Some? ==> Name(r.value) == hashalgo
  {
    if hashalgo == "MD5" then Some(MD5)
    else if hashalgo == "SHA224" then Some(SHA224)
    else if hashalgo == "SHA256" then Some(SHA256)
    else if hashalgo == "SHA384" then Some(SHA384)
    else if hashalgo == "SHA512" then Some(SHA512)
    else None
  }
}
