/** The errors of the header crate, and the foreign errors they wrap. */
module Errors {

  /** A `toml::de::Error`, kept opaque: only its message is modelled. */
  datatype TomlError = TomlError(message: string)

  /** A `std::io::Error`, kept opaque: only its message is modelled. */
  datatype IoError = IoError(message: string)

  /** All errors that can happen while parsing a header descriptor. */
  datatype Error =
    | Deserialize(tomlError: TomlError)
    | DualFilters
    | Filename
    | Read(ioError: IoError)

  /** `From<toml::de::Error>`: a TOML failure always becomes `Deserialize` carrying it. */
  function FromToml(err: TomlError): (e: Error)
    ensures e.Deserialize? && e.tomlError == err
  {
    Deserialize(err)
  }

  /** `From<std::io::Error>`: an I/O failure always becomes `Read` carrying it. */
  function FromIo(err: IoError): (e: Error)
    ensures e.Read? && e.ioError == err
  {
    Read(err)
  }

  /**
   * The conversions lose nothing and never meet: distinct causes give
   * distinct errors, and neither conversion produces one of the payload-free
   * variants, which are only ever built explicitly.
   */
  lemma ConversionsInjectiveAndDisjoint(t1: TomlError, t2: TomlError, i1: IoError, i2: IoError)
    ensures FromToml(t1) == FromToml(t2) ==> t1 == t2
    ensures FromIo(i1) == FromIo(i2) ==> i1 == i2
    ensures FromToml(t1) != FromIo(i1)
    ensures FromToml(t1) !in {DualFilters, Filename}
    ensures FromIo(i1) !in {DualFilters, Filename}
  {
  }
}
