/** The records the quote service hands out, and its one failure signal.
    Every reference-typed Java field may be null; such a field is an `Option`. */
module Domain {

  datatype Option<+T> = None | Some(value: T)

  /** Outcome of an operation declared `throws SymbolNotFoundException`. */
  datatype Result<+T> = Ok(value: T) | Err(error: SymbolNotFound)

  /** `SymbolNotFoundException`: the failure carries only its message. */
  datatype SymbolNotFound = SymbolNotFound(message: string)

  /** The status string that marks a degraded quote. */
  const Failed: string := "FAILED"

  /** A quote record: the symbol that identifies it, its status, and the
      market fields this service copies through without reading them. */
  datatype Quote = Quote(symbol: Option<string>, status: Option<string>, market: map<string, string>)

  /** A company-info record: its symbol and the descriptive fields
      (name, exchange, ...) this service copies through without reading them. */
  datatype CompanyInfo = CompanyInfo(symbol: Option<string>, details: map<string, string>)

  /** `new Quote()`: every field unset. */
  const BlankQuote: Quote := Quote(None, None, map[])

  /** `new CompanyInfo()`: every field unset. */
  const BlankCompanyInfo: CompanyInfo := CompanyInfo(None, map[])
}
