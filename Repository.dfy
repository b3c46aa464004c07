/** The two offline repositories, read-only maps keyed by symbol.
    A lookup of an absent key does not fail: it yields a blank record,
    which is what the service later inspects for an unset symbol. */
module Repository {
  import opened Domain

  type QuoteRepository = map<string, Quote>
  type CompanyRepository = map<string, CompanyInfo>

  /** The store is consistent when every record is filed under its own symbol. */
  ghost predicate QuotesKeyedBySymbol(repo: QuoteRepository) {
    forall key :: key in repo ==> repo[key].symbol == Some(key)
  }

  ghost predicate CompaniesKeyedBySymbol(repo: CompanyRepository) {
    forall key :: key in repo ==> repo[key].symbol == Some(key)
  }

  /** `quoteOfflineRepository.getOne(symbol)`. */
  function GetOneQuote(repo: QuoteRepository, symbol: string): (q: Quote)
    ensures symbol in repo ==> q == repo[symbol]
    ensures symbol !in repo ==> q == BlankQuote
    ensures QuotesKeyedBySymbol(repo) ==> (q.symbol.Some? <==> symbol in repo)
    ensures QuotesKeyedBySymbol(repo) && q.symbol.Some? ==> q.symbol.value == symbol
  {
    if symbol in repo then repo[symbol] else BlankQuote
  }

  /** `companyOfflineRepository.getOne(symbol)`. */
  function GetOneCompany(repo: CompanyRepository, symbol: string): (c: CompanyInfo)
    ensures symbol in repo ==> c == repo[symbol]
    ensures symbol !in repo ==> c.symbol.None? && c.details == map[]
    ensures CompaniesKeyedBySymbol(repo) ==> (c.symbol.Some? <==> symbol in repo)
  {
    if symbol in repo then repo[symbol] else BlankCompanyInfo
  }
}
