/** `OfflineQuoteServiceImpl`: symbol lookups over the offline repositories.
    The service keeps no state of its own; each operation reads the
    repository it is given. */
module OfflineQuoteService {
  import opened Domain
  import opened Repository
  import opened JavaSplit

  /** The message `getQuote` puts in front of the requested symbol. */
  const NotFoundPrefix: string := "Symbol not found: "

  /** `getQuote`: the stored record when its symbol is set, otherwise a
      not-found failure that names the requested symbol. */
  function GetQuote(repo: QuoteRepository, symbol: string): (r: Result<Quote>)
    ensures r.Ok? <==> symbol in repo && repo[symbol].symbol.Some?
    ensures r.Ok? ==> r.value == repo[symbol]
    ensures r.Err? ==> r.error.message == NotFoundPrefix + symbol
    ensures QuotesKeyedBySymbol(repo) ==> (r.Ok? <==> symbol in repo)
    ensures QuotesKeyedBySymbol(repo) && r.Ok? ==> r.value.symbol == Some(symbol)
  {
    var quote := GetOneQuote(repo, symbol);
    if quote.symbol.None? then Err(SymbolNotFound(NotFoundPrefix + symbol))
    else Ok(quote)
  }

  /** `getQuoteFallback`: never fails, and reports the requested symbol as FAILED
      with every other field unset. The batch operation builds the very same
      quote for a token that is not found. */
  function GetQuoteFallback(symbol: string): (q: Quote)
    ensures q.symbol == Some(symbol) && q.status == Some(Failed)
    ensures q.market == map[]
  {
    Quote(Some(symbol), Some(Failed), map[])
  }

  /** The element the batch operation records for one token: the quote
      `getQuote` returns, or the FAILED quote for that token when it fails. */
  function BatchEntry(repo: QuoteRepository, token: string): (q: Quote)
    ensures GetQuote(repo, token).Ok? ==> q == GetQuote(repo, token).value
    ensures GetQuote(repo, token).Err? ==> q == GetQuoteFallback(token)
    ensures q.symbol.Some?
    ensures token !in repo ==> q.symbol == Some(token) && q.status == Some(Failed)
    ensures QuotesKeyedBySymbol(repo) ==> q.symbol == Some(token)
    ensures QuotesKeyedBySymbol(repo) && token in repo ==> q == repo[token]
  {
    match GetQuote(repo, token)
    case Ok(quote) => quote
    case Err(_) => GetQuoteFallback(token)
  }

  /** `getQuotes`: one entry per token of `symbols.split(",")`, in token order.
      A token that is not found becomes a FAILED quote and the batch goes on;
      no failure leaves the operation. */
  method GetQuotes(repo: QuoteRepository, symbols: string) returns (quotes: seq<Quote>)
    ensures |quotes| == |Split(symbols)|
    ensures forall i :: 0 <= i < |quotes| ==> quotes[i] == BatchEntry(repo, Split(symbols)[i])
  {
    var tokens := Split(symbols);
    quotes := [];
    for i := 0 to |tokens|
      invariant |quotes| == i
      invariant forall k :: 0 <= k < i ==> quotes[k] == BatchEntry(repo, tokens[k])
    {
      var symbol := tokens[i];
      match GetQuote(repo, symbol)
      case Ok(quote) =>
        quotes := quotes + [quote];
      case Err(_) =>
        quotes := quotes + [GetQuoteFallback(symbol)];
    }
  }

  /** `getCompanyInfo`: the repository's record for the symbol, blank or not,
      as the only element of a new list. */
  method GetCompanyInfo(repo: CompanyRepository, symbol: string) returns (companies: seq<CompanyInfo>)
    ensures |companies| == 1
    ensures symbol in repo ==> companies[0] == repo[symbol]
    ensures symbol !in repo ==> companies[0] == BlankCompanyInfo
  {
    var companyInfo := GetOneCompany(repo, symbol);
    companies := [];
    companies := companies + [companyInfo];
  }

  /** `getCompanyInfoFallback`: an empty list, whatever the symbol. */
  function GetCompanyInfoFallback(symbol: string): (companies: seq<CompanyInfo>)
    ensures |companies| == 0
  {
    []
  }

  /** Three tokens, the middle one unknown: the known quotes keep their
      places and the unknown one becomes a FAILED quote between them. */
  lemma MixedBatch(repo: QuoteRepository)
    requires QuotesKeyedBySymbol(repo)
    requires "AAA" in repo && "BBB" !in repo && "CCC" in repo
    ensures Split("AAA,BBB,CCC") == ["AAA", "BBB", "CCC"]
    ensures BatchEntry(repo, "AAA") == repo["AAA"]
    ensures BatchEntry(repo, "BBB") == GetQuoteFallback("BBB")
    ensures BatchEntry(repo, "CCC") == repo["CCC"]
  {
    var tokens := ["AAA", "BBB", "CCC"];
    JoinCons("BBB", ["CCC"]);
    JoinCons("AAA", ["BBB", "CCC"]);
    assert [tokens[0]] + tokens[1..] == tokens;
    assert Join(tokens) == "AAA,BBB,CCC";
    SplitJoin(tokens);
  }

  /** An empty input is a single empty token, which becomes one FAILED
      quote unless a record is filed under the empty symbol. */
  lemma EmptyBatch(repo: QuoteRepository)
    requires "" !in repo
    ensures Split("") == [""]
    ensures BatchEntry(repo, "") == GetQuoteFallback("")
  {
  }
}
