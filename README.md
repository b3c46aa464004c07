# Offline quote lookup service — Dafny model

This project models the symbol-lookup logic of the quotes service's offline
implementation, `OfflineQuoteServiceImpl`. The service answers three questions
from two local repositories, one of quotes and one of company information,
each keyed by stock symbol:

- `getQuote(symbol)` returns the stored quote, or fails with
  `SymbolNotFoundException` when the fetched record has no symbol. This is
  the method itself. A caller going through the circuit-breaker proxy gets
  the fallback quote instead of that failure (see "## Left out").
- `getQuotes(symbols)` cuts a comma-separated list with Java's
  `String.split(",")` and looks each token up. A token that is not found
  becomes a quote with that symbol and status `FAILED`. The batch keeps token
  order, never stops early and never lets a not-found failure escape.
- `getCompanyInfo(symbol)` wraps whatever the repository returns, even a blank
  record, in a one-element list.

It also models the two circuit-breaker fallbacks. `getQuoteFallback` returns a
FAILED quote for the requested symbol. `getCompanyInfoFallback` returns an
empty list.

Layout:

- `Domain.dfy`: the quote and company-info records. Java's nullable fields
  are `Option`s. `SymbolNotFound` is the failure, and `Result` is an
  operation that may throw it.
- `Repository.dfy`: each repository is a read-only map from symbol to record.
  The model assumes that `getOne` on an absent key yields a blank record
  whose symbol is unset. That is the premise of the service's null check on
  the symbol.
- `Split.dfy`: `String.split(",")` with limit 0. It cuts the input at every
  comma (`Fields`) and then drops the trailing empty pieces
  (`DropTrailingEmpty`). An input with no comma is returned whole, so `""`
  gives `[""]`. The lemmas prove that the cut pieces join back to the input,
  that cutting a join gives the pieces back, and the edge cases.
- `OfflineQuoteService.dfy`: the five service operations. `getQuotes` and
  `getCompanyInfo` build their lists step by step in the source, so they are
  methods. Each element of the `getQuotes` loop is specified by `BatchEntry`.

`split(",")` drops trailing empty tokens, so `"A,,"` gives one batch entry
and `","` gives none (`JavaSplit.SplitEdgeCases`). A present symbol gives a
quote carrying that symbol is guaranteed when every record is filed under its own
symbol (`QuotesKeyedBySymbol`), so `GetQuote` states it under that condition.

## Model

| member | source | states |
|---|---|---|
| `Repository.GetOneQuote` | src/main/java/io/pivotal/quotes/repository/QuoteOfflineRepository.java:6 | the stored quote for a present key; a blank record for an absent key; in a store filed by symbol, the symbol is set exactly when the key is present and then equals it |
| `Repository.GetOneCompany` | src/main/java/io/pivotal/quotes/repository/CompanyOfflineRepository.java:6 | the stored company record for a present key; a blank record for an absent key; in a store filed by symbol, the symbol is set exactly when the key is present |
| `OfflineQuoteService.GetQuote` | src/main/java/io/pivotal/quotes/service/OfflineQuoteServiceImpl.java:50-61 | succeeds exactly when the key is stored with a set symbol, and then returns that record; otherwise fails with message "Symbol not found: " followed by the requested symbol; in a store filed by symbol it succeeds exactly for stored symbols and the quote carries the requested symbol |
| `OfflineQuoteService.GetQuoteFallback` | src/main/java/io/pivotal/quotes/service/OfflineQuoteServiceImpl.java:64-72 | never fails; symbol is the input, status is FAILED, every other field unset |
| `OfflineQuoteService.BatchEntry` | src/main/java/io/pivotal/quotes/service/OfflineQuoteServiceImpl.java:111-120 | the quote `getQuote` returns when it succeeds, otherwise the same quote as the fallback for that token; its symbol is always set; an absent token gives symbol = token and status FAILED; in a store filed by symbol the symbol equals the token and a stored token gives its record |
| `OfflineQuoteService.GetQuotes` | src/main/java/io/pivotal/quotes/service/OfflineQuoteServiceImpl.java:105-124 | exactly one result per token of `symbols.split(",")`, in token order, the i-th being the batch entry for the i-th token whatever earlier tokens did; the result is a plain list, so no not-found failure escapes |
| `OfflineQuoteService.GetCompanyInfo` | src/main/java/io/pivotal/quotes/service/OfflineQuoteServiceImpl.java:86-97 | always a list of exactly one element: the stored record for a present symbol, a blank record for an absent one |
| `OfflineQuoteService.GetCompanyInfoFallback` | src/main/java/io/pivotal/quotes/service/OfflineQuoteServiceImpl.java:127-133 | the empty list for every input |
| `OfflineQuoteService.MixedBatch` | src/main/java/io/pivotal/quotes/service/OfflineQuoteServiceImpl.java:110-120 | "AAA,BBB,CCC" with BBB missing splits into the three tokens in order; the known ones give their records and BBB gives the FAILED quote |
| `OfflineQuoteService.EmptyBatch` | src/main/java/io/pivotal/quotes/service/OfflineQuoteServiceImpl.java:110-117 | the empty input is one empty token, which becomes one FAILED quote when no record is filed under "" |
| `JavaSplit.Fields` | src/main/java/io/pivotal/quotes/service/OfflineQuoteServiceImpl.java:110 | the raw pieces between commas: at least one, none containing a comma |
| `JavaSplit.DropTrailingEmpty` | src/main/java/io/pivotal/quotes/service/OfflineQuoteServiceImpl.java:110 | the longest prefix of the pieces that does not end in an empty string: a prefix, everything after it empty, its last element non-empty |
| `JavaSplit.Split` | src/main/java/io/pivotal/quotes/service/OfflineQuoteServiceImpl.java:110 | an input without a comma is its own only token; otherwise the raw pieces up to and without the run of trailing empty ones (a prefix whose last token is non-empty, followed only by empty pieces); no token contains a comma |
| `JavaSplit.JoinFields` | src/main/java/io/pivotal/quotes/service/OfflineQuoteServiceImpl.java:110 | joining the raw pieces with commas gives back the input |
| `JavaSplit.FieldsJoin` | src/main/java/io/pivotal/quotes/service/OfflineQuoteServiceImpl.java:110 | cutting a comma-join of comma-free pieces gives back the pieces |
| `JavaSplit.SplitRecovers` | src/main/java/io/pivotal/quotes/service/OfflineQuoteServiceImpl.java:110 | the tokens followed by as many empty strings as were dropped are the raw pieces, and joining them gives back the input |
| `JavaSplit.SplitJoin` | src/main/java/io/pivotal/quotes/service/OfflineQuoteServiceImpl.java:110 | splitting a comma-join of comma-free tokens gives the tokens back, unless a join of several tokens ends in an empty one |
| `JavaSplit.SplitEdgeCases` | src/main/java/io/pivotal/quotes/service/OfflineQuoteServiceImpl.java:110 | `""` splits to `[""]`; `","` and `",,"` split to `[]`; `"A,,"` splits to `["A"]` |
| `JavaSplit.SplitKeepsInteriorBlanks` | src/main/java/io/pivotal/quotes/service/OfflineQuoteServiceImpl.java:110 | `",a,,b"` splits to `["", "a", "", "b"]`: leading and interior empty tokens stay |

## Left out

- The Hystrix circuit breaker (`@HystrixCommand` and its properties). The model provides the primary operations and the fallbacks. It does not decide when a fallback replaces a call. An open circuit depends on timing and error rates kept by the framework. Apart from that, `getQuote`'s command declares no ignored exceptions, so the fallback also replaces every call that throws, including the `SymbolNotFoundException` for an unknown symbol. A caller going through the proxy therefore gets the FAILED quote and never sees not-found. That failure is visible only on the self-call inside `getQuotes`. `GetQuote` models the method without the proxy. Seen from a proxied caller, an unknown symbol gives exactly `BatchEntry`: the lookup's quote, or `GetQuoteFallback` of the symbol when the lookup fails.
- `getQuotes` calls `getQuote` on the same object, so the Hystrix proxy does not apply there. The model calls the plain lookup and handles not-found itself.
- JPA repositories and `getOne`'s lazy proxies. Each repository is a map, and the model assumes that an absent key gives a blank record, which is the case the service checks for. Persistence is not modelled.
- Runtime failures of `getOne`. JPA's `getOne` returns a reference that may throw an unchecked `EntityNotFoundException` on first access to an absent id. The catch in `getQuotes` does not handle it, so it would end the batch. The model has no such failure, so "never fails" for `GetQuotes` and `GetCompanyInfo` covers only the not-found failure.
- `QuoteService` declares signatures only, so it has nothing to model.
- The `Quote` and `CompanyInfo` domain classes are not part of this model. Their fields other than symbol and status are kept as an opaque map that the service copies through unchanged.
- Null arguments. In Java, a null `symbols` makes `getQuotes` throw, and a null symbol reaches `getOne`. All inputs in the model are non-null strings.
- Object identity. `getQuote` returns the repository's own object, and the model returns an equal value.
- Logging, `printStackTrace` and `System.out.println`, which are output with no effect on results.
- The unused `StringBuilder str` and `RestTemplate` fields, and the Spring annotations and dependency injection, which play no part in behaviour.
- `String.split` in general. Only the fixed one-character delimiter `","` with limit 0 is modelled, not regular expressions.
