# CEP lookup: a Dafny model

This project models the Brazilian postal-code (CEP) lookup of the restaurant
app. It covers three layers:

- `address.dfy` (module `Address`) models `src/model/address.ts`. It holds the ViaCEP payload, the
  internal `Address`, the service result record and the `CepError` messages.
  It also holds the pure helpers: the format check (`isValidCepFormat`), the
  `NNNNN-NNN` formatter (`formatCep`) and the field renaming
  (`mapCepResponseToAddress`). JavaScript's `replace(/\D/g, '')` is the
  function `Clean`. `DigitCount` is a separate definition that counts the
  digits from the other end of the string.
- `cep_service.dfy` (module `CepService`) models `src/controllers/cep-service.ts`:
  - the format gate;
  - the request path `https://viacep.com.br/ws/<8 digits>/json/`;
  - the ordered classification (status, then `erro`, then the required fields, then the mapping);
  - the batch lookup.

  The network is a parameter. `respond` gives the `FetchOutcome` for a request
  path: either a thrown fault (`Thrown`, whether the 5000 ms abort or anything
  else) or a `Response` with its `ok` flag and its parsed body. A body that
  does not parse is `None`.
- `use_cep.dfy` (module `UseCep`) models `src/view/hooks/use-cep.ts`. The class
  `CepHook` holds the hook's three state cells `address`, `loading` and
  `error`. `fetchAddress` is split at its `await` into `StartFetch` and
  `SettleFetch`. `FetchAddress` runs the two with nothing in between.
  `OnChange` is the effect of `useCepAutoFetch`.

The model uses the code's field names `cep`, `street`, `district`, `city` and
`uf`. `complement` is the payload's `complemento`, passed through whether
present or absent. `number` is never set.

## Model

| member | source | states |
|---|---|---|
| `Address.Message` | src/model/address.ts:33-38 | every error kind has a non-empty message |
| `Address.MessagesDistinct` | src/model/address.ts:33-38 | the four error messages are pairwise distinct |
| `Address.Clean` | src/model/address.ts:42 | stripping non-digits yields a digit-only string no longer than the input |
| `Address.CleanLength` | src/model/address.ts:42-43 | the stripped length equals the number of digit characters in the input |
| `Address.CleanOfDigits` | src/model/address.ts:42 | stripping leaves a string unchanged iff it is all digits |
| `Address.IsValidCepFormat` | src/model/address.ts:41-44 | the check holds iff the input has exactly 8 digit characters; non-digits are ignored |
| `Address.NonDigitsIgnored` | src/model/address.ts:42-43 | inserting or removing non-digits anywhere changes neither the digits nor the check's answer |
| `Address.FormatCep` | src/model/address.ts:47-50 | the output has the input's digits; with 8 digits it is 5 digits, '-', 3 digits (length 9); otherwise it is the bare digit string |
| `Address.FormatCepIdempotent` | src/model/address.ts:47-50 | formatting twice is formatting once |
| `Address.FormatCepKeepsValidity` | src/model/address.ts:41-50 | a formatted CEP passes the format check iff the original does |
| `Address.MapCepResponseToAddress` | src/model/address.ts:53-61 | `number` is never set; `complement` is the payload's `complemento`, absent when the payload has none |
| `Address.MapCepResponseToAddressFields` | src/model/address.ts:53-61 | cep→cep, logradouro→street, complemento→complement, bairro→district, localidade→city, uf→uf |
| `Address.MapCepResponseToAddressOneForOne` | src/model/address.ts:53-61 | two payloads map to the same address iff they agree on the six mapped fields; ibge, gia, ddd, siafi and erro are dropped |
| `Address.FormatAndCheckExamples` | src/model/address.ts:41-50 | "01310100" formats to "01310-100"; "01310-100" is valid; "123" is not |
| `CepService.IsValidCepResponse` | src/controllers/cep-service.ts:106-114 | a payload is valid iff the address it maps to has non-empty cep, street, district, city and uf |
| `CepService.ComplementNotRequired` | src/controllers/cep-service.ts:106-114 | validation gives the same answer whatever `complemento` is, present, absent or empty |
| `CepService.RequestUrl` | src/controllers/cep-service.ts:23-38 | no request iff the format check fails; otherwise the path is the base URL, '/', the 8 cleaned digits, '/json/' |
| `CepService.Classify` | src/controllers/cep-service.ts:46-98 | success iff the response is ok, parses, is not flagged `erro` and has every required field, and then the address is the mapped payload; any failure is one of the three non-format errors, and never both success and error |
| `CepService.FetchAddressByCep` | src/controllers/cep-service.ts:20-99 | the result is exactly a success with an address or a failure with a `CepError` message; a badly formatted input is INVALID_FORMAT; a returned address has all required fields |
| `CepService.InvalidFormatMakesNoRequest` | src/controllers/cep-service.ts:23-28 | a badly formatted input gives INVALID_FORMAT whatever the network would answer, and no path is requested |
| `CepService.ValidFormatClassifiesItsRequest` | src/controllers/cep-service.ts:30-38 | a well-formed input is answered by classifying the outcome for its own path |
| `CepService.SameDigitsSameLookup` | src/controllers/cep-service.ts:23-31 | inputs with the same digits request the same path and get the same result |
| `CepService.FormattedCepSameLookup` | src/controllers/cep-service.ts:23-31 | looking up the formatted CEP is the same as looking up the raw input |
| `CepService.FaultsAreNetworkErrors` | src/controllers/cep-service.ts:48-98 | a thrown fault (aborted or not), a non-ok status whatever the body, or an unparsable body gives NETWORK_ERROR |
| `CepService.NotFoundBeforeFieldCheck` | src/controllers/cep-service.ts:59-73 | a body with `erro` set gives NOT_FOUND, even when its fields are empty |
| `CepService.MissingFieldIsInvalidResponse` | src/controllers/cep-service.ts:67-73 | an unflagged body missing a required field gives INVALID_RESPONSE |
| `CepService.FetchMultipleCeps` | src/controllers/cep-service.ts:121-124 | the results have the input's length and the i-th is the lookup of the i-th input |
| `CepService.PaulistaExample` | src/controllers/cep-service.ts:20-81 | "01310100" with the Avenida Paulista payload gives that address |
| `CepService.NotFoundExample` | src/controllers/cep-service.ts:59-65 | "00000000" with a flagged body gives NOT_FOUND |
| `CepService.BatchExample` | src/controllers/cep-service.ts:121-124 | a two-element batch returns two results, in input order |
| `UseCep.SettledAddress` | src/view/hooks/use-cep.ts:35-36 | an address is shown iff the call resolved with a success that carries an address, and it is that address |
| `UseCep.SettledError` | src/view/hooks/use-cep.ts:35-41 | an error is shown exactly when no address is, and is never empty; a resolved failure shows its `error` text, or "Erro desconhecido" when that is missing or empty; a rejection shows "Erro inesperado ao buscar CEP" |
| `UseCep.ServiceResultShownAsIs` | src/view/hooks/use-cep.ts:35-39 | for a result the service can return, the hook shows its address or its message, never "Erro desconhecido" |
| `UseCep.LookupShownAsIs` | src/view/hooks/use-cep.ts:34-39 | after a lookup the hook's address and error are the result's address and error |
| `UseCep.ShouldAutoFetch` | src/view/hooks/use-cep.ts:81 | auto-fetch fires iff enabled and the input has exactly 8 digits; the non-empty test is subsumed |
| `UseCep.CepHook.constructor` | src/view/hooks/use-cep.ts:19-21 | initially no address, not loading, no error |
| `UseCep.CepHook.StartFetch` | src/view/hooks/use-cep.ts:29-31 | starting a fetch clears error and address and sets loading |
| `UseCep.CepHook.SettleFetch` | src/view/hooks/use-cep.ts:33-44 | loading is false on every path; either the address is set or the error is set, the other cell is kept; from the started state, not both |
| `UseCep.CepHook.FetchAddress` | src/view/hooks/use-cep.ts:27-45 | a non-overlapped fetch ends not loading, with the lookup's address and error, never both |
| `UseCep.CepHook.ClearAddress` | src/view/hooks/use-cep.ts:50-53 | clears address and error, leaves loading |
| `UseCep.CepHook.ClearError` | src/view/hooks/use-cep.ts:58-60 | clears only the error |
| `UseCep.CepHook.OnChange` | src/view/hooks/use-cep.ts:80-86 | fetches iff the auto-fetch rule fires, otherwise clears the address; not both address and error afterwards |

## Left out

- The real `fetch`, the `Content-Type` header, `response.json()`, the `AbortController` and the 5000 ms `setTimeout`/`clearTimeout` are I/O and timing. They are replaced by the `FetchOutcome` value that the caller supplies.
- JSON values of the wrong type are not modelled. A missing cep, logradouro, bairro, localidade or uf is modelled as the empty string, because both are falsy where the service tests them. A missing `complemento` is `None` and is copied through as an absent complement. The unused fields ibge, gia, ddd and siafi are plain strings; the model does not distinguish a missing one from an empty one. A JSON `null` body is modelled like an unparsable body: both reach the catch, which gives NETWORK_ERROR.
- `FetchMultipleCeps` does not model `Promise.all` concurrency. It is a sequential map that keeps positions; each position gets its own network.
- React's re-rendering, `useCallback` and the dependency tracking of `useEffect` are not modelled. The state cells are class fields, and the effect is the explicit method `OnChange`.
- Overlapping `fetchAddress` calls are not modelled. If one call starts before another settles, a late settle can leave both address and error set, or clear `loading` while a call is still in flight. `SettleFetch` states what it does from any state. Only from the started state does it promise "not both".
- The navigation and screen wiring in `App.tsx` are not part of this model.
