/** The CEP lookup service: the format gate, the request path, and the
    ordered classification of what the network call produced. The call
    itself (fetch, the 5000 ms abort timer, JSON parsing) is abstracted into
    a FetchOutcome supplied by the caller. */
module CepService {
  import opened Address

  const BaseUrl: string := "https://viacep.com.br/ws"

  /** What awaiting the request and its body produced. `Thrown` is a rejected
      fetch: the abort after the timeout (`aborted`) or any other fault.
      `Response` carries the status flag and the parsed body, `None` when the
      body is not JSON (`response.json()` rejects) or is JSON `null` (reading
      its `erro` field throws); both of those land in the same catch. */
  datatype FetchOutcome =
    | Thrown(aborted: bool)
    | Response(ok: bool, body: Option<CepApiResponse>)

  /** `isValidCepResponse`: the five required fields are non-empty;
      `complemento` is not required. */
  function IsValidCepResponse(data: CepApiResponse): (valid: bool)
    ensures valid <==> Complete(MapCepResponseToAddress(data))
  {
    data.cep != [] && data.logradouro != [] && data.bairro != [] &&
    data.localidade != [] && data.uf != []
  }

  /** An address whose required fields are all filled in. */
  predicate Complete(a: Address) {
    a.cep != [] && a.street != [] && a.district != [] && a.city != [] && a.uf != []
  }

  /** The complement plays no part in validation: present, absent or empty. */
  lemma ComplementNotRequired(data: CepApiResponse, complement: Option<string>)
    ensures IsValidCepResponse(data.(complemento := complement)) == IsValidCepResponse(data)
  {
  }

  /** The outcome that carries a usable address: an ok response whose body
      parsed, is not flagged as not found, and has every required field. */
  predicate Delivers(outcome: FetchOutcome) {
    outcome.Response? && outcome.ok && outcome.body.Some? &&
    !outcome.body.value.erro && IsValidCepResponse(outcome.body.value)
  }

  /** The path requested for `cep`, or None when the format check fails and
      no request is made. The path segment is the eight cleaned digits. */
  function RequestUrl(cep: string): (url: Option<string>)
    ensures url.None? <==> !IsValidCepFormat(cep)
    ensures url.Some? ==>
      var n := |BaseUrl|;
      |url.value| == n + 15 &&
      url.value[..n + 1] == BaseUrl + "/" &&
      url.value[n + 1..n + 9] == Clean(cep) && AllDigits(url.value[n + 1..n + 9]) &&
      url.value[n + 9..] == "/json/"
  {
    if !IsValidCepFormat(cep) then None
    else Some(BaseUrl + "/" + Clean(cep) + "/json/")
  }

  /** The part of `fetchAddressByCep` after the request is issued: status,
      then the `erro` flag, then the required fields, then the mapping. */
  function Classify(outcome: FetchOutcome): (r: CepServiceResult)
    ensures WellFormed(r)
    ensures r.success <==> Delivers(outcome)
    ensures r.success ==> r.address == Some(MapCepResponseToAddress(outcome.body.value))
    ensures !r.success ==> exists k :: k != InvalidFormat && r == Failed(k)
  {
    match outcome
    case Thrown(aborted) =>
      if aborted then Failed(NetworkError) else Failed(NetworkError)
    case Response(ok, body) =>
      if !ok then Failed(NetworkError)
      else if body.None? then Failed(NetworkError)
      else if body.value.erro then Failed(NotFound)
      else if !IsValidCepResponse(body.value) then Failed(InvalidResponse)
      else Succeeded(MapCepResponseToAddress(body.value))
  }

  /** `fetchAddressByCep`; `respond` gives the network's outcome for a path. */
  function FetchAddressByCep(cep: string, respond: string -> FetchOutcome): (r: CepServiceResult)
    ensures WellFormed(r)
    ensures !IsValidCepFormat(cep) ==> r == Failed(InvalidFormat)
    ensures !r.success ==> exists k :: r == Failed(k)
    ensures r.success ==> r.address.Some? && Complete(r.address.value)
  {
    match RequestUrl(cep)
    case None => Failed(InvalidFormat)
    case Some(url) => Classify(respond(url))
  }

  /** An invalid input is answered without consulting the network at all. */
  lemma InvalidFormatMakesNoRequest(cep: string, respond1: string -> FetchOutcome,
                                    respond2: string -> FetchOutcome)
    requires !IsValidCepFormat(cep)
    ensures RequestUrl(cep).None?
    ensures FetchAddressByCep(cep, respond1) == FetchAddressByCep(cep, respond2) == Failed(InvalidFormat)
  {
  }

  /** A valid input is answered by classifying the outcome for its path alone. */
  lemma ValidFormatClassifiesItsRequest(cep: string, respond: string -> FetchOutcome)
    requires IsValidCepFormat(cep)
    ensures RequestUrl(cep) == Some(BaseUrl + "/" + Clean(cep) + "/json/")
    ensures FetchAddressByCep(cep, respond) == Classify(respond(RequestUrl(cep).value))
  {
  }

  /** Inputs with the same digits are looked up identically; in particular a
      formatted CEP and its bare digits. */
  lemma SameDigitsSameLookup(c1: string, c2: string, respond: string -> FetchOutcome)
    requires Clean(c1) == Clean(c2)
    ensures RequestUrl(c1) == RequestUrl(c2)
    ensures FetchAddressByCep(c1, respond) == FetchAddressByCep(c2, respond)
  {
  }

  lemma FormattedCepSameLookup(cep: string, respond: string -> FetchOutcome)
    ensures FetchAddressByCep(FormatCep(cep), respond) == FetchAddressByCep(cep, respond)
  {
    SameDigitsSameLookup(FormatCep(cep), cep, respond);
  }

  /** Any thrown fault, aborted by the timer or not, and any non-ok status
      (whatever the body) is a network error. */
  lemma FaultsAreNetworkErrors(outcome: FetchOutcome)
    requires outcome.Thrown? || (outcome.Response? && (!outcome.ok || outcome.body.None?))
    ensures Classify(outcome) == Failed(NetworkError)
  {
  }

  /** The `erro` flag wins over field validation: a flagged body is "not
      found" even when its fields are empty. */
  lemma NotFoundBeforeFieldCheck(body: CepApiResponse)
    requires body.erro
    ensures Classify(Response(true, Some(body))) == Failed(NotFound)
  {
  }

  lemma MissingFieldIsInvalidResponse(body: CepApiResponse)
    requires !body.erro && !IsValidCepResponse(body)
    ensures Classify(Response(true, Some(body))) == Failed(InvalidResponse)
  {
  }

  /** `fetchMultipleCeps`: one lookup per input, results in input order. The
      i-th lookup sees its own network, `network(i)`, so the lookups are
      independent of one another. */
  function FetchMultipleCeps(ceps: seq<string>, network: nat -> string -> FetchOutcome): (rs: seq<CepServiceResult>)
    ensures |rs| == |ceps|
    ensures forall i :: 0 <= i < |ceps| ==> rs[i] == FetchAddressByCep(ceps[i], network(i))
  {
    FetchFrom(ceps, network, 0)
  }

  /** The lookups of `ceps`, the first of them being call number `first`. */
  function FetchFrom(ceps: seq<string>, network: nat -> string -> FetchOutcome, first: nat): (rs: seq<CepServiceResult>)
    ensures |rs| == |ceps|
    ensures forall i :: 0 <= i < |ceps| ==> rs[i] == FetchAddressByCep(ceps[i], network(first + i))
  {
    if ceps == [] then []
    else [FetchAddressByCep(ceps[0], network(first))] + FetchFrom(ceps[1..], network, first + 1)
  }

  // ---------------------------------------------------------------------
  // Worked examples

  function Paulista(): CepApiResponse {
    CepApiResponse("01310-100", "Avenida Paulista", None, "Bela Vista", "São Paulo",
                   "SP", "", "", "", "", false)
  }

  lemma PaulistaExample(respond: string -> FetchOutcome)
    requires respond(BaseUrl + "/" + "01310100" + "/json/") == Response(true, Some(Paulista()))
    ensures FetchAddressByCep("01310100", respond) ==
      Succeeded(Address("01310-100", "Avenida Paulista", None, "Bela Vista",
                        "São Paulo", "SP", None))
  {
    assert Clean("01310100") == "01310100" by { CleanOfDigits("01310100"); }
    assert IsValidCepResponse(Paulista());
  }

  lemma NotFoundExample(respond: string -> FetchOutcome, body: CepApiResponse)
    requires body.erro
    requires respond(BaseUrl + "/" + "00000000" + "/json/") == Response(true, Some(body))
    ensures FetchAddressByCep("00000000", respond) == Failed(NotFound)
  {
    assert Clean("00000000") == "00000000" by { CleanOfDigits("00000000"); }
  }

  lemma BatchExample(network: nat -> string -> FetchOutcome)
    ensures var rs := FetchMultipleCeps(["01310100", "99999999"], network);
      |rs| == 2 &&
      rs[0] == FetchAddressByCep("01310100", network(0)) &&
      rs[1] == FetchAddressByCep("99999999", network(1))
  {
  }
}
