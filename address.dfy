/** The address model: the ViaCEP payload, the internal Address record, the
    service's result record, the closed set of error messages, and the pure
    CEP helpers (format check, formatter, field renaming). */
module Address {

  datatype Option<+T> = None | Some(value: T)

  /** The payload of the ViaCEP endpoint. A required field the JSON leaves
      out is modelled as the empty string: both are falsy where the service
      tests them. `complemento` is never tested, only copied, so it stays
      optional. `erro` is the "not found" flag; an absent flag is `false`. */
  datatype CepApiResponse = CepApiResponse(
    cep: string,
    logradouro: string,
    complemento: Option<string>,
    bairro: string,
    localidade: string,
    uf: string,
    ibge: string,
    gia: string,
    ddd: string,
    siafi: string,
    erro: bool)

  /** The internal address record; `complement` and `number` are optional. */
  datatype Address = Address(
    cep: string,
    street: string,
    complement: Option<string>,
    district: string,
    city: string,
    uf: string,
    number: Option<string>)

  /** The service's result record as declared: a flag and two optional parts.
      The type itself allows any combination; WellFormed says which ones the
      service produces. */
  datatype CepServiceResult = CepServiceResult(
    success: bool,
    address: Option<Address>,
    error: Option<string>)

  predicate WellFormed(r: CepServiceResult) {
    (r.success && r.address.Some? && r.error.None?) ||
    (!r.success && r.address.None? && r.error.Some?)
  }

  function Succeeded(a: Address): CepServiceResult {
    CepServiceResult(true, Some(a), None)
  }

  function Failed(e: CepError): CepServiceResult {
    CepServiceResult(false, None, Some(Message(e)))
  }

  /** The closed error taxonomy; each kind is shown by its message. */
  datatype CepError = InvalidFormat | NotFound | NetworkError | InvalidResponse

  function Message(e: CepError): (m: string)
    ensures m != []
  {
    match e
    case InvalidFormat => "CEP deve conter exatamente 8 dígitos"
    case NotFound => "CEP não encontrado"
    case NetworkError => "Erro de conexão. Verifique sua internet"
    case InvalidResponse => "Resposta inválida do servidor"
  }

  /** The four messages are pairwise distinct, so a message names its kind. */
  lemma MessagesDistinct(e1: CepError, e2: CepError)
    ensures Message(e1) == Message(e2) ==> e1 == e2
  {
  }

  // ---------------------------------------------------------------------
  // Digits

  /** The `\d` character class of JavaScript: the ASCII digits. */
  predicate IsDigit(c: char) {
    '0' <= c <= '9'
  }

  predicate AllDigits(s: string) {
    forall i :: 0 <= i < |s| ==> IsDigit(s[i])
  }

  predicate NoDigits(s: string) {
    forall i :: 0 <= i < |s| ==> !IsDigit(s[i])
  }

  /** `s.replace(/\D/g, '')`: the digits of `s`, in their order. */
  function Clean(s: string): (digits: string)
    ensures |digits| <= |s|
    ensures AllDigits(digits)
  {
    if s == [] then []
    else if IsDigit(s[0]) then [s[0]] + Clean(s[1..])
    else Clean(s[1..])
  }

  /** The number of digit characters in `s`, counted from the end: a
      definition independent of Clean. */
  function DigitCount(s: string): nat {
    if s == [] then 0
    else DigitCount(s[..|s| - 1]) + (if IsDigit(s[|s| - 1]) then 1 else 0)
  }

  lemma {:induction false} CleanAppend(a: string, b: string)
    ensures Clean(a + b) == Clean(a) + Clean(b)
  {
    if a == [] {
      assert a + b == b;
    } else {
      assert (a + b)[0] == a[0];
      assert (a + b)[1..] == a[1..] + b;
      CleanAppend(a[1..], b);
    }
  }

  lemma {:induction false} CleanLength(s: string)
    ensures |Clean(s)| == DigitCount(s)
  {
    if s != [] {
      var init, last := s[..|s| - 1], s[|s| - 1];
      assert s == init + [last];
      CleanAppend(init, [last]);
      CleanLength(init);
    }
  }

  /** Stripping leaves a digit-only string alone, and removes everything else. */
  lemma {:induction false} CleanOfDigits(s: string)
    ensures Clean(s) == s <==> AllDigits(s)
  {
    if s != [] {
      CleanOfDigits(s[1..]);
      if !IsDigit(s[0]) {
        assert |Clean(s)| <= |s[1..]| < |s|;
      }
    }
  }

  lemma {:induction false} CleanOfNoDigits(s: string)
    requires NoDigits(s)
    ensures Clean(s) == []
  {
    if s != [] {
      CleanOfNoDigits(s[1..]);
    }
  }

  /** Stripping twice is stripping once. */
  lemma CleanIdempotent(s: string)
    ensures Clean(Clean(s)) == Clean(s)
  {
  }

  // ---------------------------------------------------------------------
  // The format check and the formatter

  /** `isValidCepFormat`: exactly eight digits once non-digits are dropped. */
  function IsValidCepFormat(cep: string): (valid: bool)
    ensures valid <==> DigitCount(cep) == 8
  {
    CleanLength(cep);
    |Clean(cep)| == 8
  }

  /** Non-digit characters inserted anywhere (or removed from anywhere) never
      change the digits, hence never the format check's answer. */
  lemma NonDigitsIgnored(before: string, junk: string, after: string)
    requires NoDigits(junk)
    ensures Clean(before + junk + after) == Clean(before + after)
    ensures IsValidCepFormat(before + junk + after) == IsValidCepFormat(before + after)
  {
    CleanAppend(before + junk, after);
    CleanAppend(before, junk);
    CleanAppend(before, after);
    CleanOfNoDigits(junk);
  }

  /** `formatCep`: the digits, as NNNNN-NNN when there are exactly eight of
      them (the anchored regex matches only then), otherwise unchanged. */
  function FormatCep(cep: string): (r: string)
    ensures Clean(r) == Clean(cep)
    ensures IsValidCepFormat(cep) ==>
      |r| == 9 && r[5] == '-' && AllDigits(r[..5]) && AllDigits(r[6..])
    ensures !IsValidCepFormat(cep) ==> r == Clean(cep)
  {
    var digits := Clean(cep);
    if |digits| == 8 then
      CleanAppend(digits[..5] + "-", digits[5..]);
      CleanAppend(digits[..5], "-");
      CleanOfDigits(digits[..5]);
      CleanOfDigits(digits[5..]);
      assert digits[..5] + digits[5..] == digits;
      digits[..5] + "-" + digits[5..]
    else
      CleanIdempotent(cep);
      digits
  }

  lemma FormatCepIdempotent(cep: string)
    ensures FormatCep(FormatCep(cep)) == FormatCep(cep)
  {
  }

  /** Formatting keeps the format check's answer. */
  lemma FormatCepKeepsValidity(cep: string)
    ensures IsValidCepFormat(FormatCep(cep)) == IsValidCepFormat(cep)
  {
  }

  // ---------------------------------------------------------------------
  // The field renaming

  /** `mapCepResponseToAddress`. */
  function MapCepResponseToAddress(response: CepApiResponse): (a: Address)
    ensures a.number == None
    ensures a.complement == response.complemento
  {
    Address(
      cep := response.cep,
      street := response.logradouro,
      complement := response.complemento,
      district := response.bairro,
      city := response.localidade,
      uf := response.uf,
      number := None)
  }

  /** The renaming is one-for-one: two payloads map to the same address
      exactly when they agree on cep, logradouro, complemento, bairro,
      localidade and uf; ibge, gia, ddd, siafi and erro are dropped. */
  lemma MapCepResponseToAddressOneForOne(p: CepApiResponse, q: CepApiResponse)
    ensures MapCepResponseToAddress(p) == MapCepResponseToAddress(q) <==>
      p.cep == q.cep && p.logradouro == q.logradouro &&
      p.complemento == q.complemento && p.bairro == q.bairro &&
      p.localidade == q.localidade && p.uf == q.uf
  {
  }

  /** Each mapped field reads back the payload field it was renamed from. */
  lemma MapCepResponseToAddressFields(p: CepApiResponse)
    ensures var a := MapCepResponseToAddress(p);
      a.cep == p.cep && a.street == p.logradouro &&
      a.complement == p.complemento && a.district == p.bairro &&
      a.city == p.localidade && a.uf == p.uf && a.number.None?
  {
  }

  // ---------------------------------------------------------------------
  // Worked examples

  lemma FormatAndCheckExamples()
    ensures FormatCep("01310100") == "01310-100"
    ensures IsValidCepFormat("01310-100")
    ensures !IsValidCepFormat("123")
  {
    assert Clean("01310100") == "01310100" by { CleanOfDigits("01310100"); }
    assert "01310-100" == "01310" + "-" + "100";
    NonDigitsIgnored("01310", "-", "100");
    assert "01310" + "100" == "01310100";
    assert Clean("123") == "123" by { CleanOfDigits("123"); }
  }
}
