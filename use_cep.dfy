/** The `useCep` hook: three state cells (`address`, `loading`, `error`)
    and the actions that update them, plus the auto-fetch effect of
    `useCepAutoFetch`. React's state cells become the fields of a class; a
    re-render is not modelled. `fetchAddress` awaits the service, so it is
    split into StartFetch (before the await) and SettleFetch (after it);
    FetchAddress runs the two back to back, as a call that nothing overlaps. */
module UseCep {
  import opened Address
  import opened CepService

  const UnknownError: string := "Erro desconhecido"
  const UnexpectedError: string := "Erro inesperado ao buscar CEP"

  /** How the awaited service call settled: resolved with a result record,
      or rejected (caught by the hook). */
  datatype Settlement = Resolved(result: CepServiceResult) | Rejected

  /** The address the hook shows after `s`: the result's address when the
      result succeeded and carries one. */
  function SettledAddress(s: Settlement): (a: Option<Address>)
    ensures a.Some? ==> s.Resolved? && s.result.success && a == s.result.address
    ensures s.Resolved? && s.result.success && s.result.address.Some? ==> a == s.result.address
  {
    if s.Resolved? && s.result.success && s.result.address.Some? then s.result.address
    else None
  }

  /** The error the hook shows after `s`: exactly when no address is shown,
      and never an empty message. A missing or empty error text becomes
      "Erro desconhecido"; a rejection becomes "Erro inesperado ao buscar CEP". */
  function SettledError(s: Settlement): (e: Option<string>)
    ensures e.Some? <==> SettledAddress(s).None?
    ensures e.Some? ==> e.value != []
    ensures s.Rejected? ==> e == Some(UnexpectedError)
    ensures s.Resolved? && e.Some? ==>
      e == (if s.result.error.Some? && s.result.error.value != [] then s.result.error
            else Some(UnknownError))
  {
    match s
    case Rejected => Some(UnexpectedError)
    case Resolved(result) =>
      if result.success && result.address.Some? then None
      else if result.error.Some? && result.error.value != [] then result.error
      else Some(UnknownError)
  }

  /** For what the service actually returns, the hook shows its address on
      success and its own error message otherwise, never the fallback. */
  lemma ServiceResultShownAsIs(r: CepServiceResult)
    requires WellFormed(r)
    requires !r.success ==> exists k :: r == Failed(k)
    ensures r.success ==> SettledAddress(Resolved(r)) == r.address && SettledError(Resolved(r)) == None
    ensures !r.success ==> SettledAddress(Resolved(r)) == None && SettledError(Resolved(r)) == r.error
    ensures SettledError(Resolved(r)) != Some(UnknownError)
  {
  }

  lemma LookupShownAsIs(cep: string, respond: string -> FetchOutcome)
    ensures var r := FetchAddressByCep(cep, respond);
      SettledAddress(Resolved(r)) == r.address && SettledError(Resolved(r)) == r.error
  {
  }

  /** `useCepAutoFetch`'s test: enabled, non-empty, eight digits. The
      non-empty test adds nothing, since eight digits need a non-empty input. */
  function ShouldAutoFetch(cep: string, enabled: bool): (fire: bool)
    ensures fire <==> enabled && IsValidCepFormat(cep)
  {
    enabled && cep != [] && |Clean(cep)| == 8
  }

  class CepHook {
    var address: Option<Address>
    var loading: bool
    var error: Option<string>

    /** Not both an address and an error on display. */
    predicate NotBoth()
      reads this
    {
      address.None? || error.None?
    }

    constructor ()
      ensures address == None && !loading && error == None
      ensures NotBoth()
    {
      address := None;
      loading := false;
      error := None;
    }

    /** `fetchAddress` up to the await: clear the error and the address,
        raise the loading flag. */
    method StartFetch()
      modifies this
      ensures address == None && loading && error == None
      ensures NotBoth()
    {
      error := None;
      address := None;
      loading := true;
    }

    /** `fetchAddress` after the await: set the address or the error, then
        (the `finally`) lower the loading flag on every path. The other
        cell is left as it was. */
    method SettleFetch(s: Settlement)
      modifies this
      ensures !loading
      ensures SettledAddress(s).Some? ==> address == SettledAddress(s) && error == old(error)
      ensures SettledAddress(s).None? ==> error == SettledError(s) && address == old(address)
      ensures old(address).None? && old(error).None? ==> NotBoth()
    {
      match s {
        case Resolved(result) =>
          if result.success && result.address.Some? {
            address := result.address;
          } else {
            error := if result.error.Some? && result.error.value != [] then result.error
                     else Some(UnknownError);
          }
        case Rejected =>
          error := Some(UnexpectedError);
      }
      loading := false;
    }

    /** `fetchAddress`, with no other call in between its start and its
        settlement. */
    method FetchAddress(cep: string, respond: string -> FetchOutcome)
      modifies this
      ensures !loading && NotBoth()
      ensures var r := FetchAddressByCep(cep, respond);
        address == r.address && error == r.error
    {
      StartFetch();
      var result := FetchAddressByCep(cep, respond);
      LookupShownAsIs(cep, respond);
      SettleFetch(Resolved(result));
    }

    /** `clearAddress`: clears the address and the error, not the flag. */
    method ClearAddress()
      modifies this
      ensures address == None && error == None && loading == old(loading)
      ensures NotBoth()
    {
      address := None;
      error := None;
    }

    /** `clearError`: clears only the error. */
    method ClearError()
      modifies this
      ensures error == None && address == old(address) && loading == old(loading)
      ensures NotBoth()
    {
      error := None;
    }

    /** The effect of `useCepAutoFetch`, run when `cep` or `enabled` changes. */
    method OnChange(cep: string, enabled: bool, respond: string -> FetchOutcome)
      modifies this
      ensures NotBoth()
      ensures ShouldAutoFetch(cep, enabled) ==>
        var r := FetchAddressByCep(cep, respond);
        !loading && address == r.address && error == r.error
      ensures !ShouldAutoFetch(cep, enabled) ==>
        address == None && error == None && loading == old(loading)
    {
      if ShouldAutoFetch(cep, enabled) {
        FetchAddress(cep, respond);
      } else {
        ClearAddress();
      }
    }
  }

  /** A session: mount, look up the Avenida Paulista CEP, then clear. */
  method PaulistaSession(respond: string -> FetchOutcome)
    requires respond(BaseUrl + "/" + "01310100" + "/json/") == Response(true, Some(Paulista()))
  {
    var hook := new CepHook();
    hook.FetchAddress("01310100", respond);
    PaulistaExample(respond);
    assert hook.address.Some? && hook.address.value.street == "Avenida Paulista";
    assert hook.error == None && !hook.loading;
    hook.ClearAddress();
    assert hook.address == None && hook.error == None;
  }
}
