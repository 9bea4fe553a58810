/** The `ApiDriver` object: construction (base-URL resolution and seeding of
    the client's default headers), the `AddHeader` mutator, and the proxy's
    dispatch of one call through the transport. RestSharp's `RestClient` is
    reduced to the two things the driver gives it: a base URL and an ordered
    log of default headers. */
module Driver {
  import opened Wrappers
  import opened Metadata
  import opened Requests

  /** The client state the driver owns: the base URL handed to the client
      (`None` when the client is created without one) and the default
      headers in the order they were added. */
  datatype Client = Client(baseUrl: Option<string>, defaultHeaders: seq<HeaderAttr>)

  /** The outcome of one dispatched call: the request built, the transport's
      response to it, and what the proxy returns to the caller (`None` is null). */
  datatype Invocation<R> = Invocation(request: Request, response: R, returned: Option<R>)

  /** Resolves the base URL once, at construction: a static `Url` wins and
      the provider is then never consulted; otherwise the provider must be
      given, must implement `IUrlProvider`, and must answer a non-null string. */
  function ResolveUrl(api: Option<ApiAttr>): (r: Result<string, Error>)
    ensures api.None? ==> r == Failure(MissingApiAttribute)
    ensures api.Some? && api.value.url.Some? ==> r == Success(api.value.url.value)
    ensures api.Some? && api.value.url.None? && api.value.provider.None? ==>
              r == Failure(NoUrlSource)
    ensures api.Some? && api.value.url.None? && api.value.provider.Some? &&
            !api.value.provider.value.implementsUrlProvider ==>
              r == Failure(ProviderNotUrlProvider)
    ensures api.Some? && api.value.url.None? && api.value.provider.Some? &&
            api.value.provider.value.implementsUrlProvider ==>
              r == (match api.value.provider.value.answer
                    case Some(u) => Success(u)
                    case None => Failure(NullProviderUrl))
    ensures r.Success? ==>
              api.Some? &&
              (api.value.url == Some(r.value) ||
               (api.value.provider.Some? && api.value.provider.value.answer == Some(r.value)))
  {
    match api
    case None => Failure(MissingApiAttribute)
    case Some(attr) =>
      match attr.url
      case Some(u) => Success(u)
      case None =>
        match attr.provider
        case None => Failure(NoUrlSource)
        case Some(provider) =>
          if !provider.implementsUrlProvider then Failure(ProviderNotUrlProvider)
          else
            match provider.answer
            case Some(u) => Success(u)
            case None => Failure(NullProviderUrl)
  }

  /** The option headers, or none when the options or their dictionary are null. */
  function OptionHeaders(options: Option<DriverOptions>): (r: seq<HeaderAttr>)
    ensures options.None? ==> r == []
    ensures options.Some? && options.value.headers.None? ==> r == []
    ensures options.Some? && options.value.headers.Some? ==> r == options.value.headers.value
  {
    match options
    case Some(DriverOptions(Some(hs))) => hs
    case _ => []
  }

  /** The default-header log right after construction: the contract-level
      header first, when the contract declares one, then the option headers. */
  function SeedHeaders(contractHeader: Option<HeaderAttr>, options: Option<DriverOptions>): (r: seq<HeaderAttr>)
    ensures |r| == (if contractHeader.Some? then 1 else 0) + |OptionHeaders(options)|
    ensures contractHeader.Some? ==> r[0] == contractHeader.value
    ensures r[|r| - |OptionHeaders(options)|..] == OptionHeaders(options)
    ensures forall h :: h in r <==> contractHeader == Some(h) || h in OptionHeaders(options)
  {
    var declared := match contractHeader
      case Some(h) => [h]
      case None => [];
    declared + OptionHeaders(options)
  }

  /** The constructor as the source writes it: the URL is resolved and
      checked, but the client is created without it. */
  function ConstructAsWritten(contract: Contract, options: Option<DriverOptions>): (r: Result<Client, Error>)
    ensures r.Success? <==> ResolveUrl(contract.api).Success?
    ensures r.Failure? ==> r.error == ResolveUrl(contract.api).error
    ensures r.Success? ==> r.value.baseUrl.None?
    ensures r.Success? ==> r.value.defaultHeaders == SeedHeaders(contract.header, options)
  {
    var _ :- ResolveUrl(contract.api);
    Success(Client(None, SeedHeaders(contract.header, options)))
  }

  /** The constructor with the resolved URL handed to the client as its
      base URL; this is the definition the rest of the model uses. */
  function Construct(contract: Contract, options: Option<DriverOptions>): (r: Result<Client, Error>)
    ensures r.Success? <==> ResolveUrl(contract.api).Success?
    ensures r.Failure? ==> r.error == ResolveUrl(contract.api).error
    ensures r.Success? ==> r.value.baseUrl == Some(ResolveUrl(contract.api).value)
    ensures r.Success? ==> r.value.defaultHeaders == SeedHeaders(contract.header, options)
  {
    var url :- ResolveUrl(contract.api);
    Success(Client(Some(url), SeedHeaders(contract.header, options)))
  }

  /** The source's constructor drops a URL that it has just resolved. */
  lemma AsWrittenDropsUrl(contract: Contract, options: Option<DriverOptions>)
    requires ResolveUrl(contract.api).Success?
    ensures ConstructAsWritten(contract, options).Success?
    ensures ConstructAsWritten(contract, options).value.baseUrl != Some(ResolveUrl(contract.api).value)
    ensures Construct(contract, options).value.baseUrl == Some(ResolveUrl(contract.api).value)
  {
  }

  /** A concrete contract with a static URL whose client, as written, has no base URL. */
  lemma AsWrittenCounterexample()
    ensures var c := Contract(Some(ApiAttr(Some("https://api.example.com"), None)), None);
            ConstructAsWritten(c, None) == Success(Client(None, [])) &&
            Construct(c, None) == Success(Client(Some("https://api.example.com"), []))
  {
  }

  /** `AddHeader`: appends one default header; the base URL and the earlier
      log are untouched. */
  function AddHeader(c: Client, name: string, value: string): (r: Client)
    ensures r.baseUrl == c.baseUrl
    ensures |r.defaultHeaders| == |c.defaultHeaders| + 1
    ensures r.defaultHeaders[..|c.defaultHeaders|] == c.defaultHeaders
    ensures r.defaultHeaders[|c.defaultHeaders|] == HeaderAttr(name, value)
  {
    c.(defaultHeaders := c.defaultHeaders + [HeaderAttr(name, value)])
  }

  /** A run of `AddHeader` calls, one per header, in order. */
  function AddHeaders(c: Client, hs: seq<HeaderAttr>): Client
    decreases |hs|
  {
    if |hs| == 0 then c
    else AddHeaders(AddHeader(c, hs[0].name, hs[0].value), hs[1..])
  }

  /** Successive `AddHeader` calls append to the log in call order and never
      touch the base URL. */
  lemma {:induction false} AddHeadersAppend(c: Client, hs: seq<HeaderAttr>)
    ensures AddHeaders(c, hs).baseUrl == c.baseUrl
    ensures AddHeaders(c, hs).defaultHeaders == c.defaultHeaders + hs
    decreases |hs|
  {
    if |hs| > 0 {
      var c' := AddHeader(c, hs[0].name, hs[0].value);
      AddHeadersAppend(c', hs[1..]);
      assert c'.defaultHeaders + hs[1..] == c.defaultHeaders + hs by {
        assert hs == [hs[0]] + hs[1..];
      }
    }
  }

  /** The whole life of the default-header log: after construction and any
      later `AddHeader` calls it holds the contract-level header (if
      declared), then the option headers, then the added ones, in that order. */
  lemma DefaultHeaderLog(contract: Contract, options: Option<DriverOptions>, added: seq<HeaderAttr>)
    requires Construct(contract, options).Success?
    ensures var log := AddHeaders(Construct(contract, options).value, added).defaultHeaders;
            var k := if contract.header.Some? then 1 else 0;
            |log| == k + |OptionHeaders(options)| + |added| &&
            (contract.header.Some? ==> log[0] == contract.header.value) &&
            log[k..k + |OptionHeaders(options)|] == OptionHeaders(options) &&
            log[k + |OptionHeaders(options)|..] == added
  {
    var c := Construct(contract, options).value;
    AddHeadersAppend(c, added);
    var seed := SeedHeaders(contract.header, options);
    var log := seed + added;
    var k := if contract.header.Some? then 1 else 0;
    assert log[k..k + |OptionHeaders(options)|] == seed[k..];
    assert log[k + |OptionHeaders(options)|..] == added;
  }

  /** The return types for which the proxy hands the raw response back:
      every type other than exactly these two, generic `RestResponse<T>`
      included, gets null. */
  function IsRawResponse(t: ReturnType): (b: bool)
    ensures b <==> !t.OtherType?
  {
    t == RestResponseType || t == IRestResponseType
  }

  /** One call through the proxy: build the request, execute it on the
      client as it is at call time, and return the response only when the
      operation is declared to return the raw response type. */
  function Invoke<R>(c: Client, op: Operation, args: seq<ArgValue>, execute: (Client, Request) -> R): (r: Result<Invocation<R>, Error>)
    requires |args| == |op.params|
    ensures r.Success? <==> op.attr.Some?
    ensures r.Failure? ==> r.error == MissingMethodAttribute
    ensures r.Success? ==> BuildRequest(op, args) == Success(r.value.request)
    ensures r.Success? ==> r.value.response == execute(c, r.value.request)
    ensures r.Success? && IsRawResponse(op.returnType) ==> r.value.returned == Some(r.value.response)
    ensures r.Success? && !IsRawResponse(op.returnType) ==> r.value.returned == None
  {
    var request :- BuildRequest(op, args);
    var response := execute(c, request);
    Success(Invocation(request, response, if IsRawResponse(op.returnType) then Some(response) else None))
  }

  /** What a successful call hands the transport: exactly the bound body
      arguments and string file arguments, and a request that does not
      depend on the client, so a header added between two calls reaches the
      transport only through the client of the later call. */
  lemma InvokeSendsBoundArguments<R>(c: Client, op: Operation, args: seq<ArgValue>, execute: (Client, Request) -> R,
                                     e: BodyEntry, f: Attachment, name: string, value: string)
    requires |args| == |op.params|
    requires op.attr.Some?
    ensures e in Invoke(c, op, args, execute).value.request.body <==>
              exists i :: 0 <= i < |args| && op.params[i] == Some(ParamAttr(BodyParam, e.name)) && args[i] == e.value
    ensures f in Invoke(c, op, args, execute).value.request.files <==>
              exists i :: 0 <= i < |args| && op.params[i] == Some(ParamAttr(File, f.name)) && args[i] == Str(f.path)
    ensures var later := Invoke(AddHeader(c, name, value), op, args, execute).value;
            later.request == Invoke(c, op, args, execute).value.request &&
            later.response == execute(AddHeader(c, name, value), later.request)
  {
    BodyMembership(op.params, args, e);
    FileMembership(op.params, args, f);
  }
}
