# automatik.api dispatch core, modelled in Dafny

automatik.api turns a declared C# interface (an *API contract*) into a working HTTP client. Attributes on the interface give the base URL (or a URL-provider type) and a default header. Attributes on each operation give the HTTP verb, the path, one header, and per-parameter bindings. `ApiDriver<TApi>` does two things. At construction it resolves the base URL and seeds the client's default headers. On every call, through a `DispatchProxy`, it turns the operation's metadata and the caller's arguments into a RestSharp request, executes it, and maps the response to the declared return type.

This project models that logic as pure functions over immutable datatypes:

- `wrappers.dfy` (module `Wrappers`): `Option` (a nullable value) and `Result` (a value or the exception thrown instead).
- `metadata.dfy` (module `Metadata`): the attribute classes as datatypes, and one error tag per exception the driver can raise. An attribute with `AllowMultiple = false` is an `Option`, so there is at most one contract-level header and at most one operation-level header.
- `requests.dfy` (module `Requests`): request building in `ApiProxy.Invoke`. `Classify` is the `switch` on a parameter's binding kind. `Walk` is the `foreach` over the parameters in declaration order. `BuildRequest` assembles verb, path, operation headers, body parameters and file attachments.
- `driver.dfy` (module `Driver`): URL resolution, the default-header log, `AddHeader`, and `Invoke`. `Invoke` dispatches one call through a transport supplied as a function `(Client, Request) -> R`. The transport receives the client as it is at call time.

Arguments are `Null`, `Str(s)` (runtime type exactly `string`) or `Other(obj)`, any other object identified by an opaque number. The method attribute's `Path` and a binding's `Name` are settable properties that may be null, so both are `Option`s and are passed on unchanged. The RestSharp request is a record of verb, path, header dictionary, body entries and attachments. Body entries and attachments appear in the order the proxy adds them.

## Model

| member | source | states |
|---|---|---|
| Requests.BuildRequest | src/ApiDriver.cs:23-51 | verb and path are exactly those of the method attribute; headers are the operation's header dictionary; body and files are the parameter walk; at most one entry per argument; a missing method attribute fails before anything is built |
| Requests.OperationHeaders | src/ApiDriver.cs:27-29 | with no operation-level header the request has no operation headers; with one, exactly one key mapped to its value |
| Requests.Classify | src/ApiDriver.cs:33-51 | a parameter adds nothing iff it is unbound, of kind Header/Cookie/UrlParam/QueryParam, or a File binding whose argument is not a non-null string; a BodyParam adds exactly one body entry (binding name, argument, null included); a File binding with a string adds exactly one attachment |
| Requests.WalkAppend | src/ApiDriver.cs:31-52 | walking a split parameter list gives the first part's contributions followed by the second's, so entries follow parameter declaration order |
| Requests.WalkSnoc | src/ApiDriver.cs:31-52 | one more parameter appends exactly its own contribution after all earlier ones |
| Requests.Walk | src/ApiDriver.cs:31-52 | the loop over the parameters adds at most one entry per parameter, and nothing when there are no parameters |
| Requests.BodyMembership | src/ApiDriver.cs:39-41 | a body entry (name, value) is in the request iff some parameter at position i is a BodyParam binding named name and argument i is value |
| Requests.FileMembership | src/ApiDriver.cs:43-50 | an attachment (name, path) is in the request iff some parameter at position i is a File binding named name and argument i is exactly the string path |
| Requests.RemoveParam | src/ApiDriver.cs:31-51 | deleting an inert parameter leaves the request unchanged; deleting any other parameter removes exactly one entry |
| Requests.InertArgumentIrrelevant | src/ApiDriver.cs:33-50 | for an inert parameter, the argument's value does not affect the request as long as it stays inert |
| Driver.ResolveUrl | src/ApiDriver.cs:80-94 | a static URL is used and the provider is not consulted; otherwise a missing provider, a provider not implementing IUrlProvider, or a null provider answer each fail with their own error; a resolved URL is always one of the declared sources |
| Driver.OptionHeaders | src/ApiDriver.cs:102-103 | the option headers are the options' dictionary when both the options and the dictionary are non-null, and empty otherwise |
| Driver.SeedHeaders | src/ApiDriver.cs:98-103 | the log holds the contract-level header first (only if declared), then exactly the option headers (none if the options or their dictionary are null), and nothing else |
| Driver.ConstructAsWritten | src/ApiDriver.cs:78-103 | as the source is written: succeeds iff URL resolution does and fails with its error; the client gets the seeded header log but no base URL |
| Driver.Construct | src/ApiDriver.cs:78-103 | corrected, see ## Findings: succeeds iff URL resolution does and fails with its error; the client's base URL is the resolved URL and its log is the seeded headers |
| Driver.AsWrittenDropsUrl | src/ApiDriver.cs:82-96 | whenever a URL resolves, the as-written client does not carry it, and the corrected client does |
| Driver.AsWrittenCounterexample | src/ApiDriver.cs:82-96 | a contract with static URL https://api.example.com yields an as-written client with no base URL |
| Driver.AddHeader | src/ApiDriver.cs:110-111 | appends exactly one entry (name, value) after the existing log and changes nothing else |
| Driver.AddHeadersAppend | src/ApiDriver.cs:110-111 | successive AddHeader calls append their headers in call order and never change the base URL |
| Driver.DefaultHeaderLog | src/ApiDriver.cs:98-111 | after construction and any number of AddHeader calls, the log is the contract header (if declared), then the option headers, then the added headers, in that order |
| Driver.IsRawResponse | src/ApiDriver.cs:56-59 | the raw response is returned exactly for the two named response types; every other type, generic RestResponse<T> included, gets null |
| Driver.Invoke | src/ApiDriver.cs:21-62 | a call fails iff the method attribute is missing; otherwise the built request is executed on the client as it is at call time, and the response is returned unchanged iff the return type is exactly RestResponse or IRestResponse, null otherwise |
| Driver.InvokeSendsBoundArguments | src/ApiDriver.cs:31-54 | the request a call hands the transport holds a body entry or attachment iff a matching binding and argument exist at some position; a header added between two calls leaves the request unchanged and reaches the transport only through the later call's client |

## Left out

- Reflection and proxy plumbing (`DispatchProxy.Create`, `Init`, `GetCustomAttribute(s)`, `GetParameters`) are not modelled. The model takes explicit `Contract` and `Operation` values, with parameters listed in declaration order.
- Argument count: `Requests.BuildRequest` and `Driver.Invoke` require one argument per declared parameter. The proxy runtime always passes arguments that way, so the source's `args[Position]` cannot go out of range.
- RestSharp internals are not modelled: `RestRequest`, `AddHeaders`, `AddParameter`, `AddFile`, `AddDefaultHeaders`, `AddDefaultHeader` and `Execute`. Their merge, encoding and case rules are not visible. The request is an abstract record, default headers are an append-only log, and the transport is an opaque function parameter.
- Option headers: `DriverOptions.headers` is a `Dictionary`. The model takes its enumeration order as a given sequence.
- `Activator.CreateInstance` and the provider's `GetUrl` are foreign calls and are not modelled. A `ProviderType` records whether the type implements `IUrlProvider` and what `GetUrl` answers. Failures inside those calls are not modelled.
- Exception message texts are not modelled. Errors are distinct tags in `Metadata.Error`.
- Null header names are not modelled: they would make `ToDictionary` or RestSharp throw. Names and values are plain strings.
- Thread safety of `AddHeader` against in-flight calls is not modelled, because it is a concurrency question. Each `Invoke` receives the client value current at the call.
- The source does not implement the following, so the model does not either: parameter-level header bindings, cookie, URL and query encoding, path-placeholder substitution, form-URL-encoding of body parameters, and case-insensitive header merging.

## Findings

| source | as written | input that shows it | evidently intended | confidence | as-written member | corrected member |
|---|---|---|---|---|---|---|
| src/ApiDriver.cs:82-96 | the base URL is resolved and null-checked, then the client is created with `new RestClient()` and the URL is never used | a contract declaring `Url = "https://api.example.com"`: its client has no base URL, so relative operation paths have nothing to resolve against | the resolved URL becomes the client's base URL | medium, not executed | Driver.ConstructAsWritten | Driver.Construct |
