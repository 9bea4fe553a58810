/** The declarative metadata of an API contract: the attribute classes that a
    contract interface, its operations and their parameters carry. They are
    pure data; reflection lookups are replaced by explicit values. */
module Metadata {
  import opened Wrappers

  /** The HTTP verb of an operation, as RestSharp's `Method` enumeration names it. */
  datatype HttpMethod = GET | POST | PUT | DELETE | HEAD | OPTIONS | PATCH | MERGE | COPY

  /** The six binding kinds a parameter may declare (`ApiMethodParamType`). */
  datatype ParamType = Header | Cookie | UrlParam | QueryParam | BodyParam | File

  /** `ApiMethodParamAttribute`: the binding kind and the key it is bound
      under; `Name` is a settable property, so it may be left null (`None`). */
  datatype ParamAttr = ParamAttr(kind: ParamType, name: Option<string>)

  /** A formal parameter of an operation: `None` when it carries no
      `ApiMethodParamAttribute` (an unbound parameter). */
  type Param = Option<ParamAttr>

  /** `ApiHeaderAttribute` and `ApiMethodHeaderAttribute`: one name/value pair. */
  datatype HeaderAttr = HeaderAttr(name: string, value: string)

  /** `ApiMethodAttribute`: the request path (a settable property, null
      when left unset) and verb of an operation. */
  datatype MethodAttr = MethodAttr(path: Option<string>, verb: HttpMethod)

  /** The declared return type of an operation, as far as the dispatcher
      distinguishes it: exactly `RestResponse`, exactly `IRestResponse`, or
      any other type (including generic `RestResponse<T>`). */
  datatype ReturnType = RestResponseType | IRestResponseType | OtherType(typeName: string)

  /** One operation of the contract. Each attribute is declared with
      `AllowMultiple = false`, so there is at most one method attribute and
      at most one operation-level header; `params` lists the formal
      parameters in declaration order, so position `i` is argument `i`. */
  datatype Operation = Operation(
    attr: Option<MethodAttr>,
    header: Option<HeaderAttr>,
    params: seq<Param>,
    returnType: ReturnType)

  /** The type named by `ApiAttribute.UrlProvider`: whether it implements
      `IUrlProvider`, and what an instance's `GetUrl` answers for this
      contract (`None` for a null string). The instance creation and the
      call are foreign; only their outcome is kept. */
  datatype ProviderType = ProviderType(implementsUrlProvider: bool, answer: Option<string>)

  /** `ApiAttribute`: a static base URL and/or a URL-provider type, each possibly null. */
  datatype ApiAttr = ApiAttr(url: Option<string>, provider: Option<ProviderType>)

  /** The contract interface's own attributes: its `ApiAttribute` (absent
      when the interface does not declare one) and its contract-level header. */
  datatype Contract = Contract(api: Option<ApiAttr>, header: Option<HeaderAttr>)

  /** `ApiDriverOptions`: an optional header dictionary, in its enumeration order. */
  datatype DriverOptions = DriverOptions(headers: Option<seq<HeaderAttr>>)

  /** Why a construction or an invocation does not complete: each stands for
      an exception the source throws (messages are not modelled). */
  datatype Error =
    | MissingApiAttribute       // `apiAttr` is null: the read of `apiAttr.Url` throws
    | NoUrlSource               // neither `Url` nor `UrlProvider` is given
    | ProviderNotUrlProvider    // `UrlProvider` does not implement `IUrlProvider`
    | NullProviderUrl           // the provider's `GetUrl` answered null
    | MissingMethodAttribute    // the operation has no `ApiMethodAttribute`
}
