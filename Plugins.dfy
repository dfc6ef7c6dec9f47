/** How WebServer6 turns a route or middleware entry of `config.json` into a configured instance:
    the class is looked up among WebServer6's own types first and in the named plugin assembly
    second, created, cast to the role it is loaded for, and configured when it is configurable.
    Reflection is a catalogue of types by name. */
module Plugins {
  import opened Wrappers
  import opened Files
  import opened FileCaching
  import opened Settings
  import opened StaticFiles
  import opened Middleware

  /** A `RouteConfigs` entry. `HandlerType` is only used in the log line. */
  datatype RouteConfig = RouteConfig(
    path: string,
    methods: seq<string>,
    handlerType: string,
    assemblyName: Option<string>,
    className: string,
    settings: SettingsMap)

  /** A `MiddlewareConfigs` entry. `Name` is only used in the log line. */
  datatype MiddlewareConfig = MiddlewareConfig(
    name: string,
    assemblyName: Option<string>,
    className: string,
    settings: SettingsMap)

  /** WebServer6's own classes, as `typeof(Program).Assembly.GetType(className)` finds them. */
  datatype BuiltInType =
    | StaticFilesHandlerType
    | SampleDynamicContentHandlerType
    | APIAuthenticationModuleType
    | CompressionModuleType
    | RateLimitingModuleType
    | ConfigurationType      // `Program`, `ServerConfig`, `RouteConfig`, `MiddlewareConfig`: no handler or middleware
    | RouteType              // `Route`: no parameterless constructor

  const BuiltInTypes: map<string, BuiltInType> := map[
    "WebServer6.StaticFilesHandler" := StaticFilesHandlerType,
    "WebServer6.SampleDynamicContentHandler" := SampleDynamicContentHandlerType,
    "WebServer6.APIAuthenticationModule" := APIAuthenticationModuleType,
    "WebServer6.CompressionModule" := CompressionModuleType,
    "WebServer6.RateLimitingModule" := RateLimitingModuleType,
    "WebServer6.Program" := ConfigurationType,
    "WebServer6.ServerConfig" := ConfigurationType,
    "WebServer6.RouteConfig" := ConfigurationType,
    "WebServer6.MiddlewareConfig" := ConfigurationType,
    "WebServer6.Route" := RouteType]

  /** Whether a class implements a role's interface, and its configurable variant. */
  datatype Role = NotImplemented | Plain | Configurable

  /** A class of a plugin assembly: whether `Activator.CreateInstance` can build it, which of
      `IRequestHandler`/`IConfigurableHandler` and `IMiddleware`/`IConfigurableMiddleware` it
      implements, and what its `Configure` does with the settings it is given. */
  datatype ExternalType = ExternalType(
    constructible: bool,
    handlerRole: Role,
    middlewareRole: Role,
    configure: SettingsMap -> Outcome<Exception>)

  /** The plugin assemblies `Assembly.LoadFrom` can load, by file name, with their classes. */
  type Assemblies = map<string, map<string, ExternalType>>

  /** `Assembly.LoadFrom(assemblyName).GetType(className)`, with the `ArgumentException` the
      loader throws when the class is missing. */
  function FindExternal(assemblies: Assemblies, assemblyName: Option<string>, className: string): (r: Result<ExternalType, Exception>)
    ensures r.Success? <==> assemblyName.Some? && assemblyName.value in assemblies && className in assemblies[assemblyName.value]
    ensures r.Success? ==> r.value == assemblies[assemblyName.value][className]
  {
    match assemblyName
    case None => Failure(ArgumentNullException)
    case Some(name) =>
      if name !in assemblies then Failure(FileNotFoundException)
      else if className !in assemblies[name] then Failure(ArgumentException)
      else Success(assemblies[name][className])
  }

  /** Creating an external instance for a role, then `Configure(settings)` only when the class
      implements the configurable interface. The settings a configured instance was given are
      kept, since its state is not visible. */
  function LoadExternal(t: ExternalType, role: Role, settings: SettingsMap): (r: Result<Option<SettingsMap>, Exception>)
    requires role == t.handlerRole || role == t.middlewareRole
    ensures r.Success? <==> t.constructible && role != NotImplemented && (role == Configurable ==> t.configure(settings).Pass?)
    ensures r.Success? ==> (r.value.Some? <==> role == Configurable)
    ensures r.Success? && r.value.Some? ==> r.value.value == settings
  {
    if !t.constructible then Failure(MissingMethodException)
    else if role == NotImplemented then Failure(InvalidCastException)
    else if role == Plain then Success(None)
    else
      assert role == Configurable;
      var outcome := t.configure(settings);
      if outcome.Fail? then Failure(outcome.error) else Success(Some(settings))
  }

  // ---------------------------------------------------------------- handlers

  /** A handler instance: a built-in handler object, or an instance of a plugin class. */
  datatype Handler =
    | StaticFiles(staticFiles: StaticFilesHandler)
    | DynamicContent(dynamicContent: SampleDynamicContentHandler)
    | ExternalHandler(className: string, configuredWith: Option<SettingsMap>)
  {
    function Objects(): set<object>
    {
      match this
      case StaticFiles(h) => {h}
      case DynamicContent(h) => {h}
      case ExternalHandler(_, _) => {}
    }

    /** What the instance holds after configuration. */
    function View(): HandlerView
      reads Objects()
    {
      match this
      case StaticFiles(h) => StaticFilesView(h.Options())
      case DynamicContent(h) => DynamicContentView(h.defaultResponseType)
      case ExternalHandler(className, configuredWith) => ExternalHandlerView(className, configuredWith)
    }
  }

  datatype HandlerView =
    | StaticFilesView(options: StaticFilesOptions)
    | DynamicContentView(defaultResponseType: Option<string>)
    | ExternalHandlerView(className: string, configuredWith: Option<SettingsMap>)

  /** The handler a route entry yields, or the exception that makes the loader skip the entry. */
  function LoadHandler(config: RouteConfig, assemblies: Assemblies, disk: Disk): (r: Result<HandlerView, Exception>)
  {
    if config.className in BuiltInTypes then
      match BuiltInTypes[config.className]
      case StaticFilesHandlerType =>
        var (options, outcome) := ConfigureStaticFiles(Unconfigured, config.settings, disk);
        if outcome.Fail? then Failure(outcome.error) else Success(StaticFilesView(options))
      case SampleDynamicContentHandlerType =>
        var (responseType, outcome) := ConfigureDynamicContent(Some("text/html"), config.settings);
        if outcome.Fail? then Failure(outcome.error) else Success(DynamicContentView(responseType))
      case RouteType => Failure(MissingMethodException)
      case _ => Failure(InvalidCastException)
    else
      match FindExternal(assemblies, config.assemblyName, config.className)
      case Failure(e) => Failure(e)
      case Success(t) =>
        match LoadExternal(t, t.handlerRole, config.settings)
        case Failure(e) => Failure(e)
        case Success(configuredWith) => Success(ExternalHandlerView(config.className, configuredWith))
  }

  /** Creates and configures the handler of a route entry, as the body of the loader's `try`. */
  method LoadHandlerInstance(config: RouteConfig, assemblies: Assemblies, disk: Disk, sharedCache: FileCache) returns (r: Result<Handler, Exception>)
    ensures r.Success? <==> LoadHandler(config, assemblies, disk).Success?
    ensures r.Success? ==> fresh(r.value.Objects()) && r.value.View() == LoadHandler(config, assemblies, disk).value
    ensures r.Failure? ==> r.error == LoadHandler(config, assemblies, disk).error
    ensures r.Success? && r.value.StaticFiles? ==> r.value.staticFiles.fileCache == sharedCache
  {
    if config.className in BuiltInTypes {
      var builtIn := BuiltInTypes[config.className];
      if builtIn == StaticFilesHandlerType {
        var handler := new StaticFilesHandler(sharedCache);
        var outcome := handler.Configure(config.settings, disk);
        if outcome.Fail? {
          return Failure(outcome.error);
        }
        return Success(StaticFiles(handler));
      } else if builtIn == SampleDynamicContentHandlerType {
        var handler := new SampleDynamicContentHandler();
        var outcome := handler.Configure(config.settings);
        if outcome.Fail? {
          return Failure(outcome.error);
        }
        return Success(DynamicContent(handler));
      } else if builtIn == RouteType {
        return Failure(MissingMethodException);
      }
      return Failure(InvalidCastException);
    }
    var found := FindExternal(assemblies, config.assemblyName, config.className);
    if found.Failure? {
      return Failure(found.error);
    }
    var loaded := LoadExternal(found.value, found.value.handlerRole, config.settings);
    if loaded.Failure? {
      return Failure(loaded.error);
    }
    return Success(ExternalHandler(config.className, loaded.value));
  }

  // ---------------------------------------------------------------- middleware

  /** A middleware instance: a built-in module object, or an instance of a plugin class. */
  datatype MiddlewareInstance =
    | Authentication(authentication: APIAuthenticationModule)
    | Compression(compression: CompressionModule)
    | RateLimiting(rateLimiting: RateLimitingModule)
    | ExternalMiddleware(className: string, configuredWith: Option<SettingsMap>)
  {
    function Objects(): set<object>
    {
      match this
      case Authentication(m) => {m}
      case Compression(m) => {m}
      case RateLimiting(m) => {m}
      case ExternalMiddleware(_, _) => {}
    }

    function View(): MiddlewareView
      reads Objects()
    {
      match this
      case Authentication(m) => AuthenticationView(m.Options())
      case Compression(m) => CompressionView(m.minSizeToCompress)
      case RateLimiting(m) => RateLimitingView(m.maxRequestsPerMinute, m.requestCounts)
      case ExternalMiddleware(className, configuredWith) => ExternalMiddlewareView(className, configuredWith)
    }
  }

  datatype MiddlewareView =
    | AuthenticationView(options: AuthenticationOptions)
    | CompressionView(minSizeToCompress: int)
    | RateLimitingView(maxRequestsPerMinute: int, requestCounts: map<string, Counter>)
    | ExternalMiddlewareView(className: string, configuredWith: Option<SettingsMap>)

  /** The middleware a middleware entry yields, or the exception that makes the loader skip it. */
  function LoadMiddleware(config: MiddlewareConfig, assemblies: Assemblies): (r: Result<MiddlewareView, Exception>)
  {
    if config.className in BuiltInTypes then
      match BuiltInTypes[config.className]
      case APIAuthenticationModuleType =>
        var (options, outcome) := ConfigureAuthentication(UnconfiguredAuthentication, config.settings);
        if outcome.Fail? then Failure(outcome.error) else Success(AuthenticationView(options))
      case CompressionModuleType =>
        var (minSize, outcome) := ConfigureCompression(0, config.settings);
        if outcome.Fail? then Failure(outcome.error) else Success(CompressionView(minSize))
      case RateLimitingModuleType =>
        var (maxRequests, outcome) := ConfigureRateLimiting(0, config.settings);
        if outcome.Fail? then Failure(outcome.error) else Success(RateLimitingView(maxRequests, map[]))
      case RouteType => Failure(MissingMethodException)
      case _ => Failure(InvalidCastException)
    else
      match FindExternal(assemblies, config.assemblyName, config.className)
      case Failure(e) => Failure(e)
      case Success(t) =>
        match LoadExternal(t, t.middlewareRole, config.settings)
        case Failure(e) => Failure(e)
        case Success(configuredWith) => Success(ExternalMiddlewareView(config.className, configuredWith))
  }

  /** Creates and configures the middleware of an entry, as the body of the loader's `try`. */
  method LoadMiddlewareInstance(config: MiddlewareConfig, assemblies: Assemblies) returns (r: Result<MiddlewareInstance, Exception>)
    ensures r.Success? <==> LoadMiddleware(config, assemblies).Success?
    ensures r.Success? ==> fresh(r.value.Objects()) && r.value.View() == LoadMiddleware(config, assemblies).value
    ensures r.Failure? ==> r.error == LoadMiddleware(config, assemblies).error
  {
    if config.className in BuiltInTypes {
      var builtIn := BuiltInTypes[config.className];
      if builtIn == APIAuthenticationModuleType {
        var instance := new APIAuthenticationModule();
        var outcome := instance.Configure(config.settings);
        if outcome.Fail? {
          return Failure(outcome.error);
        }
        return Success(Authentication(instance));
      } else if builtIn == CompressionModuleType {
        var instance := new CompressionModule();
        var outcome := instance.Configure(config.settings);
        if outcome.Fail? {
          return Failure(outcome.error);
        }
        return Success(Compression(instance));
      } else if builtIn == RateLimitingModuleType {
        var instance := new RateLimitingModule();
        var outcome := instance.Configure(config.settings);
        if outcome.Fail? {
          return Failure(outcome.error);
        }
        return Success(RateLimiting(instance));
      } else if builtIn == RouteType {
        return Failure(MissingMethodException);
      }
      return Failure(InvalidCastException);
    }
    var found := FindExternal(assemblies, config.assemblyName, config.className);
    if found.Failure? {
      return Failure(found.error);
    }
    var loaded := LoadExternal(found.value, found.value.middlewareRole, config.settings);
    if loaded.Failure? {
      return Failure(loaded.error);
    }
    return Success(ExternalMiddleware(config.className, loaded.value));
  }

  // ---------------------------------------------------------------- properties

  /** A class WebServer6 defines itself is taken from WebServer6, whatever assembly the entry
      names and whatever the plugin assemblies hold. */
  lemma BuiltInTakesPrecedence(config: RouteConfig, middlewareConfig: MiddlewareConfig, assemblies1: Assemblies, assemblies2: Assemblies, disk: Disk)
    requires config.className in BuiltInTypes && middlewareConfig.className in BuiltInTypes
    ensures LoadHandler(config, assemblies1, disk) == LoadHandler(config.(assemblyName := None), assemblies2, disk)
    ensures LoadMiddleware(middlewareConfig, assemblies1) == LoadMiddleware(middlewareConfig.(assemblyName := None), assemblies2)
  {
  }

  /** A class found neither in WebServer6 nor in the named assembly makes the entry fail. */
  lemma MissingClassFails(config: RouteConfig, middlewareConfig: MiddlewareConfig, assemblies: Assemblies, disk: Disk)
    requires config.className !in BuiltInTypes && middlewareConfig.className !in BuiltInTypes
    requires config.assemblyName.Some? && config.assemblyName.value in assemblies
    requires config.className !in assemblies[config.assemblyName.value]
    requires middlewareConfig.assemblyName.Some? && middlewareConfig.assemblyName.value in assemblies
    requires middlewareConfig.className !in assemblies[middlewareConfig.assemblyName.value]
    ensures LoadHandler(config, assemblies, disk) == Failure(ArgumentException)
    ensures LoadMiddleware(middlewareConfig, assemblies) == Failure(ArgumentException)
  {
  }

  /** `Configure` runs exactly on instances of configurable plugin classes: a plain class loads
      whatever its settings, and a configurable one loads exactly when its `Configure` accepts
      the settings. */
  lemma ConfigureOnlyConfigurable(config: RouteConfig, assemblies: Assemblies, disk: Disk)
    requires config.className !in BuiltInTypes
    requires FindExternal(assemblies, config.assemblyName, config.className).Success?
    ensures var t := FindExternal(assemblies, config.assemblyName, config.className).value;
      && (t.constructible && t.handlerRole == Plain ==>
            LoadHandler(config, assemblies, disk) == Success(ExternalHandlerView(config.className, None)))
      && (t.constructible && t.handlerRole == Configurable ==>
            (LoadHandler(config, assemblies, disk).Success? <==> t.configure(config.settings).Pass?))
      && (LoadHandler(config, assemblies, disk).Success? ==>
            (LoadHandler(config, assemblies, disk).value.configuredWith.Some? <==> t.handlerRole == Configurable))
  {
  }

  /** A middleware class named in a route entry is not a handler: the entry fails with the cast. */
  lemma MiddlewareIsNoHandler(config: RouteConfig, assemblies: Assemblies, disk: Disk)
    requires config.className in BuiltInTypes
    requires BuiltInTypes[config.className] in {APIAuthenticationModuleType, CompressionModuleType, RateLimitingModuleType}
    ensures LoadHandler(config, assemblies, disk) == Failure(InvalidCastException)
  {
  }
}
