/** The kill-switch server: per request it re-reads the configuration file and
    answers whether the named project is known and enabled.

    Reading `./config.yml` and the YAML parser are inputs: the read is the
    file's contents or the I/O error's description at the moment of the
    request, and the parser is a function from text to a configuration or the
    parser's error description. */
module KsServer {
  import opened Wrappers
  import opened Http

  /** A TCP port, Rust's `u16`. */
  type Port = p: int | 0 <= p < 0x1_0000

  /** The `server:` section of the configuration file. */
  datatype ServerConfig = ServerConfig(host: string, port: Port)

  /** The whole configuration file: the bind address and the table of project
      names to their enabled flag. */
  datatype ConfigFile = ConfigFile(server: ServerConfig, projects: map<string, bool>)

  /** The server's error enum; the detail is the underlying error's text. */
  datatype Error =
    | ConfigFileReadError(detail: string)
    | ConfigFileParseError(detail: string)

  /** `From<std::io::Error> for Error`: an I/O failure is a read error and
      keeps the I/O error's text as its detail. */
  function FromIoError(description: string): (e: Error)
    ensures e.ConfigFileReadError? && e.detail == description
  {
    ConfigFileReadError(description)
  }

  /** `From<serde_yaml::Error> for Error`: a YAML failure is a parse error
      and keeps the parser's text as its detail. */
  function FromYamlError(description: string): (e: Error)
    ensures e.ConfigFileParseError? && e.detail == description
  {
    ConfigFileParseError(description)
  }

  /** `get_config`: read the file, then parse it, each step's failure
      converted into the server's error by its `From` conversion. A read
      failure is returned before the parser is consulted, so a parse error can
      only come from a file that was read. */
  function GetConfig(read: Result<string, string>, parse: string -> Result<ConfigFile, string>)
    : (r: Result<ConfigFile, Error>)
    ensures read.Err? ==> r == Err(ConfigFileReadError(read.error))
    ensures read.Ok? && parse(read.value).Err? ==>
              r == Err(ConfigFileParseError(parse(read.value).error))
    ensures read.Ok? && parse(read.value).Ok? ==> r == Ok(parse(read.value).value)
    ensures r.Err? && r.error.ConfigFileParseError? ==> read.Ok?
    ensures r.Ok? <==> read.Ok? && parse(read.value).Ok?
  {
    var text :- read.MapErr(FromIoError);
    var config :- parse(text).MapErr(FromYamlError);
    Ok(config)
  }

  /** `check_project_presence`: look the name up in the projects table.
      Enabled gives 204, known but disabled gives 402, unknown gives 404;
      every answer forbids caching. */
  function CheckProjectPresence(projectName: string, projects: map<string, bool>): (r: Response)
    ensures r.noCache
    ensures r.status in {204, 402, 404}
    ensures r.status == 204 <==> projectName in projects && projects[projectName]
    ensures r.status == 402 <==> projectName in projects && !projects[projectName]
    ensures r.status == 404 <==> projectName !in projects
  {
    if projectName in projects then
      if projects[projectName] then
        WithNoCache(Empty204())
      else
        WithNoCache(WithStatusCode(Empty400(), 402))
    else
      WithNoCache(Empty404())
  }

  /** The classification of a name against the projects table, independent
      of how it is put on the wire. */
  datatype Outcome = Enabled | Disabled | Unknown

  function Classify(projectName: string, projects: map<string, bool>): Outcome
  {
    if projectName !in projects then Unknown
    else if projects[projectName] then Enabled
    else Disabled
  }

  /** The status code that stands for each outcome. */
  function StatusOf(outcome: Outcome): int
  {
    match outcome
    case Enabled => 204
    case Disabled => 402
    case Unknown => 404
  }

  /** The body of the `POST /` branch once the JSON body has been decoded:
      a configuration that could not be resolved gives 500 without a lookup,
      otherwise the lookup decides. */
  function HandlePost(name: string, config: Result<ConfigFile, Error>): (r: Response)
    ensures r.noCache
    ensures r.status in {204, 402, 404, 500}
    ensures r.status == 500 <==> config.Err?
    ensures config.Err? ==> r == Response(500, true)
    ensures config.Ok? ==> r == CheckProjectPresence(name, config.value.projects)
  {
    if config.Ok? then
      CheckProjectPresence(name, config.value.projects)
    else
      WithNoCache(WithStatusCode(Empty204(), 500))
  }

  /** An inbound request as the router sees it: the HTTP method, the path, and the
      `name` field decoded from the JSON body, or None when the body is not a
      JSON object with a string `name`. */
  datatype Request = Request(verb: string, url: string, name: Option<string>)

  predicate IsLookupRoute(req: Request)
  {
    req.verb == "POST" && req.url == "/"
  }

  /** The handler closure given to the server: route, decode the body, read
      the configuration afresh, answer. Only `POST /` reaches the lookup; the
      body is decoded before the configuration is read. */
  function Handle(req: Request, read: Result<string, string>, parse: string -> Result<ConfigFile, string>)
    : (r: Response)
    ensures !IsLookupRoute(req) ==> r == Response(404, false)
    ensures IsLookupRoute(req) && req.name.None? ==> r == Response(400, false)
    ensures IsLookupRoute(req) && req.name.Some? ==>
              r == HandlePost(req.name.value, GetConfig(read, parse))
    ensures r.status in {204, 400, 402, 404, 500}
  {
    if IsLookupRoute(req) then
      match req.name
      case None => BadRequest()
      case Some(name) => HandlePost(name, GetConfig(read, parse))
    else
      Empty404()
  }

  /** One request and the state of the configuration file when it was read
      for that request. */
  datatype Exchange = Exchange(request: Request, file: Result<string, string>)

  /** The server over its lifetime: every request is handled by the same
      closure, which carries no state from one request to the next. */
  function Serve(trace: seq<Exchange>, parse: string -> Result<ConfigFile, string>)
    : (responses: seq<Response>)
    ensures |responses| == |trace|
    ensures forall i :: 0 <= i < |trace| ==>
              responses[i] == Handle(trace[i].request, trace[i].file, parse)
  {
    if trace == [] then
      []
    else
      [Handle(trace[0].request, trace[0].file, parse)] + Serve(trace[1..], parse)
  }
}
