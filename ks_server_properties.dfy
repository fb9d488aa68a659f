/** What the kill-switch server promises across inputs: the lookup depends
    only on the requested name's entry, configuration failures short-circuit,
    the router shields the lookup, and the server keeps no state between
    requests. */
module KsServerProperties {
  import opened Wrappers
  import opened Http
  import opened KsServer

  /** The wire answer is the status of the independent classification. */
  lemma PresenceMatchesOutcome(projectName: string, projects: map<string, bool>)
    ensures CheckProjectPresence(projectName, projects)
            == Response(StatusOf(Classify(projectName, projects)), true)
  {
  }

  /** Distinct outcomes get distinct status codes, so a client can recover
      the outcome from the status of a lookup. */
  lemma StatusOfInjective(a: Outcome, b: Outcome)
    ensures StatusOf(a) == StatusOf(b) ==> a == b
  {
  }

  /** Two tables that agree on the requested name give the same answer,
      whatever else they hold. */
  lemma OnlyEntryMatters(projectName: string, p1: map<string, bool>, p2: map<string, bool>)
    requires projectName in p1 <==> projectName in p2
    requires projectName in p1 ==> p1[projectName] == p2[projectName]
    ensures CheckProjectPresence(projectName, p1) == CheckProjectPresence(projectName, p2)
  {
  }

  /** Adding, changing or removing another project's entry leaves the answer
      for this name unchanged. */
  lemma OtherEntriesIrrelevant(projectName: string, projects: map<string, bool>, other: string, enabled: bool)
    requires other != projectName
    ensures CheckProjectPresence(projectName, projects[other := enabled])
            == CheckProjectPresence(projectName, projects)
    ensures CheckProjectPresence(projectName, projects - {other})
            == CheckProjectPresence(projectName, projects)
  {
  }

  /** A configuration failure of either kind gives the same 500 whatever the
      requested name: the name is never looked at. */
  lemma ConfigFailureIgnoresName(n1: string, n2: string, e1: Error, e2: Error)
    ensures HandlePost(n1, Err(e1)) == HandlePost(n2, Err(e2)) == Response(500, true)
  {
  }

  /** When the read fails, the parser is not consulted: any two parsers give
      the same read error. */
  lemma ReadFailureSkipsParser(ioError: string,
                               p1: string -> Result<ConfigFile, string>,
                               p2: string -> Result<ConfigFile, string>)
    ensures GetConfig(Err(ioError), p1) == GetConfig(Err(ioError), p2)
                                         == Err(ConfigFileReadError(ioError))
  {
  }

  /** Requests that do not reach the lookup (another route, or an undecodable
      body on `POST /`) are answered without reading the configuration: the
      file's state and the parser make no difference. */
  lemma UnroutedIgnoresConfig(req: Request,
                              read1: Result<string, string>, parse1: string -> Result<ConfigFile, string>,
                              read2: Result<string, string>, parse2: string -> Result<ConfigFile, string>)
    requires !IsLookupRoute(req) || req.name.None?
    ensures Handle(req, read1, parse1) == Handle(req, read2, parse2)
    ensures Handle(req, read1, parse1).status in {400, 404}
  {
  }

  /** An unknown project and an unmatched route share the status 404; only
      the lookup's answer carries the no-cache headers. */
  lemma NotFoundKinds(lookup: Request, other: Request,
                      read: Result<string, string>, parse: string -> Result<ConfigFile, string>)
    requires IsLookupRoute(lookup) && lookup.name.Some? && !IsLookupRoute(other)
    requires read.Ok? && parse(read.value).Ok?
    requires lookup.name.value !in parse(read.value).value.projects
    ensures Handle(lookup, read, parse).status == Handle(other, read, parse).status == 404
    ensures Handle(lookup, read, parse).noCache && !Handle(other, read, parse).noCache
  {
  }

  /** Serving two runs of requests back to back answers each run as if it
      came alone: nothing carries over from earlier requests. */
  lemma ServeAppend(earlier: seq<Exchange>, later: seq<Exchange>,
                    parse: string -> Result<ConfigFile, string>)
    ensures Serve(earlier + later, parse) == Serve(earlier, parse) + Serve(later, parse)
  {
  }

  /** Identical requests against the same state of the file get identical
      answers, wherever they fall in the server's lifetime. */
  lemma Idempotent(trace: seq<Exchange>, parse: string -> Result<ConfigFile, string>, i: nat, j: nat)
    requires i < |trace| && j < |trace| && trace[i] == trace[j]
    ensures Serve(trace, parse)[i] == Serve(trace, parse)[j]
  {
  }

  /** A flag flipped in the file between two identical lookups shows in the
      second answer, without a restart. */
  lemma Freshness(trace: seq<Exchange>, parse: string -> Result<ConfigFile, string>, i: nat, j: nat)
    requires i < |trace| && j < |trace|
    requires IsLookupRoute(trace[i].request) && trace[i].request.name.Some?
    requires trace[j].request == trace[i].request
    requires trace[i].file.Ok? && parse(trace[i].file.value).Ok?
    requires trace[j].file.Ok? && parse(trace[j].file.value).Ok?
    requires var name := trace[i].request.name.value;
             var before := parse(trace[i].file.value).value.projects;
             var after := parse(trace[j].file.value).value.projects;
             name in before && before[name] && name in after && !after[name]
    ensures Serve(trace, parse)[i].status == 204
    ensures Serve(trace, parse)[j].status == 402
  {
  }

  /** Example exchanges against a file enabling `alpha`: an enabled and an
      unknown project, an unreadable file, a body without `name`, `GET /`. */
  lemma Scenarios(parse: string -> Result<ConfigFile, string>, text: string)
    requires parse(text).Ok? && parse(text).value.projects == map["alpha" := true]
    ensures Handle(Request("POST", "/", Some("alpha")), Ok(text), parse).status == 204
    ensures Handle(Request("POST", "/", Some("beta")), Ok(text), parse).status == 404
    ensures Handle(Request("POST", "/", Some("alpha")), Err("No such file or directory"), parse).status == 500
    ensures Handle(Request("POST", "/", None), Ok(text), parse).status == 400
    ensures Handle(Request("GET", "/", Some("alpha")), Ok(text), parse).status == 404
  {
  }

  /** The example exchange against a file disabling `alpha`. */
  lemma DisabledScenario(parse: string -> Result<ConfigFile, string>, text: string)
    requires parse(text).Ok? && parse(text).value.projects == map["alpha" := false]
    ensures Handle(Request("POST", "/", Some("alpha")), Ok(text), parse).status == 402
  {
  }
}
