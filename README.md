# Kill-switch server model

A Dafny model of the request handling of the kill-switch server
(`src/bin/ks_server.rs`). The server answers one question: is a named project
known, and is it enabled? Each request re-reads the configuration file, which
holds the bind address and a table from project names to an enabled flag.
Only `POST /` with a JSON body `{"name": …}` reaches the lookup.

- `wrappers.dfy`: `Option` and `Result`. `Result` supports `:-`, which plays the part of Rust's `?`.
- `http.dfy`: the HTTP library's response as the handler uses it. It keeps the status code and whether the no-cache headers were added. It also models the builders `empty_204`, `empty_400`, `empty_404`, `with_status_code` and `with_no_cache`, and the 400 that `try_or_400!` returns.
- `ks_server.dfy`: the configuration types, the error enum with its two `From` conversions, `get_config`, `check_project_presence`, the `POST /` branch, the router, and `Serve`. `Serve` is the server over a sequence of requests.
- `ks_server_properties.dfy`: lemmas across inputs. They cover the classification, independence from other entries, short-circuiting on configuration errors, the router shielding the lookup, and statelessness across requests.

Reading `./config.yml` and the YAML parser are parameters. The read is a
`Result<string, string>`: the file text, or the I/O error's description at
the time of the request. The parser is a function `string -> Result<ConfigFile, string>`.
The decoded request body is an `Option<string>` holding the `name` field.

In three places the model follows the code where a reader might expect otherwise:

- Not every response forbids caching. The unmatched-route 404 (line 67) and the `try_or_400!` 400 (line 59) are built without `with_no_cache()`. Only the answers of the `POST /` branch after decoding carry the no-cache headers. `Handle`'s contract and `NotFoundKinds` state this.
- The code does not require a non-empty project name. An empty `name` is decoded and looked up like any other.
- The code has no outcome type: `check_project_presence` maps the lookup to statuses directly. `Classify` and `StatusOf` are an independent reference definition of that decision table, and `PresenceMatchesOutcome` ties the two together.

## Model

| member | source | states |
|---|---|---|
| `KsServer.FromIoError` | src/bin/ks_server.rs:33-37 | An I/O failure becomes `ConfigFileReadError`, and the I/O error's text becomes its detail unchanged. `GetConfig`'s contract shows this is the error returned for a failed read. |
| `KsServer.FromYamlError` | src/bin/ks_server.rs:39-43 | A YAML failure becomes `ConfigFileParseError`, and the parser's text becomes its detail unchanged. `GetConfig`'s contract shows this is the error returned for text that does not parse. |
| `KsServer.GetConfig` | src/bin/ks_server.rs:73-76 | A read failure becomes `ConfigFileReadError` with the I/O error's text. The parser is not consulted then. A parse failure of text that was read becomes `ConfigFileParseError` with the parser's text. Otherwise the parsed configuration is returned. A parse error implies the read succeeded. The result is `Ok` exactly when both steps succeed. |
| `KsServer.CheckProjectPresence` | src/bin/ks_server.rs:78-88 | Every answer forbids caching, and its status is 204, 402 or 404. 204 holds exactly when the name is present and `true`. 402 holds exactly when it is present and `false`. 404 holds exactly when it is absent. |
| `KsServer.HandlePost` | src/bin/ks_server.rs:61-65 | Every answer forbids caching, and its status is one of 204, 402, 404 or 500. 500 is returned exactly when configuration resolution failed, for either error kind. Otherwise the answer is the lookup's answer for the resolved projects table. |
| `KsServer.Handle` | src/bin/ks_server.rs:57-68 | Any method or path other than `POST /` gets 404 without no-cache headers. `POST /` with an undecodable body gets 400 without no-cache headers. A decoded name gets the `POST /` branch on a freshly resolved configuration. Every status is one of 204, 400, 402, 404 or 500. |
| `KsServer.Serve` | src/bin/ks_server.rs:55-70 | The server gives one response per request. The i-th response is the handler's answer to the i-th request and the file as it stood then, whatever came before. |
| `KsServerProperties.PresenceMatchesOutcome` | src/bin/ks_server.rs:78-88 | The lookup's answer is the status of the independent classification Enabled/Disabled/Unknown, marked no-cache. |
| `KsServerProperties.StatusOfInjective` | src/bin/ks_server.rs:79-87 | Distinct outcomes have distinct statuses, so a client can recover the outcome from the status. |
| `KsServerProperties.OnlyEntryMatters` | src/bin/ks_server.rs:79 | Two project tables that agree on the requested name give the same answer. |
| `KsServerProperties.OtherEntriesIrrelevant` | src/bin/ks_server.rs:79 | Adding, changing or removing another name's entry does not change the answer. |
| `KsServerProperties.ConfigFailureIgnoresName` | src/bin/ks_server.rs:61-64 | Either configuration error gives the same no-cache 500 for every requested name. |
| `KsServerProperties.ReadFailureSkipsParser` | src/bin/ks_server.rs:74-75 | After a read failure, every parser gives the same `ConfigFileReadError`, so the parse is never attempted. |
| `KsServerProperties.UnroutedIgnoresConfig` | src/bin/ks_server.rs:57-61 | Another route, or an undecodable body on `POST /`, gets a 400 or 404. That answer is independent of the file and the parser, so the configuration is not read. |
| `KsServerProperties.NotFoundKinds` | src/bin/ks_server.rs:67 | An unknown project and an unmatched route both get 404. Only the unknown project's answer carries no-cache headers. |
| `KsServerProperties.ServeAppend` | src/bin/ks_server.rs:55-70 | Serving two runs of requests back to back answers each run as if it were served alone. |
| `KsServerProperties.Idempotent` | src/bin/ks_server.rs:55-70 | Identical requests against the same state of the file get identical answers anywhere in the server's lifetime. |
| `KsServerProperties.Freshness` | src/bin/ks_server.rs:61-62 | Take two identical lookups, with the flag flipped from enabled to disabled in the file between them. The first gets 204 and the second gets 402, without a restart. |
| `KsServerProperties.Scenarios` | src/bin/ks_server.rs:57-88 | With `alpha` enabled: `alpha` gets 204 and `beta` gets 404. An unreadable file gets 500. A body without `name` gets 400. `GET /` gets 404. |
| `KsServerProperties.DisabledScenario` | src/bin/ks_server.rs:82-83 | With `alpha` disabled, looking up `alpha` gets 402. |

## Left out

- Server startup in `main` (lines 45-54) is not modelled. This covers reading the configuration once for the bind address, formatting `host:port`, printing, and returning early when the configuration cannot be read. This is process plumbing. The handler closure does not capture that configuration.
- The HTTP transport, the `router!` macro's internals and request logging are not modelled. `Handle` models their observable routing decision: method `POST` and path `/`.
- JSON decoding by `json_input` is not modelled. This includes its content-type check and the error body that `try_or_400!` attaches to the 400. The decoded body is an `Option<string>`.
- Reading the file from disk and the YAML parser are parameters. So are the parser's own checks: a `u16` port, boolean flags, and required fields. `ConfigFile` constrains the port to 0..65535.
- The `Display` texts of the error variants (lines 27-30) are not modelled. Error details are opaque strings.
- Concurrency between worker threads is not modelled. The handler shares no state, and `Serve` treats requests one after another.
- Response headers other than the no-cache marker, and response bodies, are not modelled.
