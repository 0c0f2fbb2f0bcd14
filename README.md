# Elasticsearch route table, request forwarding and response cache

This project is a Dafny model of the core of an API gateway that sits in front
of Elasticsearch. It covers three parts.

- **Route construction** (`plugins/elasticsearch/routes.go`):
  - A specification file is chosen by its name.
  - Each decoded API specification is classified into three things:
    - a category, taken from its documentation URL;
    - an access tier (ACL), taken from its first `_` path segment or from its name;
    - an operation, taken from its HTTP methods.
  - Every API is expanded into routes, one per entry of `url.paths` that does not normalize to `/`. The entries `""` and `"/"` give no route (routes.go:71-73).
  - The API is recorded in a `"METHOD:path"` index and in a category-to-ACL index.
  - The routes are sorted by specificity.
  - A catch-all `GET /` route is appended last.
- **Forwarding** (`plugins/elasticsearch/handlers.go`):
  - The inbound headers lose `Content-Type`, and each header keeps only its first value.
  - The backend's answer is relayed to the caller:
    - all headers except `Content-Length`;
    - `X-Origin: ES`;
    - the status and the body, byte for byte.
  - A backend error becomes a 500.
- **Response cache** (`model/response/response.go`): a map from request ID to a document, with save, get and clear.

Modules:

- `Wrappers`: `Option` (a nil pointer) and `Result` (a value or an error).
- `GoStrings`: the parts of Go's `strings` and `path/filepath` that the route code relies on. These are `Split`/`Join`, `HasPrefix`/`HasSuffix`, `TrimPrefix`/`TrimSuffix`, `Base` and `Ext`.
- `SpecFiles`: the file filter of the directory walk and the name a specification takes from its file.
- `Classify`:
  - `decodeCategory`, `decodeACL` and `decodeOp`;
  - the `api` record that `decodeSpecFile` sends.
- `Routes`: the package-level `routes`, `routeSpecs` and `acls`, as the class `RouteTable`, filled by `preprocess`'s loop.
- `Handlers`: the header filter, the backend call's options, a response writer and the relay.
- `Response`: the response cache as the class `Store`.

External packages are passed in as values:

- The lookups `category.FromString` and `acl.FromString` and the default tier `acl.Get` form a `Vocabulary` value. The category and ACL types are type parameters.
- `util.CountComponents` is a function parameter `count`.
- The sort criterion of `preprocess` is stated over `count`.

Facts about the code that the model keeps:

- Routes come only from `url.paths`; `url.path` is never used as a fallback when `paths` is empty (routes.go:67).
- A path creates one route that carries all of the API's methods, not one route per (method, path) pair (routes.go:74-81). The `"METHOD:path"` index does get one key per pair (routes.go:82-85).
- Routes are not de-duplicated. A later API registered under the same key replaces the earlier one in the index; the last writer wins (routes.go:84).
- When the first `_` segment of the URL path does not name an ACL, decodeACL returns no ACL at all rather than the default tier (routes.go:228-229). The record-building step dereferences that nil ACL (see Findings).
- When reading the request body fails, the handler only logs the error and forwards whatever `ioutil.ReadAll` returned, which need not be empty (handlers.go:31-34). The model takes the body read as a parameter.

## Model

| member | source | states |
|---|---|---|
| GoStrings.Split | plugins/elasticsearch/routes.go:215-217 | strings.Split on one separator: at least one piece, and no piece holds the separator |
| GoStrings.SplitJoin | plugins/elasticsearch/routes.go:223 | Split undoes Join whenever no piece holds the separator, so a path given as its segments splits back into exactly those segments |
| GoStrings.JoinSplit | plugins/elasticsearch/routes.go:223 | Join undoes Split, so the segments of a path make up the path |
| GoStrings.TrimSuffix | plugins/elasticsearch/routes.go:216 | a suffix is removed once when present, giving the text that the suffix completes; otherwise the text is unchanged |
| GoStrings.TrimPrefix | plugins/elasticsearch/routes.go:226 | a prefix is removed once when present; otherwise the text is unchanged |
| GoStrings.LastPieceIsSuffix | plugins/elasticsearch/routes.go:215-216 | the last piece of a split is the longest separator-free suffix of the text |
| GoStrings.Base | plugins/elasticsearch/routes.go:197 | filepath.Base is never empty: "." for the empty path, "/" for a path of slashes, and otherwise the last element of the path after its trailing slashes are removed: a suffix without `/` that is the whole trimmed path or follows a `/` |
| GoStrings.Ext | plugins/elasticsearch/routes.go:145 | filepath.Ext is a suffix of the path that starts with its only `.` and holds no `/`; it is empty only when every `.` of the path is followed by a `/` |
| GoStrings.ExtIsJson | plugins/elasticsearch/routes.go:145 | the extension is ".json" exactly when the path ends in ".json" |
| SpecFiles.IsSpecFile | plugins/elasticsearch/routes.go:145 | the walk accepts exactly the entries that are not directories and whose path ends in ".json" and whose base name does not start with `_` |
| SpecFiles.SpecName | plugins/elasticsearch/routes.go:197 | the specification name is the file's base name without one trailing ".json" |
| SpecFiles.SpecNameOfSpecFile | plugins/elasticsearch/routes.go:145 | for a file the walk accepts, name + ".json" is the base name and a suffix of the path, and the name holds no `/` and does not start with `_` |
| Classify.CategoryTag | plugins/elasticsearch/routes.go:215-218 | the category token holds neither `-` nor `/` |
| Classify.CategoryOfDocumentation | plugins/elasticsearch/routes.go:214-220 | DecodeCategory (decodeCategory) is total and looks up the last URL segment, without ".html", up to its first `-` |
| Classify.CategoryOfCreateIndex | plugins/elasticsearch/routes.go:214-220 | a documentation page "indices-create-index.html" gives category "indices" |
| Classify.FirstUnderscore | plugins/elasticsearch/routes.go:224-225 | the index of the first token that starts with `_`, with no earlier token that does, or the token count when there is none |
| Classify.DecodeAcl | plugins/elasticsearch/routes.go:222-243 | a missing ACL always comes with an unresolved key, and only when some path segment starts with `_` |
| Classify.AclFromFirstUnderscoreSegment | plugins/elasticsearch/routes.go:223-231 | only the first `_` segment is looked up, without its `_`; when it resolves, that ACL is returned; when it does not, the result is nil plus the error, whatever later segments hold |
| Classify.NoUnderscoreToken | plugins/elasticsearch/routes.go:224-233 | a path in which no segment starts with `_` leaves the segment loop without a match |
| Classify.AclFromSpecName | plugins/elasticsearch/routes.go:235-242 | without a `_` segment, the spec name up to its first `.` is looked up; when that fails, acl.Get is returned together with the error |
| Classify.AclOfCatIndices | plugins/elasticsearch/routes.go:223-231 | "/_cat/indices" is given the tier "cat" |
| Classify.DecodeOp | plugins/elasticsearch/routes.go:245-276 | the loop with its labelled break computes OpOf of the method list |
| Classify.OpOfFirstNonPost | plugins/elasticsearch/routes.go:250-272 | OpOf, the operation decodeOp computes: the first method that is not POST decides: PUT or PATCH gives Write, DELETE gives Delete, and GET, HEAD or any other method gives Read |
| Classify.OpOfAllPost | plugins/elasticsearch/routes.go:246-268 | POSTs only give Write; an empty list leaves the zero operation |
| Classify.OpOfPostThenGet | plugins/elasticsearch/routes.go:261-268 | POST does not end the scan: POST then GET is a Read |
| Classify.ApiOf | plugins/elasticsearch/routes.go:197-211 | as written: the record carries the spec name, category, the ACL decodeACL returned, operation and spec, and building it fails exactly when decodeACL returned nil |
| Classify.AclOfNopePath | plugins/elasticsearch/routes.go:223-229 | for `url.path` "/_nope" with an unknown "nope", decodeACL returns a nil ACL together with "nope" as the unresolved token |
| Classify.NilAclOnUnknownUnderscoreSegment | plugins/elasticsearch/routes.go:228-229 | a path "/_nope" whose segment is not an ACL makes the record building dereference nil |
| Classify.ApiOfCorrected | plugins/elasticsearch/routes.go:205-211 | the corrected record equals the as-written one whenever that succeeds, and otherwise uses acl.Get; its category, operation and spec are always those decoded |
| Routes.NormalizeSpec | plugins/elasticsearch/routes.go:68-73 | Normalize: the path gains at most one leading `/`, ends with the original path, is unchanged when it already starts with `/`, is idempotent, and is the skipped root "/" exactly for "" and "/" |
| Routes.RoutesOfPathsFields | plugins/elasticsearch/routes.go:67-81 | each route carries the API's name, methods and documentation, and a normalized path from its list that is never "/"; there are at most as many routes as paths |
| Routes.RoutesOfPathsCover | plugins/elasticsearch/routes.go:67-81 | every path that does not normalize to "/" yields a route |
| Routes.RoutesOfPathsExact | plugins/elasticsearch/routes.go:67-81 | without "" or "/" paths, exactly one route per path, in order, with duplicates kept |
| Routes.NonRootPaths | plugins/elasticsearch/routes.go:67-73 | the kept paths are exactly the normalized entries other than "/": every such entry is kept, and every kept path is the normalization of some entry; they all start with `/`, and there are no more of them than entries |
| Routes.RoutesOfPathsInOrder | plugins/elasticsearch/routes.go:67-81 | for any path list, the routes are exactly one per kept normalized path, in the same order |
| Routes.RoutesOfAllPaths | plugins/elasticsearch/routes.go:66-86 | every assembled route's path starts with `/` and is not "/" |
| Routes.RegisterMethodsSpec | plugins/elasticsearch/routes.go:82-85 | the index maps "m:path" to the API for each method m; other keys are unchanged |
| Routes.RegisterPathsSpec | plugins/elasticsearch/routes.go:67-86 | the index gains exactly the keys "m:p" for the API's methods and its non-"/" paths; these map to the API, and other keys are unchanged |
| Routes.RegisterApiSpec | plugins/elasticsearch/routes.go:82-85 | each key of the API maps to it whatever was there before (last writer wins); every other key is as it was |
| Routes.AclsAllSpec | plugins/elasticsearch/routes.go:87-92 | the category index holds exactly the earlier categories and (category, ACL) pairs plus those of the APIs |
| Routes.Insert | plugins/elasticsearch/routes.go:96-104 | inserting into a sorted sequence keeps it sorted by the criterion, and the result is the old contents plus the new route |
| Routes.RouteTableShape | plugins/elasticsearch/routes.go:104-114 | in the finished table the catch-all is last and is the only route whose path is "/"; every path starts with `/`; the specific routes are ordered by more fixed segments, then fewer parameters |
| Routes.RouteTable.constructor | plugins/elasticsearch/routes.go:22-26 | the three package variables start empty |
| Routes.RouteTable.AddPath | plugins/elasticsearch/routes.go:67-86 | a path that normalizes to "/" changes nothing; any other path appends its route and registers the API under every "method:path" |
| Routes.RouteTable.Add | plugins/elasticsearch/routes.go:66-93 | one API appends its routes, registers its keys and records its (category, ACL) pair |
| Routes.RouteTable.RecordAcl | plugins/elasticsearch/routes.go:87-92 | the ACL is added to its category's set, and the set is created when the category is new |
| Routes.RouteTable.SortRoutes | plugins/elasticsearch/routes.go:96-104 | afterwards the routes are sorted by the criterion and are a permutation of the routes before |
| Routes.RouteTable.Finish | plugins/elasticsearch/routes.go:104-114 | the sorted routes, a permutation of the assembled ones, are followed by the catch-all route |
| Routes.RouteTable.Preprocess | plugins/elasticsearch/routes.go:66-114 | after all APIs: the table is the sorted assembled routes plus the catch-all, and the two indexes are those of the APIs |
| Handlers.SetFirstValues | plugins/elasticsearch/handlers.go:53-57 | every header except the dropped one is set to its first value, replacing the target's value; the target's other headers are kept |
| Handlers.FilterRequestHeaders | plugins/elasticsearch/handlers.go:24-29 | the outbound keys are exactly the inbound keys minus Content-Type, each with its first inbound value |
| Handlers.ForwardRequest | plugins/elasticsearch/handlers.go:36-42 | method, path, query and body are passed on unchanged; the headers are filtered and never hold Content-Type |
| Handlers.ResponseWriter.SetHeader | plugins/elasticsearch/handlers.go:55 | the header now has the single value given |
| Handlers.ResponseWriter.WriteHeader | plugins/elasticsearch/handlers.go:61 | the first status written is the one kept |
| Handlers.ResponseWriter.Write | plugins/elasticsearch/handlers.go:64 | the bytes are appended to the body |
| Handlers.Relay | plugins/elasticsearch/handlers.go:46-64 | on error: status 500, the error's report as body, and no backend header; on success: the backend's status and exact body, every backend header except Content-Length with its first value, the writer's other headers kept, and X-Origin "ES" even when the backend sent one |
| Response.Lookup | model/response/response.go:9-12 | the lookup finds a document exactly when the ID is present, and returns that ID's document |
| Response.Store.constructor | model/response/response.go:5 | the response map starts empty |
| Response.Store.GetResponse | model/response/response.go:8-14 | returns the document saved under the ID or nil, and does not change the map |
| Response.Store.SaveResponse | model/response/response.go:17-19 | the ID now maps to the document, replacing any earlier one; every other ID finds what it found before |
| Response.Store.ClearResponse | model/response/response.go:22-24 | the ID finds nothing afterwards; every other ID is unchanged, and clearing an absent ID changes nothing |

## Left out

- The directory walk (`fetchSpecFiles`, `os.Stat`, `log.Fatal`) and `getWD`. They are filesystem I/O and process exit. Only the walk's filter (`SpecFiles.IsSpecFile`) and the naming are modelled. For a directory walked this way, `info.Name()` is the base name of the path.
- The goroutines, `sync.WaitGroup` and channels of `decodeSpecFiles`/`decodeSpecFile`. They are concurrency. The route table takes the decoded APIs as a sequence in arrival order.
- The JSON decoding of specification files. It is library parsing. A decoded `Spec` keeps only the documentation URL, the methods, `url.path` and `url.paths`. `url.parts`, `url.params` and `body` are not read by the modelled code.
- `printCategoryACLMDTable`, which is console output.
- The `plugins/logs` routes, which are not part of this model.
- Route handlers and the middleware chain. These are opaque functions, so a route is a record without its handler.
- The category and ACL packages, `util.CountComponents`, `route.By(...).Sort`, `util.GetClient7`, the backend client's `PerformRequest`, `ioutil.ReadAll`, `util.WriteBackError` and logging. These are code outside this model. Their results are parameters:
  - the vocabulary;
  - `count`;
  - the backend outcome;
  - the body read;
  - `report`, for how WriteBackError renders an error.
- Routes.RouteTable.SortRoutes: states only that the result is sorted and a permutation. The algorithm of `route.By(...).Sort` is not part of this model, so no stability is claimed. An insertion sort stands in for it.
- Handlers.Relay: the headers that `util.WriteBackError` may set on its own (its content type) are not modelled. On an error the model leaves the writer's headers as they were.
- Handlers.HasValues: the header filter and the relay require every header to have at least one value. An empty value list would make `v[0]` panic (handlers.go:27, 55), and `net/http` never delivers such a header.
- Handlers.SetFirstValues: header names are taken as canonical. `http.Header.Set` canonicalises the key, and the modelled maps already hold canonical keys, so canonicalisation is not modelled.
- Handlers.ResponseWriter.WriteHeader: the check that a status lies between 100 and 999, which `net/http` performs, is not modelled.
- Go strings are byte strings. The model uses one `char` per byte of a path, URL or header, and `byte` for bodies. `string(esBody)` in the backend options is kept as the bytes.
- Response.Store.GetResponse: returns the document as a value. In the source it is a pointer to a copy of the map header, which shares the stored map's entries. Aliasing through that pointer is not modelled.
- Thread safety of the response map: the source has no lock, and the store is modelled as sequential.

## Findings

| source | as written | input that shows it | evidently intended | confidence | as-written member | corrected member |
|---|---|---|---|---|---|---|
| plugins/elasticsearch/routes.go:228-229 | when the first `_` segment of the URL path is not a known ACL, decodeACL returns a nil ACL with the error, and decodeSpecFile then dereferences it at line 209 | a specification whose `url.path` is "/_nope", where "nope" is not an ACL | fall back to acl.Get and report the error, as the spec-name branch at lines 237-239 does, so that a record is always built | medium; not executed | Classify.NilAclOnUnknownUnderscoreSegment | Classify.ApiOfCorrected |
