/** Actions and handlers: one remote operation of a resource and the
    resource that owns it. Calling an action turns keyword arguments into a
    request (URL, query parameters, multipart fields, remaining keyword
    arguments) by verb-specific rules, hands the request to the session and
    decodes the response. */
module Actions {
  import opened Values
  import opened Tables

  /** A piece of a URI template: literal text or a `{name}` placeholder. */
  datatype Segment = Text(text: string) | Placeholder(name: string)

  /** A piece of a formatted URL: literal text, or the value substituted for
      a placeholder; its `str()` is what appears in the URL. */
  datatype UrlPart = Literal(text: string) | Inserted(value: Value)

  /** One field of a multipart body: the pair `(None, str(v))`, or a list or
      tuple passed on unchanged. */
  datatype FormField = NoneAndStr(value: Value) | AsIs(value: Value)

  /** One operation of a resource, as the description document declares it. */
  datatype Action = Action(name: string, verb: string, op: Option<string>, doc: string, restful: bool)

  /** A resource: its URI template, the template parameters it reserves and
      its actions by name. */
  datatype Handler = Handler(
    name: string,
    uri: seq<Segment>,
    params: seq<string>,
    path: string,
    doc: Option<string>,
    actions: map<string, Action>)

  /** What a call can raise. */
  datatype CallError =
    | ArgsNotMapping             // `args` is not a dictionary: `url_args.update(args)` fails
    | MissingPlaceholder(name: string)  // `str.format` raises KeyError
    | ParamsNotMapping           // `params.update(kw_params)` fails
    | FilesNotMapping            // `convert_files_arg` calls `.items()` on a non-dictionary
    | DuplicateParams            // `params=` given twice to `session.request`
    | PositionalClash            // a `method` or `url` keyword given besides the positional ones
    | UnexpectedKeyword          // a keyword `Session.request` does not take
    | HttpError(text: string)    // the response is not ok

  /** What is handed to `session.request`: verb, URL, `params=` and the
      other keyword arguments. `files` is the multipart mapping built by
      `convert_files_arg` for a POST; on any other verb a caller's `files`
      keyword stays, unconverted, among the other keyword arguments. */
  datatype Request = Request(
    verb: string,
    url: seq<UrlPart>,
    query: Value,
    kwargs: map<string, Value>,
    files: Option<map<string, FormField>>)

  /** The parts of a response the client reads; `json` is what
      `response.json()` decodes to. */
  datatype Response = Response(ok: bool, statusCode: int, json: Value, text: string)

  /** What a successful call returns. */
  datatype Reply = Json(body: Value) | Status(code: int)

  /** The names the template asks for. */
  function PlaceholderNames(template: seq<Segment>): set<string> {
    set k | 0 <= k < |template| && template[k].Placeholder? :: template[k].name
  }

  /** `uri.format(**values)` for templates made of text and `{name}`
      placeholders: fails on the first placeholder `values` lacks, and
      otherwise keeps the text and substitutes each placeholder. */
  function Format(template: seq<Segment>, values: map<string, Value>): (r: Result<seq<UrlPart>, CallError>)
    ensures r.Ok? <==> PlaceholderNames(template) <= values.Keys
    ensures r.Ok? ==> |r.value| == |template|
    ensures r.Ok? ==> forall k | 0 <= k < |template| ::
      r.value[k] == if template[k].Text? then Literal(template[k].text) else Inserted(values[template[k].name])
    ensures r.Err? ==> r.error.MissingPlaceholder? && r.error.name in PlaceholderNames(template) - values.Keys
  {
    if template == [] then Ok([])
    else
      assert PlaceholderNames(template) == PlaceholderNames([template[0]]) + PlaceholderNames(template[1..]) by {
        forall n | n in PlaceholderNames(template)
          ensures n in PlaceholderNames([template[0]]) + PlaceholderNames(template[1..])
        {
          var k :| 0 <= k < |template| && template[k].Placeholder? && template[k].name == n;
          if k == 0 {
            assert [template[0]][0].name == n;
          } else {
            assert template[1..][k - 1] == template[k];
          }
        }
      }
      var head := match template[0]
        case Text(t) => Ok(Literal(t))
        case Placeholder(n) => if n in values then Ok(Inserted(values[n])) else Err(MissingPlaceholder(n));
      if head.Err? then Err(head.error)
      else
        match Format(template[1..], values)
        case Err(e) => Err(e)
        case Ok(rest) => Ok([head.value] + rest)
  }

  /** The mapping `convert_files_arg` produces. */
  function FormFields(m: map<string, Value>): map<string, FormField> {
    map k | k in m :: if IsSequence(m[k]) then AsIs(m[k]) else NoneAndStr(m[k])
  }

  /** `convert_files_arg`: every key kept; a list or tuple passes unchanged,
      any other value `v` becomes `(None, str(v))`. */
  method ConvertFilesArg(mapping: map<string, Value>) returns (result: map<string, FormField>)
    ensures result.Keys == mapping.Keys
    ensures forall k | k in mapping ::
      if IsSequence(mapping[k]) then result[k] == AsIs(mapping[k]) else result[k] == NoneAndStr(mapping[k])
    ensures result == FormFields(mapping)
  {
    result := map[];
    var todo := mapping.Keys;
    while todo != {}
      invariant todo <= mapping.Keys
      invariant result.Keys == mapping.Keys - todo
      invariant forall k | k in result :: result[k] == FormFields(mapping)[k]
      decreases todo
    {
      var k :| k in todo;
      var v := mapping[k];
      if !IsSequence(v) {
        result := result[k := NoneAndStr(v)];
      } else {
        result := result[k := AsIs(v)];
      }
      todo := todo - {k};
    }
  }

  /** The two keywords that carry the unified argument dictionary. */
  const ConventionKeys: set<string> := {"args", "arguments"}

  /** `kwargs.get('args', kwargs.get('arguments', {}))` */
  function CallArgs(kwargs: map<string, Value>): Value {
    if "args" in kwargs then kwargs["args"]
    else if "arguments" in kwargs then kwargs["arguments"]
    else Dict(map[])
  }

  function AsSet(names: seq<string>): set<string> {
    set k | 0 <= k < |names| :: names[k]
  }

  /** The query an action with tag `op` starts from: `{"op": op}` or None. */
  function OpQuery(op: Option<string>): Value {
    if op.Some? then Dict(map["op" := Str(op.value)]) else Null
  }

  predicate IsQueryVerb(verb: string) {
    verb == "GET" || verb == "DELETE"
  }

  /** Verb-specific routing once the URL is built and the reserved
      parameters are gone from `kwargs` and from `args`. */
  function Route(action: Action, url: seq<UrlPart>, kwargs: map<string, Value>, args: map<string, Value>): Result<Request, CallError> {
    var query := OpQuery(action.op);
    if IsQueryVerb(action.verb) then
      var given := if "params" in kwargs then kwargs["params"] else Dict(args);
      var rest := kwargs - {"params"};
      if action.op.None? then Send(action.verb, url, given, rest, None)
      else if given.Dict? then Send(action.verb, url, Dict(query.entries + given.entries), rest, None)
      else Err(ParamsNotMapping)
    else if action.verb == "POST" then
      var files := if "files" in kwargs then kwargs["files"] else Dict(args);
      if !files.Dict? then Err(FilesNotMapping)
      else Send(action.verb, url, query, kwargs - {"files"}, Some(FormFields(files.entries)))
    else Send(action.verb, url, query, kwargs, None)
  }

  /** The keyword options `Session.request` of the `requests` library takes
      besides `method`, `url` and `params`; the OAuth session inherits that
      method unchanged, and it has no catch-all keyword parameter. */
  const RequestOptions: set<string> := {
    "data", "headers", "cookies", "files", "auth", "timeout", "allow_redirects",
    "proxies", "hooks", "stream", "verify", "cert", "json"}

  /** `session.request(method, url, params=query, **kwargs)`: a `params`
      keyword left in `kwargs` is given twice, which Python reports while
      building the call; a `method` or `url` keyword then collides with the
      positional arguments, and any other keyword that is not a request
      option is unexpected. Otherwise the request is made as given. */
  function Send(verb: string, url: seq<UrlPart>, query: Value, kwargs: map<string, Value>,
                files: Option<map<string, FormField>>): (r: Result<Request, CallError>)
    ensures r.Ok? <==> kwargs.Keys <= RequestOptions
    ensures r.Ok? ==> r.value == Request(verb, url, query, kwargs, files)
    ensures "params" in kwargs ==> r == Err(DuplicateParams)
    ensures "params" !in kwargs && ("method" in kwargs || "url" in kwargs) ==> r == Err(PositionalClash)
    ensures r == Err(UnexpectedKeyword) <==>
      "params" !in kwargs && "method" !in kwargs && "url" !in kwargs &&
      exists name | name in kwargs :: name !in RequestOptions
  {
    if "params" in kwargs then Err(DuplicateParams)
    else if "method" in kwargs || "url" in kwargs then Err(PositionalClash)
    else if !(kwargs.Keys <= RequestOptions) then Err(UnexpectedKeyword)
    else Ok(Request(verb, url, query, kwargs, files))
  }

  /** The request a call makes, or the error it raises before any request,
      with what the caller's `args` dictionary holds afterwards (the call
      deletes the reserved parameters from it in place). */
  datatype Prepared = Prepared(outcome: Result<Request, CallError>, argsAfter: Value)

  function Prepare(handler: Handler, action: Action, kwargs: map<string, Value>): Prepared {
    var args := CallArgs(kwargs);
    var plain := kwargs - ConventionKeys;
    if !args.Dict? then Prepared(Err(ArgsNotMapping), args)
    else
      match Format(handler.uri, plain + args.entries)
      case Err(e) => Prepared(Err(e), args)
      case Ok(url) =>
        var reserved := AsSet(handler.params);
        var left := args.entries - reserved;
        Prepared(Route(action, url, plain - reserved, left), Dict(left))
  }

  /** Reading the response: an ok reply is the decoded JSON, except that an
      ok DELETE gives its status code; a reply that is not ok raises with
      the body text. */
  function Decode(verb: string, response: Response): Result<Reply, CallError> {
    if !response.ok then Err(HttpError(response.text))
    else if verb != "DELETE" then Ok(Json(response.json))
    else Ok(Status(response.statusCode))
  }

  /** `Action.__call__`: the session is the function `server` from requests
      to responses. */
  function Invoke(handler: Handler, action: Action, kwargs: map<string, Value>, server: Request -> Response): Result<Reply, CallError> {
    match Prepare(handler, action, kwargs).outcome
    case Err(e) => Err(e)
    case Ok(request) => Decode(action.verb, server(request))
  }

  /** Deletes every reserved parameter, where present, from the keyword
      arguments and from the argument dictionary, in place. */
  method DeleteReserved(params: seq<string>, kwargs: map<string, Value>, args: map<string, Value>)
    returns (kw: map<string, Value>, left: map<string, Value>)
    ensures kw == kwargs - AsSet(params) && left == args - AsSet(params)
  {
    kw, left := kwargs, args;
    for i := 0 to |params|
      invariant kw == kwargs - AsSet(params[..i])
      invariant left == args - AsSet(params[..i])
    {
      var p := params[i];
      assert AsSet(params[..i + 1]) == AsSet(params[..i]) + {p} by {
        assert params[..i + 1] == params[..i] + [p];
      }
      if p in kw { kw := kw - {p}; }
      if p in left { left := left - {p}; }
    }
    assert params[..|params|] == params;
  }

  /** `Action.__call__`, step by step as the source takes them: pick the
      argument dictionary, drop the two convention keywords, format the URI,
      delete the reserved parameters from both dictionaries, route by verb,
      make the request and read the response. */
  method Call(handler: Handler, action: Action, kwargs: map<string, Value>, server: Request -> Response)
    returns (result: Result<Reply, CallError>, argsAfter: Value)
    ensures result == Invoke(handler, action, kwargs, server)
    ensures argsAfter == Prepare(handler, action, kwargs).argsAfter
  {
    var kw := kwargs;
    var args := if "args" in kw then kw["args"] else if "arguments" in kw then kw["arguments"] else Dict(map[]);
    if "args" in kw { kw := kw - {"args"}; }
    if "arguments" in kw { kw := kw - {"arguments"}; }
    assert kw == kwargs - ConventionKeys;
    if !args.Dict? {
      return Err(ArgsNotMapping), args;
    }
    var formatted := Format(handler.uri, kw + args.entries);
    if formatted.Err? {
      return Err(formatted.error), args;
    }
    var url := formatted.value;

    var left;
    kw, left := DeleteReserved(handler.params, kw, args.entries);
    argsAfter := Dict(left);

    var query := OpQuery(action.op);
    var files: Option<map<string, FormField>> := None;
    if IsQueryVerb(action.verb) {
      var given := if "params" in kw then kw["params"] else Dict(left);
      kw := kw - {"params"};
      if query.Dict? {
        if !given.Dict? {
          return Err(ParamsNotMapping), argsAfter;
        }
        query := Dict(query.entries + given.entries);
      } else {
        query := given;
      }
    } else if action.verb == "POST" {
      var f := if "files" in kw then kw["files"] else Dict(left);
      if !f.Dict? {
        return Err(FilesNotMapping), argsAfter;
      }
      var converted := ConvertFilesArg(f.entries);
      kw := kw - {"files"};
      files := Some(converted);
    }
    if "params" in kw {
      return Err(DuplicateParams), argsAfter;
    }
    if "method" in kw || "url" in kw {
      return Err(PositionalClash), argsAfter;
    }
    if !(kw.Keys <= RequestOptions) {
      return Err(UnexpectedKeyword), argsAfter;
    }
    var response := server(Request(action.verb, url, query, kw, files));
    if !response.ok {
      result := Err(HttpError(response.text));
    } else if action.verb != "DELETE" {
      result := Ok(Json(response.json));
    } else {
      result := Ok(Status(response.statusCode));
    }
  }

  /** The `auth` part of a resource entry of the description document. */
  datatype AuthDesc = AuthDesc(uri: seq<Segment>, params: seq<string>, path: string, doc: Option<string>, actions: seq<Action>)

  function ActionEntries(actions: seq<Action>): (es: seq<(string, Action)>)
    ensures |es| == |actions|
    ensures forall i | 0 <= i < |actions| :: es[i] == (actions[i].name, actions[i])
  {
    seq(|actions|, i requires 0 <= i < |actions| => (actions[i].name, actions[i]))
  }

  /** The actions a handler exposes, by name; a later action with the same
      name replaces an earlier one. */
  function ActionTable(actions: seq<Action>): map<string, Action> {
    Overwrite(map[], ActionEntries(actions))
  }

  /** A handler exposes exactly the names its actions declare, each bound
      to the last action declared under it. */
  lemma ActionTableLastWins(actions: seq<Action>, name: string)
    ensures name in ActionTable(actions) <==> exists i | 0 <= i < |actions| :: actions[i].name == name
    ensures forall i | 0 <= i < |actions| && actions[i].name == name ::
      (forall j | i < j < |actions| :: actions[j].name != name) ==> ActionTable(actions)[name] == actions[i]
  {
    var es := ActionEntries(actions);
    OverwriteLastWins(map[], es, name);
    forall i | 0 <= i < |actions| && actions[i].name == name && (forall j | i < j < |actions| :: actions[j].name != name)
      ensures ActionTable(actions)[name] == actions[i]
    {
      assert LastFor(es, i, name);
    }
  }

  /** `Handler.__init__`: keeps the template, the reserved parameters, the
      path and the doc, and binds every action under its name in turn. */
  method NewHandler(name: string, auth: AuthDesc) returns (h: Handler)
    ensures h == Handler(name, auth.uri, auth.params, auth.path, auth.doc, ActionTable(auth.actions))
  {
    var table: map<string, Action> := map[];
    for i := 0 to |auth.actions|
      invariant table == ActionTable(auth.actions[..i])
    {
      var action := auth.actions[i];
      assert ActionEntries(auth.actions[..i + 1]) == ActionEntries(auth.actions[..i]) + [(action.name, action)];
      OverwriteSnoc(map[], ActionEntries(auth.actions[..i]), (action.name, action));
      table := table[action.name := action];
    }
    assert auth.actions[..|auth.actions|] == auth.actions;
    h := Handler(name, auth.uri, auth.params, auth.path, auth.doc, table);
  }
}
