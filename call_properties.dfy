/** What a call of an action does with its keyword arguments, stated over
    `Actions.Prepare` and `Actions.Invoke`. */
module CallProperties {
  import opened Values
  import opened Actions

  /** The URL takes each placeholder from `args` when `args` has it and
      from the plain keyword arguments otherwise: on a clash `args` wins.
      Formatting fails exactly when some placeholder is in neither. */
  lemma UrlTakesArgsOverKeywords(h: Handler, a: Action, kwargs: map<string, Value>)
    requires CallArgs(kwargs).Dict?
    ensures var args := CallArgs(kwargs).entries;
      var p := Prepare(h, a, kwargs).outcome;
      && ((p.Err? && p.error.MissingPlaceholder?) <==>
          exists n | n in PlaceholderNames(h.uri) :: n !in args && n !in kwargs - ConventionKeys)
      && (p.Ok? ==> forall k | 0 <= k < |h.uri| && h.uri[k].Placeholder? ::
            p.value.url[k] == Inserted(if h.uri[k].name in args then args[h.uri[k].name] else kwargs[h.uri[k].name]))
  {
    var args := CallArgs(kwargs).entries;
    var values := (kwargs - ConventionKeys) + args;
    var f := Format(h.uri, values);
    if f.Ok? {
      var p := Prepare(h, a, kwargs).outcome;
      var reserved := AsSet(h.params);
      assert p == Route(a, f.value, (kwargs - ConventionKeys) - reserved, args - reserved);
    }
  }

  /** A placeholder found in neither the keyword arguments nor `args`
      raises before any request: the outcome does not depend on the
      session, and the caller's `args` is left as it was. */
  lemma MissingPlaceholderRaisesBeforeRequest(h: Handler, a: Action, kwargs: map<string, Value>, name: string,
                                              s1: Request -> Response, s2: Request -> Response)
    requires CallArgs(kwargs).Dict?
    requires name in PlaceholderNames(h.uri)
    requires name !in CallArgs(kwargs).entries && name !in kwargs - ConventionKeys
    ensures Invoke(h, a, kwargs, s1).Err? && Invoke(h, a, kwargs, s1).error.MissingPlaceholder?
    ensures Invoke(h, a, kwargs, s1) == Invoke(h, a, kwargs, s2)
    ensures Prepare(h, a, kwargs).argsAfter == CallArgs(kwargs)
  {
    var values := (kwargs - ConventionKeys) + CallArgs(kwargs).entries;
    assert name !in values;
    assert Format(h.uri, values).Err?;
  }

  /** The keywords a verb consumes besides the reserved parameters. */
  function Consumed(verb: string): set<string> {
    if IsQueryVerb(verb) then {"params"} else if verb == "POST" then {"files"} else {}
  }

  /** Once the URL is built, every reserved parameter is deleted from the
      keyword arguments and from the caller's `args`, and nothing else is:
      the request carries the remaining keyword arguments, unchanged, less
      `args`/`arguments` and the keyword its verb consumes. */
  lemma ReservedParamsDeleted(h: Handler, a: Action, kwargs: map<string, Value>)
    requires Prepare(h, a, kwargs).outcome.Ok?
    ensures var r := Prepare(h, a, kwargs).outcome.value;
      && r.kwargs.Keys == kwargs.Keys - ConventionKeys - AsSet(h.params) - Consumed(a.verb)
      && (forall k | k in r.kwargs :: r.kwargs[k] == kwargs[k])
      && Prepare(h, a, kwargs).argsAfter == Dict(CallArgs(kwargs).entries - AsSet(h.params))
  {
  }

  /** GET and DELETE: the query is the explicit `params` keyword, or else
      the remaining `args`; with an op tag it is `{"op": tag}` updated with
      that mapping, so a caller's own "op" key replaces the tag. No mapping
      is converted into a multipart body: a caller's `files` keyword is
      passed on unchanged. */
  lemma QueryVerbRouting(h: Handler, a: Action, kwargs: map<string, Value>)
    requires IsQueryVerb(a.verb)
    requires Prepare(h, a, kwargs).outcome.Ok?
    ensures var r := Prepare(h, a, kwargs).outcome.value;
      var plain := kwargs - ConventionKeys - AsSet(h.params);
      var given := if "params" in plain then plain["params"] else Prepare(h, a, kwargs).argsAfter;
      && r.files.None?
      && (a.op.None? ==> r.query == given)
      && (a.op.Some? ==> given.Dict? && r.query == Dict(map["op" := Str(a.op.value)] + given.entries))
      && (a.op.Some? ==> r.query.entries["op"] == if "op" in given.entries then given.entries["op"] else Str(a.op.value))
      && ("files" in plain ==> "files" in r.kwargs && r.kwargs["files"] == plain["files"])
  {
  }

  /** GET and DELETE with an op tag raise when the mapping to merge is not
      a dictionary. */
  lemma QueryVerbRejectsNonMapping(h: Handler, a: Action, kwargs: map<string, Value>)
    requires IsQueryVerb(a.verb) && a.op.Some?
    requires CallArgs(kwargs).Dict? && PlaceholderNames(h.uri) <= (kwargs - ConventionKeys).Keys + CallArgs(kwargs).entries.Keys
    requires "params" in kwargs && "params" !in ConventionKeys + AsSet(h.params) && !kwargs["params"].Dict?
    ensures Prepare(h, a, kwargs).outcome == Err(ParamsNotMapping)
  {
  }

  /** POST: the multipart fields are `convert_files_arg` of the explicit
      `files` keyword, or else of the remaining `args`; the query is only the
      op tag. */
  lemma PostRouting(h: Handler, a: Action, kwargs: map<string, Value>)
    requires a.verb == "POST"
    requires Prepare(h, a, kwargs).outcome.Ok?
    ensures var r := Prepare(h, a, kwargs).outcome.value;
      var plain := kwargs - ConventionKeys - AsSet(h.params);
      var files := if "files" in plain then plain["files"] else Prepare(h, a, kwargs).argsAfter;
      && files.Dict?
      && r.files == Some(FormFields(files.entries))
      && r.query == OpQuery(a.op)
  {
  }

  /** Any other verb (PUT): neither query routing nor a converted multipart
      body, so a caller's `files` keyword is passed on unchanged among the
      others; the remaining `args` are not sent at all. */
  lemma OtherVerbRouting(h: Handler, a: Action, kwargs: map<string, Value>)
    requires !IsQueryVerb(a.verb) && a.verb != "POST"
    requires Prepare(h, a, kwargs).outcome.Ok?
    ensures var r := Prepare(h, a, kwargs).outcome.value;
      && r.query == OpQuery(a.op)
      && r.files.None?
      && r.kwargs == kwargs - ConventionKeys - AsSet(h.params)
      && ("files" in r.kwargs <==> "files" in kwargs && "files" !in AsSet(h.params))
  {
  }

  /** Outside GET and DELETE, a `params` keyword that survives the reserved
      parameters clashes with the `params=` the call passes itself, once the
      URL is built (and, for POST, once the files mapping is converted). */
  lemma ParamsKeywordClashes(h: Handler, a: Action, kwargs: map<string, Value>)
    requires !IsQueryVerb(a.verb)
    requires CallArgs(kwargs).Dict?
    requires PlaceholderNames(h.uri) <= (kwargs - ConventionKeys).Keys + CallArgs(kwargs).entries.Keys
    requires "params" in kwargs && "params" !in AsSet(h.params)
    requires a.verb == "POST" ==>
      var plain := kwargs - ConventionKeys - AsSet(h.params);
      (if "files" in plain then plain["files"] else Dict(CallArgs(kwargs).entries - AsSet(h.params))).Dict?
    ensures Prepare(h, a, kwargs).outcome == Err(DuplicateParams)
  {
    var values := (kwargs - ConventionKeys) + CallArgs(kwargs).entries;
    assert Format(h.uri, values).Ok?;
  }

  /** A `method` or `url` keyword that survives the reserved parameters
      collides with the verb and URL the call passes positionally, once
      every earlier step has succeeded. */
  lemma PositionalKeywordClashes(h: Handler, a: Action, kwargs: map<string, Value>)
    requires CallArgs(kwargs).Dict?
    requires PlaceholderNames(h.uri) <= (kwargs - ConventionKeys).Keys + CallArgs(kwargs).entries.Keys
    requires var plain := kwargs - ConventionKeys - AsSet(h.params);
      && ("method" in plain || "url" in plain)
      && (!IsQueryVerb(a.verb) ==> "params" !in plain)
      && (IsQueryVerb(a.verb) && a.op.Some? ==>
            (if "params" in plain then plain["params"] else Dict(CallArgs(kwargs).entries - AsSet(h.params))).Dict?)
      && (a.verb == "POST" ==>
            (if "files" in plain then plain["files"] else Dict(CallArgs(kwargs).entries - AsSet(h.params))).Dict?)
    ensures Prepare(h, a, kwargs).outcome == Err(PositionalClash)
  {
    var values := (kwargs - ConventionKeys) + CallArgs(kwargs).entries;
    assert Format(h.uri, values).Ok?;
  }

  /** Any other keyword that survives the reserved parameters and is not one
      of the options `Session.request` takes is rejected before the request
      is made, once every earlier step has succeeded. */
  lemma UnknownKeywordRejected(h: Handler, a: Action, kwargs: map<string, Value>, name: string)
    requires CallArgs(kwargs).Dict?
    requires PlaceholderNames(h.uri) <= (kwargs - ConventionKeys).Keys + CallArgs(kwargs).entries.Keys
    requires name !in RequestOptions && name != "params"
    requires var plain := kwargs - ConventionKeys - AsSet(h.params);
      && name in plain
      && "method" !in plain && "url" !in plain
      && (!IsQueryVerb(a.verb) ==> "params" !in plain)
      && (IsQueryVerb(a.verb) && a.op.Some? ==>
            (if "params" in plain then plain["params"] else Dict(CallArgs(kwargs).entries - AsSet(h.params))).Dict?)
      && (a.verb == "POST" ==>
            (if "files" in plain then plain["files"] else Dict(CallArgs(kwargs).entries - AsSet(h.params))).Dict?)
    ensures Prepare(h, a, kwargs).outcome == Err(UnexpectedKeyword)
  {
    var values := (kwargs - ConventionKeys) + CallArgs(kwargs).entries;
    assert Format(h.uri, values).Ok?;
  }

  /** A GET whose URI has no `{hostname}` placeholder, called with
      `hostname="x"`: the keyword is neither a URL value nor a reserved
      parameter, so it reaches `Session.request`, which rejects it. */
  lemma UnknownKeywordExample(h: Handler, a: Action, kwargs: map<string, Value>)
    requires h.uri == [Text("/machines/")] && h.params == []
    requires a.verb == "GET" && a.op.None?
    requires kwargs == map["hostname" := Str("x")]
    ensures Prepare(h, a, kwargs).outcome == Err(UnexpectedKeyword)
  {
    UnknownKeywordRejected(h, a, kwargs, "hostname");
  }

  /** Once the request is made, the reply is read from the response: the
      decoded JSON for an ok reply, the status code for an ok DELETE, an
      error carrying the body text otherwise. */
  lemma InvokeDecodesResponse(h: Handler, a: Action, kwargs: map<string, Value>, server: Request -> Response)
    requires Prepare(h, a, kwargs).outcome.Ok?
    ensures var response := server(Prepare(h, a, kwargs).outcome.value);
      Invoke(h, a, kwargs, server) ==
        if !response.ok then Err(HttpError(response.text))
        else if a.verb == "DELETE" then Ok(Status(response.statusCode))
        else Ok(Json(response.json))
  {
  }

  /** A clash between a keyword and `args` over a placeholder: the URL
      carries the value from `args`. */
  lemma ArgsWinExample(h: Handler, a: Action, kwargs: map<string, Value>)
    requires h.uri == [Text("/machines/"), Placeholder("id"), Text("/")] && h.params == ["id"]
    requires a.verb == "GET" && a.op.None?
    requires kwargs == map["id" := Str("A"), "args" := Dict(map["id" := Str("B"), "extra" := Str("C")])]
    ensures Prepare(h, a, kwargs).outcome.Ok?
    ensures Prepare(h, a, kwargs).outcome.value.url == [Literal("/machines/"), Inserted(Str("B")), Literal("/")]
    ensures Prepare(h, a, kwargs).outcome.value.query == Dict(map["extra" := Str("C")])
  {
    var args := map["id" := Str("B"), "extra" := Str("C")];
    assert CallArgs(kwargs) == Dict(args);
    var values := (kwargs - ConventionKeys) + args;
    assert values["id"] == Str("B");
    assert PlaceholderNames(h.uri) <= values.Keys by {
      forall n | n in PlaceholderNames(h.uri)
        ensures n in values
      {
        var k :| 0 <= k < |h.uri| && h.uri[k].Placeholder? && h.uri[k].name == n;
        assert k == 1;
      }
    }
    var url := Format(h.uri, values).value;
    assert url == [Literal("/machines/"), Inserted(Str("B")), Literal("/")] by {
      assert url[0] == Literal("/machines/") && url[1] == Inserted(Str("B")) && url[2] == Literal("/");
    }
    assert AsSet(h.params) == {"id"} by {
      assert h.params[0] == "id";
    }
    assert args - {"id"} == map["extra" := Str("C")];
  }

  /** A GET with op tag "list" and `params={"x": 1}` queries
      `{"op": "list", "x": 1}`. */
  lemma OpQueryExample(h: Handler, a: Action, kwargs: map<string, Value>)
    requires h.uri == [Text("/machines/")] && h.params == []
    requires a.verb == "GET" && a.op == Some("list")
    requires kwargs == map["params" := Dict(map["x" := Int(1)])]
    ensures Prepare(h, a, kwargs).outcome.Ok?
    ensures Prepare(h, a, kwargs).outcome.value.query == Dict(map["op" := Str("list"), "x" := Int(1)])
  {
    assert (kwargs - ConventionKeys) - AsSet(h.params) == kwargs;
  }

  /** A plain value becomes a `(None, str(v))` field and a list passes
      unchanged. */
  lemma FormFieldsExample(m: map<string, Value>)
    requires m == map["name" := Str("bob"), "tags" := List([Str("a"), Str("b")])]
    ensures FormFields(m) == map["name" := NoneAndStr(Str("bob")), "tags" := AsIs(List([Str("a"), Str("b")]))]
  {
  }
}
