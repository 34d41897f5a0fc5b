/** The MAAS client object: its handler table, built from the description
    document, and its machine cache, refreshed from the server and searched
    with filter specs. */
module MaasClient {
  import opened Values
  import opened Naming
  import opened Tables
  import opened Actions
  import opened Filters

  /** One entry of the description document's resource list; `auth` is
      None where the document's `auth` part is empty. */
  datatype ResourceDesc = ResourceDesc(name: string, auth: Option<AuthDesc>)

  /** The handler the client binds for each resource with an `auth` part,
      under the normalised resource name, in document order. */
  function HandlerEntries(resources: seq<ResourceDesc>): (es: seq<(string, Handler)>)
    ensures |es| <= |resources|
    ensures forall k | 0 <= k < |es| :: es[k].0 == es[k].1.name && IsCommandName(es[k].0)
  {
    if resources == [] then []
    else
      var r := resources[0];
      var rest := HandlerEntries(resources[1..]);
      if r.auth.None? then rest else [Entry(r)] + rest
  }

  /** The handler a resource with an `auth` part yields, under its
      normalised name. */
  function Entry(r: ResourceDesc): (string, Handler)
    requires r.auth.Some?
  {
    var name := HandlerCommandName(r.name);
    var a := r.auth.value;
    (name, Handler(name, a.uri, a.params, a.path, a.doc, ActionTable(a.actions)))
  }

  /** The handlers a description yields; a later resource whose name
      normalises to the same command name replaces an earlier one. */
  function HandlerTable(resources: seq<ResourceDesc>): map<string, Handler> {
    Overwrite(map[], HandlerEntries(resources))
  }

  /** The resource has an `auth` part and its name normalises to `name`. */
  predicate Yields(r: ResourceDesc, name: string) {
    r.auth.Some? && HandlerCommandName(r.name) == name
  }

  /** Some resource yields a handler under `name`. */
  predicate Declares(resources: seq<ResourceDesc>, name: string) {
    exists i | 0 <= i < |resources| :: Yields(resources[i], name)
  }

  lemma DeclaresCons(r: ResourceDesc, rest: seq<ResourceDesc>, name: string)
    ensures Declares([r] + rest, name) <==> Yields(r, name) || Declares(rest, name)
  {
    var all := [r] + rest;
    if Yields(r, name) {
      assert all[0] == r;
    }
    if Declares(rest, name) {
      var i :| 0 <= i < |rest| && Yields(rest[i], name);
      assert all[i + 1] == rest[i];
    }
    if Declares(all, name) {
      var i :| 0 <= i < |all| && Yields(all[i], name);
      if i > 0 {
        assert all[i] == rest[i - 1];
      }
    }
  }

  /** A resource yields a handler entry exactly when its `auth` is present,
      under its normalised name. */
  lemma {:induction false} HandlerEntriesNames(resources: seq<ResourceDesc>, name: string)
    ensures Mentions(HandlerEntries(resources), name) <==> Declares(resources, name)
    decreases |resources|
  {
    if resources != [] {
      var r, rest := resources[0], resources[1..];
      HandlerEntriesNames(rest, name);
      var tail := HandlerEntries(rest);
      var head := if r.auth.None? then [] else [Entry(r)];
      assert HandlerEntries(resources) == head + tail;
      MentionsAppend(head, tail, name);
      assert Mentions(head, name) <==> Yields(r, name) by {
        if r.auth.Some? {
          assert head[0] == Entry(r);
        }
      }
      DeclaresCons(r, rest, name);
      assert resources == [r] + rest;
    }
  }

  /** The handler table binds exactly the normalised names of the resources
      with an `auth` part, every key is a command name, and each handler is
      bound under its own name. */
  lemma HandlerTableKeys(resources: seq<ResourceDesc>, name: string)
    ensures name in HandlerTable(resources) <==> Declares(resources, name)
    ensures name in HandlerTable(resources) ==> IsCommandName(name) && HandlerTable(resources)[name].name == name
  {
    var es := HandlerEntries(resources);
    OverwriteKeys(map[], es, name);
    HandlerEntriesNames(resources, name);
    if name in HandlerTable(resources) {
      LastForExists(es, name);
      var k :| LastFor(es, k, name);
      OverwriteLast(map[], es, name, k);
    }
  }

  /** `resources[i]` is the last resource that yields a handler under
      `name`. */
  predicate LastYields(resources: seq<ResourceDesc>, i: int, name: string) {
    && 0 <= i < |resources|
    && Yields(resources[i], name)
    && forall j | i < j < |resources| :: !Yields(resources[j], name)
  }

  /** Loading the resources in order over any table leaves under `name` the
      handler of the last resource that yields it. */
  lemma {:induction false} LoadLastResourceWins(base: map<string, Handler>, resources: seq<ResourceDesc>,
                                               name: string, i: int)
    requires LastYields(resources, i, name)
    ensures name in Overwrite(base, HandlerEntries(resources))
    ensures Overwrite(base, HandlerEntries(resources))[name] == Entry(resources[i]).1
    decreases |resources|
  {
    var r, rest := resources[0], resources[1..];
    assert resources == [r] + rest;
    var base' := if r.auth.None? then base else base[Entry(r).0 := Entry(r).1];
    assert Overwrite(base, HandlerEntries(resources)) == Overwrite(base', HandlerEntries(rest)) by {
      if r.auth.Some? {
        OverwriteCons(base, Entry(r), HandlerEntries(rest));
      }
    }
    if i == 0 {
      assert !Declares(rest, name) by {
        forall j | 0 <= j < |rest|
          ensures !Yields(rest[j], name)
        {
          assert rest[j] == resources[j + 1];
        }
      }
      HandlerEntriesNames(rest, name);
      OverwriteKeys(base', HandlerEntries(rest), name);
    } else {
      forall j | i - 1 < j < |rest|
        ensures !Yields(rest[j], name)
      {
        assert rest[j] == resources[j + 1];
      }
      assert rest[i - 1] == resources[i];
      LoadLastResourceWins(base', rest, name, i - 1);
    }
  }

  /** A later resource whose name normalises to the same command name
      replaces an earlier one: the table binds the handler built from the
      `auth` part of the last resource yielding the name. */
  lemma HandlerTableLastWins(resources: seq<ResourceDesc>, name: string, i: int)
    requires LastYields(resources, i, name)
    ensures name in HandlerTable(resources)
    ensures var a := resources[i].auth.value;
      HandlerTable(resources)[name] == Handler(name, a.uri, a.params, a.path, a.doc, ActionTable(a.actions))
  {
    LoadLastResourceWins(map[], resources, name, i);
  }

  /** Why a refresh stopped: a record that is not a mapping (it has no
      `get`), or an id that cannot be a dictionary key. */
  datatype CacheError = NotAMapping(record: Value) | UnhashableId(id: Value)

  /** The cache after a refresh, and the error that stopped it, if any. */
  datatype Reloaded = Reloaded(cache: map<Value, Value>, error: Option<CacheError>)

  /** The record's `system_id` (None for a record that is not a mapping). */
  function IdOf(record: Value): Value {
    if record.Dict? then Get(record.entries, "system_id") else Null
  }

  /** A record the refresh loop gets past without raising. */
  predicate Storable(record: Value) {
    record.Dict? && (Truthy(IdOf(record)) ==> Hashable(IdOf(record)))
  }

  /** The refresh loop of `reload_cache`, record by record: a record with a
      truthy id is stored under it, one without is skipped, and a record the
      loop raises on stops it with what was stored so far. */
  function Reload(cache: map<Value, Value>, records: seq<Value>): Reloaded
    decreases |records|
  {
    if records == [] then Reloaded(cache, None)
    else
      var m := records[0];
      if !m.Dict? then Reloaded(cache, Some(NotAMapping(m)))
      else
        var id := IdOf(m);
        if !Truthy(id) then Reload(cache, records[1..])
        else if !Hashable(id) then Reloaded(cache, Some(UnhashableId(id)))
        else Reload(cache[id := m], records[1..])
  }

  /** The `(id, record)` assignments of the records with a truthy id. */
  function IdEntries(records: seq<Value>): (es: seq<(Value, Value)>)
    ensures |es| <= |records|
  {
    if records == [] then []
    else
      var m := records[0];
      (if Truthy(IdOf(m)) then [(IdOf(m), m)] else []) + IdEntries(records[1..])
  }

  /** Every assignment stores a record under its own truthy `system_id`,
      and only records from the read are stored. */
  lemma {:induction false} IdEntriesKeyed(records: seq<Value>)
    ensures forall k | 0 <= k < |IdEntries(records)| ::
      HasId(IdEntries(records)[k].1, IdEntries(records)[k].0) && IdEntries(records)[k].1 in records
    decreases |records|
  {
    if records != [] {
      var m, rest := records[0], records[1..];
      IdEntriesKeyed(rest);
      var head := if Truthy(IdOf(m)) then [(IdOf(m), m)] else [];
      assert IdEntries(records) == head + IdEntries(rest);
      assert forall v | v in rest :: v in records;
    }
  }

  /** A refresh over storable records raises nothing and is the dictionary
      assignment of every record with a truthy id, in order. */
  lemma {:induction false} ReloadIsOverwrite(cache: map<Value, Value>, records: seq<Value>)
    requires forall i | 0 <= i < |records| :: Storable(records[i])
    ensures Reload(cache, records) == Reloaded(Overwrite(cache, IdEntries(records)), None)
    decreases |records|
  {
    if records != [] {
      var m := records[0];
      assert forall i | 0 <= i < |records[1..]| :: records[1..][i] == records[i + 1];
      if Truthy(IdOf(m)) {
        ReloadIsOverwrite(cache[IdOf(m) := m], records[1..]);
        OverwriteCons(cache, (IdOf(m), m), IdEntries(records[1..]));
      } else {
        ReloadIsOverwrite(cache, records[1..]);
        assert IdEntries(records) == IdEntries(records[1..]);
      }
    }
  }

  /** A refresh that meets a record it raises on keeps what the earlier
      records stored and reports that record. */
  lemma {:induction false} ReloadStopsAt(cache: map<Value, Value>, records: seq<Value>, n: nat)
    requires n < |records| && !Storable(records[n])
    requires forall i | 0 <= i < n :: Storable(records[i])
    ensures Reload(cache, records).cache == Overwrite(cache, IdEntries(records[..n]))
    ensures Reload(cache, records).error ==
      Some(if records[n].Dict? then UnhashableId(IdOf(records[n])) else NotAMapping(records[n]))
    decreases n
  {
    var m := records[0];
    if n > 0 {
      assert Storable(records[0]);
      assert records[..n][1..] == records[1..][..n - 1];
      assert records[1..][n - 1] == records[n];
      if Truthy(IdOf(m)) {
        ReloadStopsAt(cache[IdOf(m) := m], records[1..], n - 1);
        OverwriteCons(cache, (IdOf(m), m), IdEntries(records[1..][..n - 1]));
      } else {
        ReloadStopsAt(cache, records[1..], n - 1);
        assert records[..n] == [m] + records[1..][..n - 1];
        assert IdEntries(records[..n]) == IdEntries(records[..n][1..]);
      }
    }
  }

  /** The record is stored under `id`: its `system_id` is `id`, and truthy. */
  predicate HasId(m: Value, id: Value) {
    Truthy(IdOf(m)) && IdOf(m) == id
  }

  /** Some record is stored under `id`. */
  predicate Carries(records: seq<Value>, id: Value) {
    exists i | 0 <= i < |records| :: HasId(records[i], id)
  }

  lemma {:induction false} IdEntriesKeys(records: seq<Value>, id: Value)
    ensures Mentions(IdEntries(records), id) <==> Carries(records, id)
    decreases |records|
  {
    if records != [] {
      var m, rest := records[0], records[1..];
      IdEntriesKeys(rest, id);
      var tail := IdEntries(rest);
      var head := if Truthy(IdOf(m)) then [(IdOf(m), m)] else [];
      assert IdEntries(records) == head + tail;
      MentionsAppend(head, tail, id);
      assert Mentions(head, id) <==> HasId(m, id) by {
        if Truthy(IdOf(m)) {
          assert head[0].0 == IdOf(m);
        }
      }
      CarriesCons(m, rest, id);
      assert records == [m] + rest;
    }
  }

  lemma CarriesCons(m: Value, rest: seq<Value>, id: Value)
    ensures Carries([m] + rest, id) <==> HasId(m, id) || Carries(rest, id)
  {
    var records := [m] + rest;
    if HasId(m, id) {
      assert records[0] == m;
    }
    if Carries(rest, id) {
      var i :| 0 <= i < |rest| && HasId(rest[i], id);
      assert records[i + 1] == rest[i];
    }
    if Carries(records, id) {
      var i :| 0 <= i < |records| && HasId(records[i], id);
      if i > 0 {
        assert records[i] == rest[i - 1];
      }
    }
  }

  /** The last record stored under an id gives the last assignment to it. */
  lemma {:induction false} IdEntriesLast(records: seq<Value>, i: nat, id: Value)
    requires i < |records| && HasId(records[i], id)
    requires forall j | i < j < |records| :: !HasId(records[j], id)
    ensures exists k | LastFor(IdEntries(records), k, id) :: IdEntries(records)[k].1 == records[i]
    decreases |records|
  {
    var m, rest := records[0], records[1..];
    var es := IdEntries(records);
    var tail := IdEntries(rest);
    var head := if Truthy(IdOf(m)) then [(IdOf(m), m)] else [];
    assert es == head + tail;
    if i == 0 {
      IdEntriesKeys(rest, id);
      assert !Carries(rest, id) by {
        forall j | 0 <= j < |rest|
          ensures !HasId(rest[j], id)
        {
          assert rest[j] == records[j + 1];
        }
      }
      assert forall k | 0 < k < |es| :: es[k] == tail[k - 1];
      assert LastFor(es, 0, id);
    } else {
      assert rest[i - 1] == records[i];
      assert forall j | i - 1 < j < |rest| :: rest[j] == records[j + 1];
      IdEntriesLast(rest, i - 1, id);
      var k :| LastFor(tail, k, id) && tail[k].1 == records[i];
      assert forall k' | 0 <= k' < |tail| :: es[|head| + k'] == tail[k'];
      assert LastFor(es, |head| + k, id);
    }
  }

  /** After a refresh that raises nothing, an id is cached exactly when it
      was cached before or some record is stored under it; the last such
      record is the one cached; every other entry is unchanged. */
  lemma ReloadLastRecordWins(cache: map<Value, Value>, records: seq<Value>, id: Value)
    requires forall i | 0 <= i < |records| :: Storable(records[i])
    ensures Reload(cache, records).error.None?
    ensures id in Reload(cache, records).cache <==> id in cache || Carries(records, id)
    ensures !Carries(records, id) && id in cache ==> Reload(cache, records).cache[id] == cache[id]
    ensures forall i | 0 <= i < |records| && HasId(records[i], id) ::
      (forall j | i < j < |records| :: !HasId(records[j], id)) ==> Reload(cache, records).cache[id] == records[i]
  {
    ReloadIsOverwrite(cache, records);
    var es := IdEntries(records);
    OverwriteKeys(cache, es, id);
    IdEntriesKeys(records, id);
    forall i | 0 <= i < |records| && HasId(records[i], id) && (forall j | i < j < |records| :: !HasId(records[j], id))
      ensures Reload(cache, records).cache[id] == records[i]
    {
      IdEntriesLast(records, i, id);
      var k :| LastFor(es, k, id) && es[k].1 == records[i];
      OverwriteLast(cache, es, id, k);
    }
  }

  class Client {
    /** The handlers bound on the client, by command name. */
    var handlers: map<string, Handler>
    /** The machine cache, from `system_id` to record. */
    var machines: map<Value, Value>

    /** A client over a description already fetched: its handlers are
        loaded and its cache starts empty. */
    constructor(resources: seq<ResourceDesc>)
      ensures handlers == HandlerTable(resources)
      ensures machines == map[]
    {
      handlers := map[];
      machines := map[];
      new;
      LoadResources(resources);
    }

    /** `load_resources`: binds one handler per resource with an `auth`
        part, in document order, over the handlers already bound. */
    method LoadResources(resources: seq<ResourceDesc>)
      modifies this
      ensures handlers == Overwrite(old(handlers), HandlerEntries(resources))
      ensures machines == old(machines)
    {
      var i := 0;
      while i < |resources|
        invariant 0 <= i <= |resources|
        invariant machines == old(machines)
        invariant Overwrite(old(handlers), HandlerEntries(resources)) == Overwrite(handlers, HandlerEntries(resources[i..]))
        decreases |resources| - i
      {
        var r := resources[i];
        assert resources[i..][1..] == resources[i + 1..];
        if r.auth.Some? {
          var name := HandlerCommandName(r.name);
          var handler := NewHandler(name, r.auth.value);
          OverwriteCons(handlers, (name, handler), HandlerEntries(resources[i + 1..]));
          handlers := handlers[name := handler];
        }
        i := i + 1;
      }
    }

    /** `reload_cache`: with `reset` the cache is emptied first; then each
        record the server read returned is stored under its truthy
        `system_id`. A record the loop raises on stops it, and what was
        stored before stays stored. */
    method ReloadCache(reset: bool, records: seq<Value>) returns (error: Option<CacheError>)
      modifies this
      ensures var r := Reload(if reset then map[] else old(machines), records);
        machines == r.cache && error == r.error
      ensures handlers == old(handlers)
    {
      if reset {
        machines := map[];
      }
      ghost var start := machines;
      var i := 0;
      while i < |records|
        invariant 0 <= i <= |records|
        invariant handlers == old(handlers)
        invariant Reload(start, records) == Reload(machines, records[i..])
        decreases |records| - i
      {
        var m := records[i];
        assert records[i..][1..] == records[i + 1..];
        if !m.Dict? {
          return Some(NotAMapping(m));
        }
        var id := Get(m.entries, "system_id");
        if Truthy(id) {
          if !Hashable(id) {
            return Some(UnhashableId(id));
          }
          machines := machines[id := m];
        }
        i := i + 1;
      }
      return None;
    }

    /** `find_machine_ids`: optionally refreshes the cache with every
        machine first, then returns the ids the spec selects; a refresh that
        raises ends the search with its error. */
    method FindMachineIds(spec: seq<(string, FilterExpr)>, update: bool, records: seq<Value>)
      returns (result: Result<set<Value>, CacheError>)
      modifies this
      ensures var r := if update then Reload(old(machines), records) else Reloaded(old(machines), None);
        && machines == r.cache
        && result == if r.error.Some? then Err(r.error.value) else Ok(MatchIds(machines, spec))
      ensures handlers == old(handlers)
    {
      if update {
        var error := ReloadCache(false, records);
        if error.Some? {
          return Err(error.value);
        }
      }
      var ids := CollectMatches(machines, spec);
      return Ok(ids);
    }

    /** `find_machines`: the cached record of every id the search returns,
        in the order the ids are visited (`order`). */
    method FindMachines(spec: seq<(string, FilterExpr)>, update: bool, records: seq<Value>)
      returns (result: Result<seq<Value>, CacheError>, order: seq<Value>)
      modifies this
      ensures var r := if update then Reload(old(machines), records) else Reloaded(old(machines), None);
        && machines == r.cache
        && (r.error.Some? ==> result == Err(r.error.value))
        && (r.error.None? ==>
              && result.Ok? && |result.value| == |order|
              && (forall id :: id in order <==> id in MatchIds(machines, spec))
              && (forall i, j | 0 <= i < j < |order| :: order[i] != order[j])
              && (forall i | 0 <= i < |order| :: order[i] in machines && result.value[i] == machines[order[i]]))
      ensures handlers == old(handlers)
    {
      var found := FindMachineIds(spec, update, records);
      order := [];
      if found.Err? {
        return Err(found.error), order;
      }
      var ids := found.value;
      forall id | id in ids
        ensures id in machines
      {
        MatchIdsMeaning(machines, spec, id);
      }
      var out: seq<Value> := [];
      var todo := ids;
      while todo != {}
        invariant todo <= ids
        invariant |out| == |order|
        invariant forall id :: id in order <==> id in ids && id !in todo
        invariant forall i, j | 0 <= i < j < |order| :: order[i] != order[j]
        invariant forall i | 0 <= i < |order| :: order[i] in machines && out[i] == machines[order[i]]
        decreases |todo|
      {
        var id :| id in todo;
        out := out + [machines[id]];
        order := order + [id];
        todo := todo - {id};
      }
      return Ok(out), order;
    }
  }
}
