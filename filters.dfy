/** The cached-search filter engine: walking a dotted key path through a
    record, choosing the match predicate from a filter expression, and
    AND-ing the per-key selections over the machine cache. */
module Filters {
  import opened Values
  import opened Strings

  /** A filter expression as a caller writes it: a plain value, or a
      callable whose result is read for its truth. */
  datatype FilterExpr = Const(v: Value) | Callable(f: Value -> bool)

  /** The predicate `find_machine_ids` builds for one filter expression. */
  datatype Matcher =
    | Equals(v: Value)
    | HasPrefix(prefix: string)
    | HasSuffix(suffix: string)
    | IsTruthy
    | IsFalsy
    | Custom(f: Value -> bool)

  /** Whether the predicate's result is truthy for the leaf `x`. */
  predicate Accepts(m: Matcher, x: Value) {
    match m
    case Equals(v) => x == v
    case HasPrefix(p) => x.Str? && StartsWith(x.s, p)
    case HasSuffix(s) => x.Str? && EndsWith(x.s, s)
    case IsTruthy => Truthy(x)
    case IsFalsy => !Truthy(x)
    case Custom(f) => f(x)
  }

  predicate IsSuffixGlob(e: FilterExpr) {
    e.Const? && e.v.Str? && StartsWith(e.v.s, "*")
  }

  predicate IsPrefixGlob(e: FilterExpr) {
    e.Const? && e.v.Str? && !StartsWith(e.v.s, "*") && EndsWith(e.v.s, "*")
  }

  /** The predicate for a filter expression: a callable as it is, `"*s"`
      a suffix test, `"p*"` a prefix test, a boolean a truth test, and
      anything else an equality test. */
  function ChoosePredicate(e: FilterExpr): Matcher {
    match e
    case Callable(f) => Custom(f)
    case Const(v) =>
      if IsSuffixGlob(e) then HasSuffix(LStrip(v.s, '*'))
      else if IsPrefixGlob(e) then HasPrefix(RStrip(v.s, '*'))
      else if v.Bool? then (if v.b then IsTruthy else IsFalsy)
      else Equals(v)
  }

  /** A leading-star pattern accepts exactly the strings that end with the
      pattern less its stars, whatever comes before. */
  lemma SuffixGlobAccepts(pattern: string, x: Value)
    requires StartsWith(pattern, "*")
    ensures Accepts(ChoosePredicate(Const(Str(pattern))), x) <==>
      x.Str? && exists u: string :: x.s == u + LStrip(pattern, '*')
  {
    var t := LStrip(pattern, '*');
    if x.Str? && EndsWith(x.s, t) {
      var u := x.s[..|x.s| - |t|];
      assert x.s == u + t;
    }
  }

  /** A trailing-star pattern (without a leading one) accepts exactly the
      strings that start with the pattern less its trailing stars. */
  lemma PrefixGlobAccepts(pattern: string, x: Value)
    requires !StartsWith(pattern, "*") && EndsWith(pattern, "*")
    ensures Accepts(ChoosePredicate(Const(Str(pattern))), x) <==>
      x.Str? && exists u: string :: x.s == RStrip(pattern, '*') + u
  {
    var t := RStrip(pattern, '*');
    assert ChoosePredicate(Const(Str(pattern))) == HasPrefix(t) by {
      assert !IsSuffixGlob(Const(Str(pattern)));
      assert IsPrefixGlob(Const(Str(pattern)));
    }
    if x.Str? {
      if StartsWith(x.s, t) {
        var u := x.s[|t|..];
        assert x.s == t + u;
      }
      if exists u: string :: x.s == t + u {
        var u: string :| x.s == t + u;
        assert x.s[..|t|] == t;
        assert StartsWith(x.s, t);
        assert x.s == RStrip(pattern, '*') + u;
      }
    }
  }

  /** A string without an edge star, and any value that is neither a string
      nor a boolean, is compared for equality; `True` and `False` test the
      truth of the leaf. */
  lemma PlainValueAccepts(v: Value, x: Value)
    ensures !v.Bool? && !(v.Str? && (StartsWith(v.s, "*") || EndsWith(v.s, "*"))) ==>
      (Accepts(ChoosePredicate(Const(v)), x) <==> x == v)
    ensures v.Bool? ==> (Accepts(ChoosePredicate(Const(v)), x) <==> Truthy(x) == v.b)
  {
  }

  // ---------------------------------------------------------------------
  // The predicate choice as the source writes it

  /** Raised when the suffix-glob lambda reads its default `p` before any
      prefix filter of the same search has bound it. */
  datatype FilterError = UnboundPrefix

  /** One step of the predicate choice as written: the suffix branch builds
      its lambda with the default `p=p`, which needs a `p` bound by an
      earlier prefix filter; the prefix branch binds `p`. The lambda's body
      tests the suffix, so once built it behaves as intended. */
  function ChooseAsWritten(e: FilterExpr, p: Option<string>): Result<(Matcher, Option<string>), FilterError> {
    if IsSuffixGlob(e) then
      if p.None? then Err(UnboundPrefix) else Ok((HasSuffix(LStrip(e.v.s, '*')), p))
    else if IsPrefixGlob(e) then Ok((HasPrefix(RStrip(e.v.s, '*')), Some(RStrip(e.v.s, '*'))))
    else Ok((ChoosePredicate(e), p))
  }

  /** The predicates built for a whole filter spec, in its order, as the
      source writes the loop; `p` is what an earlier filter left bound. */
  function MatchersAsWritten(spec: seq<(string, FilterExpr)>, p: Option<string>): Result<seq<Matcher>, FilterError>
    decreases |spec|
  {
    if spec == [] then Ok([])
    else
      match ChooseAsWritten(spec[0].1, p)
      case Err(e) => Err(e)
      case Ok((m, p')) =>
        match MatchersAsWritten(spec[1..], p')
        case Err(e) => Err(e)
        case Ok(ms) => Ok([m] + ms)
  }

  /** Every suffix filter comes after some prefix filter (or `p` is bound). */
  predicate SuffixesBound(spec: seq<(string, FilterExpr)>, p: Option<string>) {
    forall i | 0 <= i < |spec| && IsSuffixGlob(spec[i].1) ::
      p.Some? || exists j | 0 <= j < i :: IsPrefixGlob(spec[j].1)
  }

  /** As written, building the predicates succeeds exactly when every
      suffix filter follows a prefix filter, and then yields the intended
      predicates. */
  lemma {:induction false} MatchersAsWrittenAgree(spec: seq<(string, FilterExpr)>, p: Option<string>)
    ensures MatchersAsWritten(spec, p).Ok? <==> SuffixesBound(spec, p)
    ensures MatchersAsWritten(spec, p).Ok? ==>
      MatchersAsWritten(spec, p).value == seq(|spec|, i requires 0 <= i < |spec| => ChoosePredicate(spec[i].1))
    decreases |spec|
  {
    if spec != [] {
      var e := spec[0].1;
      var rest := spec[1..];
      if IsSuffixGlob(e) && p.None? {
        assert !SuffixesBound(spec, p) by {
          assert IsSuffixGlob(spec[0].1);
        }
      } else {
        var p' := ChooseAsWritten(e, p).value.1;
        assert ChooseAsWritten(e, p).value.0 == ChoosePredicate(e);
        MatchersAsWrittenAgree(rest, p');
        SuffixesBoundCons(spec, p);
        var intended := seq(|spec|, i requires 0 <= i < |spec| => ChoosePredicate(spec[i].1));
        assert intended == [ChoosePredicate(e)] + seq(|rest|, i requires 0 <= i < |rest| => ChoosePredicate(rest[i].1));
      }
    }
  }

  /** Past a filter that does not raise, the remaining suffix filters are
      bound exactly when they were bound in the whole spec. */
  lemma SuffixesBoundCons(spec: seq<(string, FilterExpr)>, p: Option<string>)
    requires spec != [] && !(IsSuffixGlob(spec[0].1) && p.None?)
    ensures SuffixesBound(spec, p) <==> SuffixesBound(spec[1..], ChooseAsWritten(spec[0].1, p).value.1)
  {
    var rest := spec[1..];
    var p' := ChooseAsWritten(spec[0].1, p).value.1;
    if SuffixesBound(spec, p) {
      forall i | 0 <= i < |rest| && IsSuffixGlob(rest[i].1)
        ensures p'.Some? || exists j | 0 <= j < i :: IsPrefixGlob(rest[j].1)
      {
        assert IsSuffixGlob(spec[i + 1].1);
        if p'.None? {
          var j :| 0 <= j < i + 1 && IsPrefixGlob(spec[j].1);
          assert j != 0;
          assert IsPrefixGlob(rest[j - 1].1);
        }
      }
    }
    if SuffixesBound(rest, p') {
      forall i | 0 <= i < |spec| && IsSuffixGlob(spec[i].1)
        ensures p.Some? || exists j | 0 <= j < i :: IsPrefixGlob(spec[j].1)
      {
        if i > 0 && p.None? {
          assert IsSuffixGlob(rest[i - 1].1);
          if p'.Some? {
            assert IsPrefixGlob(spec[0].1);
          } else {
            var j :| 0 <= j < i - 1 && IsPrefixGlob(rest[j].1);
            assert IsPrefixGlob(spec[j + 1].1);
          }
        }
      }
    }
  }

  /** A search whose only filter is a suffix glob raises as written, while
      the intended predicate is the suffix test. */
  lemma SuffixGlobAloneRaises(key: string, pattern: string)
    requires StartsWith(pattern, "*")
    ensures MatchersAsWritten([(key, Const(Str(pattern)))], None) == Err(UnboundPrefix)
    ensures ChoosePredicate(Const(Str(pattern))) == HasSuffix(LStrip(pattern, '*'))
  {
  }

  // ---------------------------------------------------------------------
  // Key traversal

  /** `_simple_key_iter`: nothing for a non-dictionary; otherwise the value
      under `key` (None when absent), or its elements when it is a list or
      tuple. */
  function SimpleKeyIter(d: Value, key: string): (r: seq<Value>)
    ensures !d.Dict? ==> r == []
    ensures d.Dict? && !IsSequence(Get(d.entries, key)) ==> r == [Get(d.entries, key)]
    ensures d.Dict? && IsSequence(Get(d.entries, key)) ==> r == Elements(Get(d.entries, key))
  {
    if !d.Dict? then []
    else
      var obj := Get(d.entries, key);
      if IsSequence(obj) then Elements(obj) else [obj]
  }

  /** `_key_spec_iter`: the leaves reached from `d` along `attrs`, in order.
      A falsy intermediate value is not descended into; a leaf is yielded
      whatever its truth. */
  function KeySpecIter(d: Value, attrs: seq<string>): seq<Value>
    decreases |attrs|, 0, 0
  {
    if attrs == [] then []
    else
      var cars := SimpleKeyIter(d, attrs[0]);
      if |attrs| == 1 then cars else Expand(cars, attrs[1..])
  }

  /** The leaves reached from each truthy candidate in turn. */
  function Expand(cars: seq<Value>, rest: seq<string>): seq<Value>
    decreases |rest|, 1, |cars|
  {
    if cars == [] then []
    else
      (if Truthy(cars[0]) then KeySpecIter(cars[0], rest) else []) + Expand(cars[1..], rest)
  }

  lemma {:induction false} ExpandMembership(cars: seq<Value>, rest: seq<string>, v: Value)
    ensures v in Expand(cars, rest) <==> exists c | c in cars :: Truthy(c) && v in KeySpecIter(c, rest)
    decreases |cars|
  {
    if cars != [] {
      ExpandMembership(cars[1..], rest, v);
      assert forall c | c in cars :: c == cars[0] || c in cars[1..];
    }
  }

  /** Expanding a concatenation expands each part in turn, so the leaves
      keep the order of the candidates they come from. */
  lemma {:induction false} ExpandAppend(a: seq<Value>, b: seq<Value>, rest: seq<string>)
    ensures Expand(a + b, rest) == Expand(a, rest) + Expand(b, rest)
    decreases |a|
  {
    if a == [] {
      assert a + b == b;
    } else {
      assert (a + b)[0] == a[0];
      assert (a + b)[1..] == a[1..] + b;
      ExpandAppend(a[1..], b, rest);
    }
  }

  /** The first leaf comes from the first truthy candidate that yields any
      leaf: candidates before it contribute nothing. */
  lemma {:induction false} ExpandFirstLeaf(cars: seq<Value>, rest: seq<string>, j: nat)
    requires j < |cars| && Truthy(cars[j]) && KeySpecIter(cars[j], rest) != []
    requires forall i | 0 <= i < j :: !Truthy(cars[i]) || KeySpecIter(cars[i], rest) == []
    ensures Expand(cars, rest) != []
    ensures Expand(cars, rest)[0] == KeySpecIter(cars[j], rest)[0]
    decreases j
  {
    if j > 0 {
      assert forall i | 0 <= i < j - 1 :: cars[1..][i] == cars[i + 1];
      ExpandFirstLeaf(cars[1..], rest, j - 1);
    }
  }

  /** On a longer path, `_make_key_filter` sees the first leaf below the
      first truthy candidate under the first key that yields any. */
  lemma KeyFilterFirstCandidate(attrs: seq<string>, m: Matcher, d: Value, j: nat)
    requires |attrs| > 1
    requires var cars := SimpleKeyIter(d, attrs[0]);
      && j < |cars| && Truthy(cars[j]) && KeySpecIter(cars[j], attrs[1..]) != []
      && forall i | 0 <= i < j :: !Truthy(cars[i]) || KeySpecIter(cars[i], attrs[1..]) == []
    ensures KeyFilter(attrs, m, d) == Some(Accepts(m, KeySpecIter(SimpleKeyIter(d, attrs[0])[j], attrs[1..])[0]))
  {
    ExpandFirstLeaf(SimpleKeyIter(d, attrs[0]), attrs[1..], j);
  }

  /** A one-key path yields what the dictionary holds under the key; a
      longer path yields exactly the leaves reached from some truthy
      candidate under its first key. */
  lemma KeySpecIterLeaves(d: Value, attrs: seq<string>, v: Value)
    requires attrs != []
    ensures |attrs| == 1 ==> KeySpecIter(d, attrs) == SimpleKeyIter(d, attrs[0])
    ensures |attrs| > 1 ==> (v in KeySpecIter(d, attrs) <==>
      exists c | c in SimpleKeyIter(d, attrs[0]) :: Truthy(c) && v in KeySpecIter(c, attrs[1..]))
  {
    if |attrs| > 1 {
      ExpandMembership(SimpleKeyIter(d, attrs[0]), attrs[1..], v);
    }
  }

  /** A non-dictionary yields nothing; a dictionary missing the first key
      yields None for a one-key path and nothing for a longer one. */
  lemma KeySpecIterMissing(d: Value, attrs: seq<string>)
    requires attrs != []
    ensures !d.Dict? ==> KeySpecIter(d, attrs) == []
    ensures d.Dict? && attrs[0] !in d.entries ==>
      KeySpecIter(d, attrs) == if |attrs| == 1 then [Null] else []
  {
    if d.Dict? && attrs[0] !in d.entries && |attrs| > 1 {
      assert SimpleKeyIter(d, attrs[0]) == [Null];
      assert Expand([Null], attrs[1..]) == [] + Expand([], attrs[1..]);
    }
  }

  /** A list value on the path is expanded into its elements, in order. */
  lemma KeySpecIterList(key: string, items: seq<Value>, rest: seq<string>)
    ensures KeySpecIter(Dict(map[key := List(items)]), [key]) == items
    ensures rest != [] ==> KeySpecIter(Dict(map[key := List(items)]), [key] + rest) == Expand(items, rest)
  {
    assert ([key] + rest)[1..] == rest;
  }

  /** `_make_key_filter(...)(d)`: the predicate applied to the first leaf,
      or None when the path yields no leaf. Later leaves are never looked
      at: a record whose first leaf is rejected is rejected, whatever
      follows. */
  function KeyFilter(attrs: seq<string>, m: Matcher, d: Value): (r: Option<bool>)
    ensures r.None? <==> KeySpecIter(d, attrs) == []
    ensures r == Some(true) ==> exists v | v in KeySpecIter(d, attrs) :: Accepts(m, v)
    ensures r == Some(true) <==> KeySpecIter(d, attrs) != [] && Accepts(m, KeySpecIter(d, attrs)[0])
    ensures r == Some(false) <==> KeySpecIter(d, attrs) != [] && !Accepts(m, KeySpecIter(d, attrs)[0])
  {
    var leaves := KeySpecIter(d, attrs);
    if leaves == [] then None else Some(Accepts(m, leaves[0]))
  }

  /** The record is taken for the filter `key: e`. */
  predicate Selected(key: string, e: FilterExpr, record: Value) {
    KeyFilter(Split(key, '.'), ChoosePredicate(e), record) == Some(true)
  }

  /** Only the first leaf counts: a record whose first tag is named "x"
      is taken for the name "x" and not for the name "y", though a later
      tag is named "y". */
  lemma FirstLeafDecides(attrs: seq<string>, record: Value)
    requires attrs == ["tags", "name"]
    requires record == Dict(map["tags" := List([Dict(map["name" := Str("x")]), Dict(map["name" := Str("y")])])])
    ensures Str("y") in KeySpecIter(record, attrs)
    ensures KeyFilter(attrs, Equals(Str("x")), record) == Some(true)
    ensures KeyFilter(attrs, Equals(Str("y")), record) == Some(false)
  {
    var t1 := Dict(map["name" := Str("x")]);
    var t2 := Dict(map["name" := Str("y")]);
    assert SimpleKeyIter(record, "tags") == [t1, t2];
    assert KeySpecIter(t1, ["name"]) == [Str("x")];
    assert KeySpecIter(t2, ["name"]) == [Str("y")];
    assert Expand([t2], ["name"]) == [Str("y")];
    assert Expand([t1, t2], ["name"]) == [Str("x"), Str("y")];
  }

  /** The dotted key `"tags.name"` is the path `["tags", "name"]`. */
  lemma DottedKeyPath()
    ensures Split("tags.name", '.') == ["tags", "name"]
  {
    assert Join(["tags", "name"], ".") == "tags.name";
    SplitJoin(["tags", "name"], '.');
  }

  // ---------------------------------------------------------------------
  // AND composition over the cache

  /** The ids taken for one filter. */
  function FoundFor(cache: map<Value, Value>, filter: (string, FilterExpr)): set<Value> {
    set id | id in cache && Selected(filter.0, filter.1, cache[id])
  }

  /** The ids a search returns: every cached id for an empty spec,
      otherwise the ids taken by every filter. */
  function MatchIds(cache: map<Value, Value>, spec: seq<(string, FilterExpr)>): set<Value> {
    if spec == [] then cache.Keys
    else set id | id in cache && forall i | 0 <= i < |spec| :: Selected(spec[i].0, spec[i].1, cache[id])
  }

  /** The result is a subset of the cached ids, and an id is in it exactly
      when every filter takes its record. */
  lemma MatchIdsMeaning(cache: map<Value, Value>, spec: seq<(string, FilterExpr)>, id: Value)
    ensures MatchIds(cache, spec) <= cache.Keys
    ensures id in MatchIds(cache, spec) <==>
      id in cache && forall i | 0 <= i < |spec| :: id in FoundFor(cache, spec[i])
  {
  }

  /** Splitting a spec in two intersects the two results. */
  lemma MatchIdsConjoin(cache: map<Value, Value>, s1: seq<(string, FilterExpr)>, s2: seq<(string, FilterExpr)>)
    ensures MatchIds(cache, s1 + s2) == MatchIds(cache, s1) * MatchIds(cache, s2)
  {
    if s1 == [] {
      assert s1 + s2 == s2;
      MatchIdsMeaning(cache, s2, Null);
      return;
    }
    if s2 == [] {
      assert s1 + s2 == s1;
      MatchIdsMeaning(cache, s1, Null);
      return;
    }
    forall id | id in cache
      ensures (forall i | 0 <= i < |s1 + s2| :: Selected((s1 + s2)[i].0, (s1 + s2)[i].1, cache[id])) <==>
        (forall i | 0 <= i < |s1| :: Selected(s1[i].0, s1[i].1, cache[id])) &&
        (forall i | 0 <= i < |s2| :: Selected(s2[i].0, s2[i].1, cache[id]))
    {
      assert forall i | 0 <= i < |s1| :: (s1 + s2)[i] == s1[i];
      assert forall i | 0 <= i < |s2| :: (s1 + s2)[|s1| + i] == s2[i];
    }
  }

  /** The ids whose records the key filter takes, found by checking every
      cached record in turn. */
  method FilterCache(cache: map<Value, Value>, attrs: seq<string>, accept: Matcher) returns (found: set<Value>)
    ensures found == set id | id in cache && KeyFilter(attrs, accept, cache[id]) == Some(true)
  {
    found := {};
    var todo := cache.Keys;
    while todo != {}
      invariant todo <= cache.Keys
      invariant forall id :: id in found <==> id in cache && id !in todo && KeyFilter(attrs, accept, cache[id]) == Some(true)
      decreases |todo|
    {
      var id :| id in todo;
      if KeyFilter(attrs, accept, cache[id]) == Some(true) {
        found := found + {id};
      }
      todo := todo - {id};
    }
  }

  /** The set of ids one filter takes is what the key filter loop finds
      for its dotted key and chosen predicate. */
  lemma FoundForIsKeyFilter(cache: map<Value, Value>, filter: (string, FilterExpr))
    ensures FoundFor(cache, filter) ==
      set id | id in cache && KeyFilter(Split(filter.0, '.'), ChoosePredicate(filter.1), cache[id]) == Some(true)
  {
  }

  /** The first loop of `find_machine_ids`: one set of ids per filter. */
  method FoundForEach(cache: map<Value, Value>, spec: seq<(string, FilterExpr)>) returns (results: seq<set<Value>>)
    ensures |results| == |spec|
    ensures forall j | 0 <= j < |spec| :: results[j] == FoundFor(cache, spec[j])
  {
    results := [];
    for i := 0 to |spec|
      invariant |results| == i
      invariant forall j | 0 <= j < i :: results[j] == FoundFor(cache, spec[j])
    {
      var (key, expr) := spec[i];
      var found := FilterCache(cache, Split(key, '.'), ChoosePredicate(expr));
      FoundForIsKeyFilter(cache, spec[i]);
      results := results + [found];
    }
  }

  /** The intersection folded from the first set. */
  method IntersectAll(results: seq<set<Value>>) returns (ids: set<Value>)
    requires results != []
    ensures forall id :: id in ids <==> forall j | 0 <= j < |results| :: id in results[j]
  {
    ids := results[0];
    for i := 0 to |results|
      invariant forall id :: id in ids <==> id in results[0] && forall j | 0 <= j < i :: id in results[j]
    {
      ids := ids * results[i];
    }
  }

  /** The filter loop of `find_machine_ids`: one set of ids per filter,
      then their intersection; every cached id for an empty spec. */
  method CollectMatches(cache: map<Value, Value>, spec: seq<(string, FilterExpr)>) returns (ids: set<Value>)
    ensures ids == MatchIds(cache, spec)
  {
    if spec == [] {
      return cache.Keys;
    }
    var results := FoundForEach(cache, spec);
    ids := IntersectAll(results);
    forall id
      ensures id in ids <==> id in MatchIds(cache, spec)
    {
      MatchIdsMeaning(cache, spec, id);
      assert (forall j | 0 <= j < |results| :: id in results[j]) <==>
        (forall j | 0 <= j < |spec| :: id in FoundFor(cache, spec[j]));
      if id in ids {
        assert id in results[0] && results[0] <= cache.Keys;
      }
    }
  }
}
