/** Dictionaries filled entry by entry, where a later entry for a key
    replaces an earlier one (Python's `d[k] = v` in a loop, and `setattr`
    on a name already set). */
module Tables {

  /** `base` after `base[k] = v` for each `(k, v)` of `entries`, in order. */
  function Overwrite<K(==), V>(base: map<K, V>, entries: seq<(K, V)>): map<K, V> {
    if entries == [] then base
    else
      var last := entries[|entries| - 1];
      Overwrite(base, entries[..|entries| - 1])[last.0 := last.1]
  }

  /** Entry `i` is the last one for key `k`. */
  predicate LastFor<K(==), V>(entries: seq<(K, V)>, i: int, k: K) {
    && 0 <= i < |entries|
    && entries[i].0 == k
    && forall j | i < j < |entries| :: entries[j].0 != k
  }

  /** Overwriting with one more entry is one more assignment. */
  lemma OverwriteSnoc<K, V>(base: map<K, V>, entries: seq<(K, V)>, e: (K, V))
    ensures Overwrite(base, entries + [e]) == Overwrite(base, entries)[e.0 := e.1]
  {
    assert (entries + [e])[..|entries|] == entries;
  }

  /** Assigning the first entry, then the rest, is overwriting with all of
      them. */
  lemma {:induction false} OverwriteCons<K, V>(base: map<K, V>, e: (K, V), entries: seq<(K, V)>)
    ensures Overwrite(base, [e] + entries) == Overwrite(base[e.0 := e.1], entries)
    decreases |entries|
  {
    if entries == [] {
      assert Overwrite(base, [e]) == Overwrite(base, [])[e.0 := e.1];
    } else {
      var n := |entries| - 1;
      var init, last := entries[..n], entries[n];
      OverwriteCons(base, e, init);
      assert [e] + entries == ([e] + init) + [last];
      OverwriteSnoc(base, [e] + init, last);
      assert entries == init + [last];
      OverwriteSnoc(base[e.0 := e.1], init, last);
    }
  }

  /** A key some entry mentions has a last entry. */
  lemma {:induction false} LastForExists<K, V>(entries: seq<(K, V)>, k: K)
    requires exists i | 0 <= i < |entries| :: entries[i].0 == k
    ensures exists i :: LastFor(entries, i, k)
    decreases |entries|
  {
    var n := |entries| - 1;
    if entries[n].0 == k {
      assert LastFor(entries, n, k);
    } else {
      var init := entries[..n];
      var i :| 0 <= i < |entries| && entries[i].0 == k;
      assert init[i].0 == k;
      LastForExists(init, k);
      var j :| LastFor(init, j, k);
      assert LastFor(entries, j, k);
    }
  }

  /** Some entry is for key `k`. */
  predicate Mentions<K(==), V>(entries: seq<(K, V)>, k: K) {
    exists i | 0 <= i < |entries| :: entries[i].0 == k
  }

  lemma MentionsSnoc<K, V>(entries: seq<(K, V)>, e: (K, V), k: K)
    ensures Mentions(entries + [e], k) <==> Mentions(entries, k) || e.0 == k
  {
    var all := entries + [e];
    if Mentions(entries, k) {
      var i :| 0 <= i < |entries| && entries[i].0 == k;
      assert all[i] == entries[i];
    }
    if e.0 == k {
      assert all[|entries|] == e;
    }
    if Mentions(all, k) {
      var i :| 0 <= i < |all| && all[i].0 == k;
      if i < |entries| {
        assert all[i] == entries[i];
      }
    }
  }

  lemma MentionsAppend<K, V>(a: seq<(K, V)>, b: seq<(K, V)>, k: K)
    ensures Mentions(a + b, k) <==> Mentions(a, k) || Mentions(b, k)
  {
    if Mentions(b, k) {
      var i :| 0 <= i < |b| && b[i].0 == k;
      assert (a + b)[|a| + i] == b[i];
    }
    if Mentions(a, k) {
      var i :| 0 <= i < |a| && a[i].0 == k;
      assert (a + b)[i] == a[i];
    }
  }

  lemma {:induction false} OverwriteKeys<K, V>(base: map<K, V>, entries: seq<(K, V)>, k: K)
    ensures k in Overwrite(base, entries) <==> k in base || Mentions(entries, k)
    ensures !Mentions(entries, k) && k in base ==> Overwrite(base, entries)[k] == base[k]
    decreases |entries|
  {
    if entries != [] {
      var n := |entries| - 1;
      var init, last := entries[..n], entries[n];
      assert entries == init + [last];
      OverwriteKeys(base, init, k);
      MentionsSnoc(init, last, k);
    }
  }

  lemma {:induction false} OverwriteLast<K, V>(base: map<K, V>, entries: seq<(K, V)>, k: K, i: int)
    requires LastFor(entries, i, k)
    ensures k in Overwrite(base, entries) && Overwrite(base, entries)[k] == entries[i].1
    decreases |entries|
  {
    var n := |entries| - 1;
    var init, last := entries[..n], entries[n];
    if i < n {
      assert LastFor(init, i, k);
      OverwriteLast(base, init, k, i);
      OverwriteKeys(base, init, k);
      assert init[i] == entries[i];
    }
  }

  /** The keys are those of `base` and those some entry mentions; the value
      a key ends up with is the one of the last entry for it, or its value
      in `base` when no entry mentions it. */
  lemma OverwriteLastWins<K, V>(base: map<K, V>, entries: seq<(K, V)>, k: K)
    ensures k in Overwrite(base, entries) <==> k in base || exists i | 0 <= i < |entries| :: entries[i].0 == k
    ensures (forall i | 0 <= i < |entries| :: entries[i].0 != k) && k in base ==>
      Overwrite(base, entries)[k] == base[k]
    ensures forall i | LastFor(entries, i, k) :: Overwrite(base, entries)[k] == entries[i].1
  {
    OverwriteKeys(base, entries, k);
    forall i | LastFor(entries, i, k)
      ensures Overwrite(base, entries)[k] == entries[i].1
    {
      OverwriteLast(base, entries, k, i);
    }
  }
}
