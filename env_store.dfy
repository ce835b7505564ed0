/**
 * The shell's variable store: the global table `env_vars[MAX_ENV_VARS][2]`
 * of name/value pairs and its fill counter `env_var_count`.
 *
 * The table is a class over a fixed array, updated in place by `Set` and
 * `Unset`; its abstract value is the sequence of live entries. The functions
 * `Find` and `RemoveFirst` say on that sequence what lookup and removal do,
 * and the lemmas below them state what those two promise.
 */
module EnvStore {
  import opened CStr

  /** MAX_ENV_VARS: the capacity of the table. */
  const MaxEnvVars: nat := 100

  /** One row of `env_vars`: `[0]` is the name, `[1]` the value. */
  datatype Entry = Entry(name: string, value: string)

  /**
   * The store invariant that makes substitution terminate: a stored value
   * never holds a `$`. It holds because `set` only ever stores tokens that
   * substitution has already cleared of `$`.
   */
  ghost predicate NoDollarValues(env: seq<Entry>)
  {
    forall i :: 0 <= i < |env| ==> '$' !in env[i].value
  }

  /**
   * No stored name holds a `$`: `set` only ever stores a substituted token as
   * the name, so a lookup key that still holds a `$` is never bound.
   */
  ghost predicate NoDollarNames(env: seq<Entry>)
  {
    forall i :: 0 <= i < |env| ==> '$' !in env[i].name
  }

  /** The index of the lowest entry named `key`, if there is one. */
  function FindIndex(env: seq<Entry>, key: string): (r: Option<nat>)
    ensures r.None? <==> forall i :: 0 <= i < |env| ==> env[i].name != key
    ensures r.Some? ==> r.value < |env| && env[r.value].name == key
    ensures r.Some? ==> forall j :: 0 <= j < r.value ==> env[j].name != key
  {
    if env == [] then None
    else if env[0].name == key then Some(0)
    else
      match FindIndex(env[1..], key)
      case None => None
      case Some(i) => Some(i + 1)
  }

  /** What `get_env_value(key)` returns: the value of the first match, or NULL. */
  function Find(env: seq<Entry>, key: string): (r: Option<string>)
    ensures r.None? <==> forall i :: 0 <= i < |env| ==> env[i].name != key
    ensures r.Some? ==> Entry(key, r.value) in env
  {
    match FindIndex(env, key)
    case None => None
    case Some(i) => Some(env[i].value)
  }

  /**
   * What `unset key` leaves: the first entry named `key` is overwritten by
   * the last entry and the table shrinks by one; with no match, nothing changes.
   */
  function RemoveFirst(env: seq<Entry>, key: string): (r: seq<Entry>)
    ensures |r| == if FindIndex(env, key).Some? then |env| - 1 else |env|
  {
    match FindIndex(env, key)
    case None => env
    case Some(i) => env[i := env[|env| - 1]][..|env| - 1]
  }

  /** Lookup is first-match: it yields `v` exactly when some entry `(key, v)` has no earlier `key`. */
  lemma FindIsFirstMatch(env: seq<Entry>, key: string, v: string)
    ensures Find(env, key) == Some(v) <==>
      exists i :: 0 <= i < |env| && env[i] == Entry(key, v) &&
        forall j :: 0 <= j < i ==> env[j].name != key
  {
    if Find(env, key) == Some(v) {
      var i := FindIndex(env, key).value;
      assert env[i] == Entry(key, v);
    }
  }

  /**
   * Appending never hides an existing binding: after `set`, lookup of a name
   * that was bound is unchanged, and an unbound name now finds the new entry.
   */
  lemma {:induction false} FindAfterAppend(env: seq<Entry>, e: Entry, key: string)
    ensures Find(env + [e], key) ==
      if Find(env, key).Some? then Find(env, key)
      else if e.name == key then Some(e.value)
      else None
  {
    if env != [] && env[0].name != key {
      FindAfterAppend(env[1..], e, key);
      assert (env + [e])[1..] == env[1..] + [e];
    }
  }

  /** Taking `x` out of `front + [x] + mid + [y]` and moving `y` into its place keeps the rest. */
  lemma MultisetSwapOut<T>(front: seq<T>, x: T, mid: seq<T>, y: T)
    ensures multiset(front + [y] + mid) == multiset(front + [x] + mid + [y]) - multiset{x}
  {
    assert multiset(front + [x] + mid + [y]) == multiset(front) + multiset{x} + multiset(mid) + multiset{y};
    assert multiset(front + [y] + mid) == multiset(front) + multiset{y} + multiset(mid);
  }

  /** Overwriting slot `i` with the last element and dropping the last slot removes one copy of `s[i]`. */
  lemma SwapWithLastRemovesOne<T>(s: seq<T>, i: nat)
    requires i < |s|
    ensures multiset(s[i := s[|s| - 1]][..|s| - 1]) == multiset(s) - multiset{s[i]}
  {
    var n := |s|;
    var r := s[i := s[n - 1]][..n - 1];
    if i == n - 1 {
      assert r == s[..n - 1];
      assert s == r + [s[n - 1]];
    } else {
      var front, mid := s[..i], s[i + 1..n - 1];
      assert s == front + [s[i]] + mid + [s[n - 1]];
      assert r == front + [s[n - 1]] + mid;
      MultisetSwapOut(front, s[i], mid, s[n - 1]);
    }
  }

  /**
   * Removal takes out exactly the first matching entry: one entry fewer, and
   * the same entries otherwise, counted with multiplicity.
   */
  lemma RemoveFirstTakesOneEntry(env: seq<Entry>, key: string)
    ensures FindIndex(env, key).None? ==> RemoveFirst(env, key) == env
    ensures FindIndex(env, key).Some? ==>
      |RemoveFirst(env, key)| == |env| - 1 &&
      multiset(RemoveFirst(env, key)) ==
        multiset(env) - multiset{env[FindIndex(env, key).value]}
  {
    if FindIndex(env, key).Some? {
      SwapWithLastRemovesOne(env, FindIndex(env, key).value);
    }
  }

  /** Removal only drops an entry, so a store whose values hold no `$` keeps that property. */
  lemma RemoveFirstKeepsValues(env: seq<Entry>, key: string)
    requires NoDollarValues(env)
    ensures NoDollarValues(RemoveFirst(env, key))
  {
    if FindIndex(env, key).Some? {
      var i, n := FindIndex(env, key).value, |env|;
      var r := RemoveFirst(env, key);
      forall j | 0 <= j < |r| ensures '$' !in r[j].value {
        assert r[j] == env[if j == i then n - 1 else j];
      }
    }
  }

  /** Removal only drops an entry, so a store whose names hold no `$` keeps that property. */
  lemma RemoveFirstKeepsNames(env: seq<Entry>, key: string)
    requires NoDollarNames(env)
    ensures NoDollarNames(RemoveFirst(env, key))
  {
    if FindIndex(env, key).Some? {
      var i, n := FindIndex(env, key).value, |env|;
      var r := RemoveFirst(env, key);
      forall j | 0 <= j < |r| ensures '$' !in r[j].name {
        assert r[j] == env[if j == i then n - 1 else j];
      }
    }
  }

  /** In a store whose names hold no `$`, a key that holds a `$` is never bound. */
  lemma DollarKeyUnbound(env: seq<Entry>, key: string)
    requires NoDollarNames(env)
    requires '$' in key
    ensures Find(env, key).None?
  {
  }

  /** After `unset key`, a name bound at most once is no longer bound. */
  lemma RemoveFirstUnbinds(env: seq<Entry>, key: string)
    requires forall i, j :: 0 <= i < j < |env| && env[i].name == key ==> env[j].name != key
    ensures Find(RemoveFirst(env, key), key).None?
  {
    var r := RemoveFirst(env, key);
    if FindIndex(env, key).Some? {
      var i, n := FindIndex(env, key).value, |env|;
      forall j | 0 <= j < |r| ensures r[j].name != key {
        if j == i {
          assert r[j] == env[n - 1];
          assert i < n - 1;
        } else {
          assert r[j] == env[j];
        }
      }
    }
  }

  /**
   * `unset key` leaves the lookup of every other name bound at most once
   * unchanged, whatever duplicates other names have.
   */
  lemma RemoveFirstKeepsOthers(env: seq<Entry>, key: string, other: string)
    requires forall i, j :: 0 <= i < j < |env| && env[i].name == other ==> env[j].name != other
    requires other != key
    ensures Find(RemoveFirst(env, key), other) == Find(env, other)
  {
    var r := RemoveFirst(env, key);
    if FindIndex(env, key).Some? {
      var i, n := FindIndex(env, key).value, |env|;
      match FindIndex(env, other)
      case None =>
        forall j | 0 <= j < |r| ensures r[j].name != other {
          if j == i { assert r[j] == env[n - 1]; } else { assert r[j] == env[j]; }
        }
      case Some(k) =>
        assert k != i;
        var at := if k == n - 1 then i else k;
        assert r[at] == env[k];
        forall j | 0 <= j < at ensures r[j].name != other {
          if j == i { assert r[j] == env[n - 1]; } else { assert r[j] == env[j]; }
        }
        assert FindIndex(r, other) == Some(at);
    }
  }

  /**
   * Without unique names, swap-with-last removal can reorder two entries of
   * another name, and lookup of that name then changes: unsetting `x` in
   * [(x,0), (k,1), (k,2)] leaves [(k,2), (k,1)], where `k` now finds 2.
   */
  lemma RemoveFirstCanReorderDuplicates()
    ensures var env := [Entry("x", "0"), Entry("k", "1"), Entry("k", "2")];
      Find(env, "k") == Some("1") &&
      RemoveFirst(env, "x") == [Entry("k", "2"), Entry("k", "1")] &&
      Find(RemoveFirst(env, "x"), "k") == Some("2")
  {
    var env := [Entry("x", "0"), Entry("k", "1"), Entry("k", "2")];
    assert FindIndex(env, "x") == Some(0);
    assert FindIndex(env, "k") == Some(1);
  }

  /**
   * A name set twice is still bound after one `unset`: removal takes out the
   * first entry only, and the second one then answers lookup.
   */
  lemma UnsetRevealsSecondBinding()
    ensures var env := [Entry("X", "1"), Entry("X", "2")];
      Find(env, "X") == Some("1") &&
      RemoveFirst(env, "X") == [Entry("X", "2")] &&
      Find(RemoveFirst(env, "X"), "X") == Some("2")
  {
    var env := [Entry("X", "1"), Entry("X", "2")];
    assert FindIndex(env, "X") == Some(0);
    assert FindIndex([Entry("X", "2")], "X") == Some(0);
  }

  /** The global table `env_vars` with its counter `env_var_count`. */
  class VarStore {
    const entries: array<Entry>
    var count: nat

    ghost predicate Valid()
      reads this, entries
    {
      entries.Length == MaxEnvVars &&
      count <= MaxEnvVars &&
      NoDollarValues(entries[..count]) &&
      NoDollarNames(entries[..count])
    }

    /** The live entries, in table order. */
    ghost function Contents(): seq<Entry>
      reads this, entries
      requires Valid()
    {
      entries[..count]
    }

    /** The zero-initialised global table. */
    constructor ()
      ensures Valid() && fresh(entries)
      ensures Contents() == []
    {
      entries := new Entry[MaxEnvVars](_ => Entry("", ""));
      count := 0;
    }

    /** `get_env_value`: scan from slot 0 and return the first match. Changes nothing. */
    method Get(key: string) returns (value: Option<string>)
      requires Valid()
      ensures value == Find(Contents(), key)
      ensures value.Some? ==> '$' !in value.value
    {
      var i := 0;
      while i < count
        invariant 0 <= i <= count
        invariant forall j :: 0 <= j < i ==> entries[j].name != key
      {
        if entries[i].name == key {
          assert FindIndex(Contents(), key) == Some(i);
          return Some(entries[i].value);
        }
        i := i + 1;
      }
      return None;
    }

    /**
     * The `set` built-in's mutation: write the pair into slot `count` and bump
     * the counter. The source writes without checking capacity; here the
     * caller must leave a free slot.
     */
    method Set(name: string, value: string)
      requires Valid()
      requires count < MaxEnvVars
      requires '$' !in name && '$' !in value
      modifies this, entries
      ensures Valid()
      ensures Contents() == old(Contents()) + [Entry(name, value)]
      ensures forall j :: count <= j < MaxEnvVars ==> entries[j] == old(entries[j])
    {
      entries[count] := Entry(name, value);
      count := count + 1;
    }

    /** Overwrite live slot `i` with the last live entry and shrink the table by one. */
    method SwapOut(i: nat)
      requires Valid()
      requires i < count
      modifies this, entries
      ensures Valid()
      ensures count == old(count) - 1
      ensures Contents() == old(Contents()[i := Contents()[count - 1]][..count - 1])
      ensures forall j :: count <= j < MaxEnvVars ==> entries[j] == old(entries[j])
    {
      ghost var before := Contents();
      ghost var after := before[i := before[count - 1]][..count - 1];
      assert NoDollarValues(after) && NoDollarNames(after) by {
        forall j | 0 <= j < |after| ensures '$' !in after[j].value && '$' !in after[j].name {
          assert after[j] == before[if j == i then count - 1 else j];
        }
      }
      entries[i] := entries[count - 1];
      count := count - 1;
      assert entries[..count] == after;
    }

    /**
     * The `unset` built-in's mutation: find the first slot named `name`,
     * move the last live entry into it and shrink the table by one.
     */
    method Unset(name: string)
      requires Valid()
      modifies this, entries
      ensures Valid()
      ensures Contents() == RemoveFirst(old(Contents()), name)
      ensures forall j :: count <= j < MaxEnvVars ==> entries[j] == old(entries[j])
    {
      ghost var before := Contents();
      var i := 0;
      while i < count && entries[i].name != name
        invariant 0 <= i <= count
        invariant forall j :: 0 <= j < i ==> before[j].name != name
      {
        i := i + 1;
      }
      if i < count {
        assert FindIndex(before, name) == Some(i);
        SwapOut(i);
      } else {
        assert FindIndex(before, name).None?;
      }
    }
  }
}
