/**
 * `replace_variables`: every token of the argument vector is rewritten in
 * place, replacing `$name` by the value bound to `name` in the variable
 * store (or by nothing), and rescanning the token from its start after each
 * replacement until no `$` is left.
 */
module Substitution {
  import opened CStr
  import opened EnvStore
  import opened Tokenizer

  /**
   * One pass of the inner loop on a token whose first `$` is at `k`: the
   * token is cut at the `$`; the key runs from after the `$` to the next
   * delimiter (`strpbrk`) or the end. With a binding the token becomes
   * prefix + value + what followed the key; without one it stays cut.
   */
  function ExpandAt(t: string, k: nat, env: seq<Entry>): (r: string)
    requires k < |t|
    ensures k <= |r| && forall i :: 0 <= i < k ==> r[i] == t[i]
  {
    var end := DelimEnd(t, k + 1);
    match Find(env, t[k + 1..end])
    case Some(v) => t[..k] + v + t[end..]
    case None => t[..k]
  }

  /** Each pass removes the first `$` and, when values hold no `$`, adds none. */
  lemma ExpandAtDropsDollar(t: string, k: nat, env: seq<Entry>)
    requires k < |t| && t[k] == '$' && '$' !in t[..k]
    requires NoDollarValues(env)
    ensures Dollars(ExpandAt(t, k, env)) < Dollars(t)
  {
    var end := DelimEnd(t, k + 1);
    assert t == t[..k] + [t[k]] + t[k + 1..end] + t[end..];
    assert multiset(t[..k])['$'] == 0;
    match Find(env, t[k + 1..end])
    case Some(v) =>
      FindIsFirstMatch(env, t[k + 1..end], v);
      assert multiset(v)['$'] == 0;
      assert multiset(t[..k] + v + t[end..]) == multiset(t[..k]) + multiset(v) + multiset(t[end..]);
    case None =>
  }

  /**
   * The token `replace_variables` leaves: expand the first `$` and rescan,
   * until no `$` remains. Terminates because stored values hold no `$`.
   */
  function SubstituteToken(t: string, env: seq<Entry>): (r: string)
    requires NoDollarValues(env)
    ensures '$' !in r
    ensures '$' !in t ==> r == t
    decreases Dollars(t)
  {
    match IndexOf(t, '$')
    case None => t
    case Some(k) =>
      ExpandAtDropsDollar(t, k, env);
      SubstituteToken(ExpandAt(t, k, env), env)
  }

  /** The whole argument vector after `replace_variables`. */
  function SubstituteAll(toks: seq<string>, env: seq<Entry>): (r: seq<string>)
    requires NoDollarValues(env)
    ensures |r| == |toks|
  {
    if toks == [] then [] else [SubstituteToken(toks[0], env)] + SubstituteAll(toks[1..], env)
  }

  /** Substitution rewrites each token on its own: slot `i` depends on token `i` alone. */
  lemma {:induction false} SubstituteAllAt(toks: seq<string>, env: seq<Entry>, i: nat)
    requires NoDollarValues(env)
    requires i < |toks|
    ensures SubstituteAll(toks, env)[i] == SubstituteToken(toks[i], env)
  {
    if i > 0 {
      SubstituteAllAt(toks[1..], env, i - 1);
    }
  }

  /**
   * After substitution no token holds a `$`, and a token that held none is
   * unchanged; the vector keeps its length.
   */
  lemma SubstituteAllClearsDollars(toks: seq<string>, env: seq<Entry>)
    requires NoDollarValues(env)
    ensures forall i :: 0 <= i < |toks| ==> '$' !in SubstituteAll(toks, env)[i]
    ensures forall i :: 0 <= i < |toks| && '$' !in toks[i] ==> SubstituteAll(toks, env)[i] == toks[i]
  {
    forall i | 0 <= i < |toks| ensures SubstituteAll(toks, env)[i] == SubstituteToken(toks[i], env) {
      SubstituteAllAt(toks, env, i);
    }
  }

  /** A vector with no `$` anywhere is left exactly as it was. */
  lemma {:induction false} SubstituteAllPlain(toks: seq<string>, env: seq<Entry>)
    requires NoDollarValues(env)
    requires forall i :: 0 <= i < |toks| ==> '$' !in toks[i]
    ensures SubstituteAll(toks, env) == toks
  {
    if toks != [] {
      SubstituteAllPlain(toks[1..], env);
    }
  }

  /**
   * A token from the tokenizer has no delimiter, so its key runs to the end
   * of the token, and since stored values hold no `$` the token is rewritten
   * once: it becomes the text before its first `$`, followed by the value
   * bound to the rest of the token, or by nothing if that key is unbound.
   */
  lemma {:induction false} SubstituteWord(t: string, k: nat, env: seq<Entry>)
    requires IsWord(t)
    requires k < |t| && t[k] == '$' && '$' !in t[..k]
    requires NoDollarValues(env)
    ensures SubstituteToken(t, env) ==
      match Find(env, t[k + 1..])
      case Some(v) => t[..k] + v
      case None => t[..k]
  {
    assert IndexOf(t, '$') == Some(k);
    assert DelimEnd(t, k + 1) == |t|;
    assert t[|t|..] == [];
    var once := ExpandAt(t, k, env);
    match Find(env, t[k + 1..])
    case Some(v) =>
      FindIsFirstMatch(env, t[k + 1..], v);
      assert once == t[..k] + v;
      assert '$' !in once;
    case None =>
      assert once == t[..k];
  }

  /**
   * A token with a second `$` after its first one loses everything from the
   * first `$` on: the key runs to the end of the token, so it holds the
   * second `$`, and no stored name does.
   */
  lemma SecondReferenceSwallowed(t: string, k: nat, env: seq<Entry>)
    requires IsWord(t)
    requires k < |t| && t[k] == '$' && '$' !in t[..k] && '$' in t[k + 1..]
    requires NoDollarValues(env) && NoDollarNames(env)
    ensures SubstituteToken(t, env) == t[..k]
  {
    DollarKeyUnbound(env, t[k + 1..]);
    SubstituteWord(t, k, env);
  }

  /** `a$X$Y` becomes `a` even with both `X` and `Y` bound. */
  lemma TwoReferencesExample()
    ensures SubstituteToken("a$X$Y", [Entry("X", "1"), Entry("Y", "2")]) == "a"
  {
    var t := "a$X$Y";
    assert t[..1] == "a" && t[2..] == "X$Y" && t[2..][1] == '$';
    SecondReferenceSwallowed(t, 1, [Entry("X", "1"), Entry("Y", "2")]);
  }

  /**
   * The inner loop of `replace_variables` on one token: cut at the first
   * `$`, look the key up, splice in the value, and rescan from the start
   * until no `$` is left.
   */
  method ExpandToken(store: VarStore, token: string) returns (t: string)
    requires store.Valid()
    ensures t == SubstituteToken(token, store.Contents())
  {
    ghost var env := store.Contents();
    t := token;
    var dollar := IndexOf(t, '$');
    while dollar.Some?
      invariant dollar == IndexOf(t, '$')
      invariant SubstituteToken(t, env) == SubstituteToken(token, env)
      decreases Dollars(t)
    {
      var k := dollar.value;
      ExpandAtDropsDollar(t, k, env);
      ghost var next := ExpandAt(t, k, env);
      var end := DelimEnd(t, k + 1);
      var value := store.Get(t[k + 1..end]);
      if value.Some? {
        t := t[..k] + value.value + t[end..];
      } else {
        t := t[..k];
      }
      assert t == next;
      dollar := IndexOf(t, '$');
    }
  }

  /**
   * `replace_variables`: walk the NULL-terminated vector and rewrite, in
   * place, every token that holds a `$`. The guard that skips tokens without
   * a `$` is the first test of `ExpandToken`'s loop.
   */
  method ReplaceVariables(store: VarStore, args: array<Option<string>>, ghost toks: seq<string>)
    requires store.Valid()
    requires NullTerminated(args[..], toks)
    modifies args
    ensures NullTerminated(args[..], SubstituteAll(toks, store.Contents()))
    ensures forall j :: |toks| < j < args.Length ==> args[j] == old(args[j])
  {
    ghost var env := store.Contents();
    ghost var goal := SubstituteAll(toks, env);
    var i := 0;
    while args[i].Some?
      invariant 0 <= i <= |toks|
      invariant forall j :: 0 <= j < i ==> args[j] == Some(goal[j])
      invariant forall j :: i <= j < args.Length ==> args[j] == old(args[j])
      decreases |toks| - i
    {
      SubstituteAllAt(toks, env, i);
      var t := ExpandToken(store, args[i].value);
      args[i] := Some(t);
      i := i + 1;
    }
  }
}
