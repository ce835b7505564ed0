/**
 * `parse_command`: one input line is tokenized, its variables substituted,
 * and the first token chosen between the built-ins (`quit`/`exit`, `cd`,
 * `pwd`, `set`, `unset`) and an external command, whose operators are then
 * scanned.
 *
 * What the shell then does with the process, the terminal or the current
 * directory is returned as an `Outcome` instead of being carried out; the
 * variable store is the one piece of state the line updates in place.
 */
module Shell {
  import opened CStr
  import opened EnvStore
  import opened Tokenizer
  import opened Substitution
  import opened Redirection

  /** The complaints `parse_command` writes to stderr, plus the two inputs the model refuses. */
  datatype Diagnostic =
    | CdMissingArgument
    | SetMissingArgument
    | UnsetMissingArgument
    | StoreFull              // a `set` with all MAX_ENV_VARS slots in use
    | MissingRedirectTarget  // a `<` or `>` with no file name after it

  /** What a line asks the shell to do once the command is parsed. */
  datatype Outcome =
    | NoOp
    | Exit
    | ChangeDirectory(path: string)
    | PrintWorkingDirectory
    | BuiltinDone            // `set` or `unset` ran; an `unset` of an unbound name changes nothing
    | Launch(plan: ExecPlan)
    | Report(diagnostic: Diagnostic)

  /**
   * The built-in chain on the substituted tokens `args`, with the store
   * `env` before and after. `argc` in the source is `|args|`.
   */
  function Dispatch(env: seq<Entry>, args: seq<string>): (r: (Outcome, seq<Entry>))
    requires |args| > 0
    ensures r.0 != NoOp
    ensures r.1 != env ==> r.0 == BuiltinDone && args[0] in {"set", "unset"}
  {
    var command := args[0];
    if command == "quit" || command == "exit" then (Exit, env)
    else if command == "cd" then
      if |args| < 2 then (Report(CdMissingArgument), env) else (ChangeDirectory(args[1]), env)
    else if command == "pwd" then (PrintWorkingDirectory, env)
    else if command == "set" then
      if |args| < 3 then (Report(SetMissingArgument), env)
      else if |env| >= MaxEnvVars then (Report(StoreFull), env)
      else (BuiltinDone, env + [Entry(args[1], args[2])])
    else if command == "unset" then
      if |args| < 2 then (Report(UnsetMissingArgument), env)
      else (BuiltinDone, RemoveFirst(env, args[1]))
    else
      match PlanOf(args)
      case DanglingRedirect => (Report(MissingRedirectTarget), env)
      case Planned(plan) => (Launch(plan), env)
  }

  /** One line: nothing for a blank line, else substitute and dispatch. */
  function Step(env: seq<Entry>, line: string): (r: (Outcome, seq<Entry>))
    requires NoDollarValues(env)
    ensures r.0 == NoOp <==> ArgTokens(line) == []
    ensures r.0 == NoOp ==> r.1 == env
  {
    var toks := ArgTokens(line);
    if toks == [] then (NoOp, env) else Dispatch(env, SubstituteAll(toks, env))
  }

  /** A line is a no-op, leaving the store alone, exactly when it is empty or all delimiters. */
  lemma BlankLineIsNoOp(env: seq<Entry>, line: string)
    requires NoDollarValues(env)
    ensures Step(env, line) == (NoOp, env) <==> AllDelims(line)
  {
    NoWordsIffBlank(line);
  }

  /** A line typed as the words `ws` is dispatched on their substituted forms. */
  lemma StepOfJoin(env: seq<Entry>, ws: seq<string>)
    requires NoDollarValues(env)
    requires AllWords(ws) && 0 < |ws| < MaxArgs
    ensures Step(env, Join(ws)) == Dispatch(env, SubstituteAll(ws, env))
  {
    ArgTokensOfJoin(ws);
  }

  /**
   * A line typed as the words `ws`, none holding a `$`, is dispatched on
   * those very words: they are its tokens and substitution leaves them alone.
   */
  lemma StepOnPlainWords(env: seq<Entry>, ws: seq<string>)
    requires NoDollarValues(env)
    requires AllWords(ws) && 0 < |ws| < MaxArgs
    requires forall i :: 0 <= i < |ws| ==> '$' !in ws[i]
    ensures Step(env, Join(ws)) == Dispatch(env, ws)
  {
    StepOfJoin(env, ws);
    SubstituteAllPlain(ws, env);
  }

  /** Every built-in keeps the store free of `$` in its values and names, given `$`-free arguments. */
  lemma DispatchKeepsNoDollarValues(env: seq<Entry>, args: seq<string>)
    requires NoDollarValues(env)
    requires |args| > 0 && forall i :: 0 <= i < |args| ==> '$' !in args[i]
    ensures NoDollarValues(Dispatch(env, args).1)
    ensures NoDollarNames(env) ==> NoDollarNames(Dispatch(env, args).1)
  {
    if args[0] == "unset" && |args| >= 2 {
      RemoveFirstKeepsValues(env, args[1]);
      if NoDollarNames(env) {
        RemoveFirstKeepsNames(env, args[1]);
      }
    }
  }

  /**
   * The store after any line still holds no `$` in its values, nor in its
   * names if it held none before: `set` stores substituted tokens, `unset`
   * only drops an entry.
   */
  lemma StepKeepsNoDollarValues(env: seq<Entry>, line: string)
    requires NoDollarValues(env)
    ensures NoDollarValues(Step(env, line).1)
    ensures NoDollarNames(env) ==> NoDollarNames(Step(env, line).1)
  {
    var toks := ArgTokens(line);
    if toks != [] {
      SubstituteAllClearsDollars(toks, env);
      DispatchKeepsNoDollarValues(env, SubstituteAll(toks, env));
    }
  }

  /**
   * A line that grows the store appends one entry after the old ones, and
   * both its name and its value are substituted tokens, free of `$`.
   */
  lemma StoredEntryIsSubstituted(env: seq<Entry>, line: string)
    requires NoDollarValues(env)
    requires |Step(env, line).1| > |env|
    ensures var env' := Step(env, line).1;
      |env'| == |env| + 1 && env'[..|env|] == env &&
      '$' !in env'[|env|].name && '$' !in env'[|env|].value
  {
    var toks := ArgTokens(line);
    var args := SubstituteAll(toks, env);
    SubstituteAllClearsDollars(toks, env);
    if args[0] == "unset" && |args| >= 2 {
      RemoveFirstTakesOneEntry(env, args[1]);
    }
  }

  /** Only `set` and `unset` lines change the store; every other line leaves it as it was. */
  lemma OnlySetAndUnsetChangeStore(env: seq<Entry>, line: string)
    requires NoDollarValues(env)
    requires Step(env, line).1 != env
    ensures ArgTokens(line) != []
    ensures SubstituteAll(ArgTokens(line), env)[0] in {"set", "unset"}
  {
  }

  /** Substitution leaves alone a leading run of words that hold no `$`. */
  lemma SubstitutedHead(env: seq<Entry>, ws: seq<string>, head: seq<string>)
    requires NoDollarValues(env)
    requires head <= ws
    requires forall i :: 0 <= i < |head| ==> '$' !in head[i]
    ensures SubstituteAll(ws, env)[..|head|] == head
  {
    forall i | 0 <= i < |head| ensures SubstituteAll(ws, env)[i] == head[i] {
      SubstituteAllAt(ws, env, i);
    }
  }

  /** `quit` and `exit` end the shell whatever arguments follow, and leave the store alone. */
  lemma ExitIgnoresArguments(env: seq<Entry>, line: string)
    requires NoDollarValues(env)
    requires ArgTokens(line) != [] && ArgTokens(line)[0] in {"quit", "exit"}
    ensures Step(env, line) == (Exit, env)
  {
    var ws := ArgTokens(line);
    SubstitutedHead(env, ws, [ws[0]]);
    assert SubstituteAll(ws, env)[0] == SubstituteAll(ws, env)[..1][0];
  }

  /**
   * `cd` with no argument reports it; otherwise the directory asked for is
   * the substituted second token. Neither touches the store.
   */
  lemma CdLine(env: seq<Entry>, line: string)
    requires NoDollarValues(env)
    requires ArgTokens(line) != [] && ArgTokens(line)[0] == "cd"
    ensures Step(env, line) ==
      if |ArgTokens(line)| < 2 then (Report(CdMissingArgument), env)
      else (ChangeDirectory(SubstituteToken(ArgTokens(line)[1], env)), env)
  {
    var ws := ArgTokens(line);
    SubstitutedHead(env, ws, ["cd"]);
    assert SubstituteAll(ws, env)[0] == "cd" by {
      assert SubstituteAll(ws, env)[..1] == ["cd"];
    }
    if |ws| >= 2 {
      SubstituteAllAt(ws, env, 1);
    }
  }

  /**
   * A typed command word that holds no `$` and is neither a built-in nor an
   * operator starts an external command: the line either reports a missing
   * file name or launches a program whose name is that very word; the store
   * is left alone.
   */
  lemma ExternalLine(env: seq<Entry>, line: string)
    requires NoDollarValues(env)
    requires ArgTokens(line) != []
    requires '$' !in ArgTokens(line)[0]
    requires ArgTokens(line)[0] !in {"quit", "exit", "cd", "pwd", "set", "unset", "&", "<", ">"}
    ensures Step(env, line).1 == env
    ensures var outcome := Step(env, line).0;
      outcome == Report(MissingRedirectTarget) ||
      (outcome.Launch? && |outcome.plan.argv| > 0 && outcome.plan.argv[0] == ArgTokens(line)[0])
  {
    var ws := ArgTokens(line);
    var args := SubstituteAll(ws, env);
    SubstitutedHead(env, ws, [ws[0]]);
    assert args[0] == ws[0] by {
      assert args[..1] == [ws[0]];
    }
    if PlanOf(args).Planned? {
      assert args[0] !in Operators;
      assert FirstOf(args, Operators) > 0;
    }
  }

  /** The `set` branch of the built-in chain. */
  lemma DispatchSet(env: seq<Entry>, args: seq<string>)
    requires |args| > 0 && args[0] == "set"
    ensures Dispatch(env, args) ==
      if |args| < 3 then (Report(SetMissingArgument), env)
      else if |env| >= MaxEnvVars then (Report(StoreFull), env)
      else (BuiltinDone, env + [Entry(args[1], args[2])])
  {
  }

  /**
   * `set w1 w2 ...`: with room in the store, one entry is appended whose
   * name and value are the substituted `w1` and `w2`, and any further words
   * are ignored. A full store refuses the line and is left unchanged.
   */
  lemma SetLine(env: seq<Entry>, line: string)
    requires NoDollarValues(env)
    requires |ArgTokens(line)| >= 3 && ArgTokens(line)[0] == "set"
    ensures var ws := ArgTokens(line);
      Step(env, line) ==
        if |env| < MaxEnvVars then
          (BuiltinDone, env + [Entry(SubstituteToken(ws[1], env), SubstituteToken(ws[2], env))])
        else (Report(StoreFull), env)
  {
    var ws := ArgTokens(line);
    var args := SubstituteAll(ws, env);
    SubstitutedHead(env, ws, ["set"]);
    assert args[0] == "set" by {
      assert args[..1] == ["set"];
    }
    SubstituteAllAt(ws, env, 1);
    SubstituteAllAt(ws, env, 2);
    DispatchSet(env, args);
  }

  /**
   * `set name value ...` with `name` and `value` typed without `$`: lookup
   * of `name` afterwards is unchanged if it was bound, and yields `value`
   * if it was not.
   */
  lemma SetPlainLine(env: seq<Entry>, line: string, name: string, value: string)
    requires NoDollarValues(env)
    requires |ArgTokens(line)| >= 3 && ArgTokens(line)[..3] == ["set", name, value]
    requires '$' !in name && '$' !in value
    ensures var (outcome, env') := Step(env, line);
      if |env| < MaxEnvVars then
        outcome == BuiltinDone && env' == env + [Entry(name, value)] &&
        Find(env', name) == (if Find(env, name).Some? then Find(env, name) else Some(value))
      else
        outcome == Report(StoreFull) && env' == env
  {
    var ws := ArgTokens(line);
    assert ws[0] == "set" && ws[1] == name && ws[2] == value by {
      assert ws[..3] == ["set", name, value];
    }
    SetLine(env, line);
    FindAfterAppend(env, Entry(name, value), name);
  }

  /** `set` with fewer than two arguments reports the missing argument and changes nothing. */
  lemma SetMissingArgumentLine(env: seq<Entry>, line: string)
    requires NoDollarValues(env)
    requires 0 < |ArgTokens(line)| < 3 && ArgTokens(line)[0] == "set"
    ensures Step(env, line) == (Report(SetMissingArgument), env)
  {
    var ws := ArgTokens(line);
    var args := SubstituteAll(ws, env);
    SubstitutedHead(env, ws, ["set"]);
    assert args[0] == "set" by {
      assert args[..1] == ["set"];
    }
    DispatchSet(env, args);
  }

  /** The `unset` branch of the built-in chain. */
  lemma DispatchUnset(env: seq<Entry>, args: seq<string>)
    requires |args| > 0 && args[0] == "unset"
    ensures Dispatch(env, args) ==
      if |args| < 2 then (Report(UnsetMissingArgument), env)
      else (BuiltinDone, RemoveFirst(env, args[1]))
  {
  }

  /**
   * `unset w1 ...` applies swap-with-last removal of the first entry named
   * by the substituted `w1` to the store, and ignores any further words.
   */
  lemma UnsetLine(env: seq<Entry>, line: string)
    requires NoDollarValues(env)
    requires |ArgTokens(line)| >= 2 && ArgTokens(line)[0] == "unset"
    ensures Step(env, line) == (BuiltinDone, RemoveFirst(env, SubstituteToken(ArgTokens(line)[1], env)))
  {
    var ws := ArgTokens(line);
    var args := SubstituteAll(ws, env);
    SubstitutedHead(env, ws, ["unset"]);
    assert args[0] == "unset" by {
      assert args[..1] == ["unset"];
    }
    SubstituteAllAt(ws, env, 1);
    DispatchUnset(env, args);
  }

  /** `unset` with no argument reports it and changes nothing. */
  lemma UnsetMissingArgumentLine(env: seq<Entry>, line: string)
    requires NoDollarValues(env)
    requires ArgTokens(line) == ["unset"]
    ensures Step(env, line) == (Report(UnsetMissingArgument), env)
  {
    SubstitutedHead(env, ["unset"], ["unset"]);
    DispatchUnset(env, SubstituteAll(["unset"], env));
  }

  /**
   * After `set name value`, a token `$name` expands to the value `name` had
   * before if it was bound (lookup is first-match, so setting a name again
   * does not change it), and to `value` otherwise.
   */
  lemma ReferenceAfterSet(env: seq<Entry>, name: string, value: string)
    requires NoDollarValues(env) && '$' !in value
    requires forall i :: 0 <= i < |name| ==> !IsDelim(name[i]) && name[i] != '$'
    ensures NoDollarValues(env + [Entry(name, value)])
    ensures SubstituteToken("$" + name, env + [Entry(name, value)]) ==
      if Find(env, name).Some? then Find(env, name).value else value
  {
    var env' := env + [Entry(name, value)];
    assert NoDollarValues(env') by {
      forall i | 0 <= i < |env'| ensures '$' !in env'[i].value {
        if i < |env| { assert env'[i] == env[i]; }
      }
    }
    var t := "$" + name;
    assert t[1..] == name && t[..0] == [];
    assert IsWord(t) by {
      forall i | 0 <= i < |t| ensures !IsDelim(t[i]) {
        if i > 0 { assert t[i] == name[i - 1]; }
      }
    }
    FindAfterAppend(env, Entry(name, value), name);
    SubstituteWord(t, 0, env');
  }

  /**
   * The command word is looked at after substitution: with `c` bound to
   * `quit`, the line `$c` ends the shell.
   */
  lemma SubstitutedCommandWord()
    ensures Step([Entry("c", "quit")], "$c") == (Exit, [Entry("c", "quit")])
  {
    var env := [Entry("c", "quit")];
    assert Join(["$c"]) == "$c";
    StepOfJoin(env, ["$c"]);
    SubstituteAllAt(["$c"], env, 0);
    assert FindIndex(env, "c") == Some(0);
    assert "$c"[1..] == "c" && "$c"[..0] == "";
    SubstituteWord("$c", 0, env);
  }

  /**
   * `parse_command` on the shell's store: fill a fresh argument vector,
   * substitute in place, then run the built-in chain or the operator scan.
   */
  method ParseCommand(store: VarStore, line: string) returns (outcome: Outcome)
    requires store.Valid()
    modifies store, store.entries
    ensures store.Valid()
    ensures (outcome, store.Contents()) == Step(old(store.Contents()), line)
  {
    ghost var env := store.Contents();
    var args := new Option<string>[MaxArgs](_ => None);
    var argc := Tokenize(line, args);
    if argc == 0 {
      return NoOp;
    }
    ghost var words := ArgTokens(line);
    ReplaceVariables(store, args, words);
    ghost var toks := SubstituteAll(words, env);
    SubstituteAllClearsDollars(words, env);
    var command := args[0].value;
    if command == "quit" || command == "exit" {
      outcome := Exit;
    } else if command == "cd" {
      if argc < 2 {
        outcome := Report(CdMissingArgument);
      } else {
        outcome := ChangeDirectory(args[1].value);
      }
    } else if command == "pwd" {
      outcome := PrintWorkingDirectory;
    } else if command == "set" {
      if argc < 3 {
        outcome := Report(SetMissingArgument);
      } else if store.count == MaxEnvVars {
        outcome := Report(StoreFull);
      } else {
        store.Set(args[1].value, args[2].value);
        outcome := BuiltinDone;
      }
    } else if command == "unset" {
      if argc < 2 {
        outcome := Report(UnsetMissingArgument);
      } else {
        store.Unset(args[1].value);
        outcome := BuiltinDone;
      }
    } else {
      var scan := ScanRedirections(args, toks);
      match scan
      case DanglingRedirect =>
        outcome := Report(MissingRedirectTarget);
      case Planned(plan) =>
        outcome := Launch(plan);
    }
  }
}
