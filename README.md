# xsh command processing, in Dafny

A model of the command-processing core of a minimal interactive shell
(`shell.c`). One input line goes through four stages:

1. **Tokenizer.** Repeated `strtok` calls split the line on space, tab, CR
   and LF into a fixed argument vector of `MAX_ARGS` = 64 slots. At most 63
   tokens are kept, and the vector is NULL-terminated.
2. **Substitution.** `replace_variables` rewrites each token in place:
   - It cuts the token at its first `$`.
   - It looks up the rest of the token in the variable store.
   - It splices in the bound value, or nothing if the name is unbound.
   - It rescans until no `$` is left.
3. **Dispatch.** The substituted first token selects `quit`/`exit`, `cd`,
   `pwd`, `set`, `unset`, or an external command. Argument counts are
   checked.
4. **Operator scan.** For an external command, one pass over the vector
   blanks out each `&` before the first `<` or `>`, and that `<`/`>` with
   the file name after it; blanking the file name ends the pass. Any later
   `&`, `<` or `>` is left in place. The pass records what the child is to
   be started with.

The variable store is the global table `env_vars[MAX_ENV_VARS][2]` with
its counter `env_var_count`.

Layout, one module per file:

| file | module | what it holds |
|---|---|---|
| `cstr.dfy` | `CStr` | NULL-able `Option`, the delimiter set, `strchr` (`IndexOf`) and `strpbrk` (`DelimEnd`) |
| `env_store.dfy` | `EnvStore` | the store as a class `VarStore` over a 100-slot array; `Find`/`RemoveFirst` on its live entries; lookup and removal lemmas |
| `tokenizer.dfy` | `Tokenizer` | `strtok` on the rest of the line, the token list `Words`, the capped list `ArgTokens`, the `Tokenize` loop over the argument array |
| `substitution.dfy` | `Substitution` | `SubstituteToken`/`SubstituteAll` and the in-place `ReplaceVariables`/`ExpandToken` loops |
| `redirection.dfy` | `Redirection` | the `ExecPlan` a launch would use, `PlanOf`, and the in-place `ScanRedirections` loop |
| `shell.dfy` | `Shell` | `Dispatch`/`Step` on values, the `ParseCommand` method on the store, and end-to-end lemmas per command |

Each imperative method is proved against a function:

- `ParseCommand` leaves the pair (outcome, new store contents) equal to
  `Step(old contents, line)`.
- `Tokenize` stores `ArgTokens(line)`.
- `ReplaceVariables` stores `SubstituteAll(tokens, store)`.
- `ScanRedirections` returns `PlanOf(tokens)`.
- `Get`, `Set` and `Unset` relate to `Find`, append and `RemoveFirst` on the
  live entries.

The lemmas then state what those functions promise.

At the points below the code does not do what a shell user would expect.
Each bullet names the expected behaviour and what the code does instead; the
model follows the code:

- **Lookup is first-match.** One would expect the last `set` of a name to
  win. Instead, setting a name that is already bound appends a second entry,
  and lookup still returns the older one. So the first `set` wins
  (`FindAfterAppend`, `SetPlainLine`, `ReferenceAfterSet`).
- **`unset` removes one binding only.** One would expect `unset X` to leave
  `X` unbound. After `set X 1`, `set X 2`, `unset X`, the first entry is gone
  and `$X` expands to `2` (`UnsetRevealsSecondBinding`). Only a name bound at
  most once ends up unbound (`RemoveFirstUnbinds`).
- **One reference per token.** One would expect every `$name` in a token to
  be expanded. The key runs from the first `$` to the end of the token, so in
  `a$X$Y` the key is `X$Y`. No stored name holds a `$`, so the token becomes
  `a` even with `X` and `Y` both bound (`SecondReferenceSwallowed`,
  `TwoReferencesExample`).
- **The operator scan stops right after the first redirection.** One would
  expect a later `<` or `>` to override an earlier one. Blanking
  the file-name slot ends the loop. A second `<` or `>` therefore does not
  override the first, and an `&` after a redirection is never seen: the
  command runs in the foreground (`OnlyFirstRedirectHonoured`, `CatExample`).
- **`set` has no capacity check in the code.** Writing a 101st entry is out
  of bounds. The model refuses that `set` with `StoreFull` and leaves the
  store unchanged.
- **A trailing `<` or `>` has no file name.** The code passes the NULL
  terminator to `open`. The model refuses the line with
  `MissingRedirectTarget`.

## Model

| member | source | states |
|---|---|---|
| CStr.IndexOf | shell.c:38 | `strchr`: NULL exactly when the character does not occur; otherwise the index of its first occurrence |
| CStr.DelimEnd | shell.c:47 | `strpbrk` with the delimiter set: the first delimiter at or after the start, or the end of the string, with no delimiter in between |
| EnvStore.Find | shell.c:20-30 | `get_env_value`: the value of the first entry named `key`, or NULL exactly when no entry has that name; a found value belongs to an entry `(key, value)` of the table |
| EnvStore.RemoveFirst | shell.c:173-183 | the `unset` loop: the first entry named `key` is overwritten by the last one and the table shrinks by one; the table keeps its length exactly when no entry matches |
| EnvStore.FindIndex | shell.c:22-28 | the lowest index whose name matches, and none exactly when no entry has that name |
| EnvStore.FindIsFirstMatch | shell.c:20-30 | lookup yields `v` exactly when some entry `(key, v)` has no earlier entry named `key` |
| EnvStore.FindAfterAppend | shell.c:157-162 | after an append, lookup of a bound name is unchanged, and an unbound name finds the new entry |
| EnvStore.SwapWithLastRemovesOne | shell.c:179-181 | overwriting a slot with the last element and dropping the last slot removes exactly one copy of the overwritten element (as a multiset) |
| EnvStore.RemoveFirstTakesOneEntry | shell.c:173-183 | `unset` without a match leaves the table unchanged; with one, the table loses one entry, and the remaining entries are the old ones minus that entry, as a multiset |
| EnvStore.RemoveFirstKeepsValues | shell.c:173-183 | removal preserves the store invariant that no value holds `$` |
| EnvStore.RemoveFirstKeepsNames | shell.c:173-183 | removal preserves the store invariant that no name holds `$` |
| EnvStore.DollarKeyUnbound | shell.c:20-30 | in a store whose names hold no `$`, a key holding `$` finds nothing |
| EnvStore.RemoveFirstUnbinds | shell.c:173-183 | for a name bound at most once, lookup after `unset` finds nothing |
| EnvStore.RemoveFirstKeepsOthers | shell.c:173-183 | `unset` leaves the lookup of any other name that is bound at most once unchanged, even when further names are duplicated |
| EnvStore.RemoveFirstCanReorderDuplicates | shell.c:179-180 | with duplicate names, swap-with-last can change what lookup of another name returns (a concrete store) |
| EnvStore.UnsetRevealsSecondBinding | shell.c:151-186 | after `set X 1`, `set X 2`, `unset X`, lookup of `X` yields `2` |
| EnvStore.VarStore.constructor | shell.c:16-17 | the table starts empty |
| EnvStore.VarStore.Get | shell.c:20-30 | `get_env_value` returns the first match's value or NULL, changes nothing, and the value holds no `$` |
| EnvStore.VarStore.Set | shell.c:160-162 | appends exactly `(name, value)` at index `env_var_count`; earlier entries and unused slots are untouched; the invariant (no `$` in names or values) is kept |
| EnvStore.VarStore.SwapOut | shell.c:177-181 | live slot `i` receives the last live entry and the count drops by one |
| EnvStore.VarStore.Unset | shell.c:173-184 | the live entries become `RemoveFirst` of the old ones; unused slots are untouched; the invariant is kept |
| Tokenizer.Strtok | shell.c:108-113 | one `strtok` call on the rest of the line: skip leading delimiters, cut the run up to the next delimiter, and resume after it; NULL when only delimiters remain; the rest is always shorter than the input |
| Tokenizer.Words | shell.c:108-114 | every token `strtok` hands out for the line, in order, with no cap; at most one token per character |
| Tokenizer.ArgTokens | shell.c:108-114 | the tokens the loop keeps: fewer than `MAX_ARGS`, and a prefix of all the tokens |
| Tokenizer.TokenLengthStopsAtDelim | shell.c:108 | the token `strtok` cuts holds no delimiter and ends at one or at the end |
| Tokenizer.StrtokYieldsWord | shell.c:108-113 | `strtok` returns NULL exactly on an all-delimiter rest, and otherwise a non-empty, delimiter-free token |
| Tokenizer.WordsAreWords | shell.c:108-113 | every token is non-empty and free of space, tab, CR and LF |
| Tokenizer.NoWordsIffBlank | shell.c:108-117 | a line yields no tokens exactly when it is empty or all delimiters |
| Tokenizer.ArgTokensAreCappedPrefix | shell.c:110-112 | at most 63 tokens are kept; they are the first tokens of the line, in order; either all tokens or exactly 63 |
| Tokenizer.StrtokOfWord | shell.c:108-113 | a word followed by a delimiter or the end is the next token, and scanning resumes after that delimiter |
| Tokenizer.WordsOfJoin | shell.c:108-114 | round trip: tokenizing words joined by single spaces gives back those words |
| Tokenizer.NormalizeIdempotent | shell.c:108-114 | re-tokenizing the space-joined tokens of a line gives the same tokens |
| Tokenizer.ArgTokensOfJoin | shell.c:110-112 | fewer than 64 words joined by spaces are all kept |
| Tokenizer.Tokenize | shell.c:107-115 | the tokenizing loop returns `argc` = the number of kept tokens, and stores them NULL-terminated; later slots are untouched |
| Substitution.ExpandAt | shell.c:46-63 | one pass of the inner loop: cut at the `$`, look up the key up to the next delimiter, splice in the value and what followed the key, or keep only the cut; the text before the `$` is always kept |
| Substitution.ExpandAtDropsDollar | shell.c:46-65 | each pass of the inner loop removes one `$` and, since values hold none, adds none (termination) |
| Substitution.SubstituteToken | shell.c:44-66 | the rewritten token holds no `$`, and a token without `$` is unchanged |
| Substitution.SubstituteAll | shell.c:36 | substitution keeps the number of tokens |
| Substitution.SubstituteAllAt | shell.c:36-38 | slot `i` after substitution depends on token `i` alone |
| Substitution.SubstituteAllClearsDollars | shell.c:36-67 | no token holds `$` afterwards, and tokens without `$` are unchanged |
| Substitution.SubstituteAllPlain | shell.c:38-40 | a vector with no `$` is left exactly as it was |
| Substitution.SubstituteWord | shell.c:46-63 | a token with its first `$` at `k` becomes `token[..k] + value` if the rest of the token is bound, and `token[..k]` otherwise |
| Substitution.SecondReferenceSwallowed | shell.c:46-63 | a token with a second `$` after its first becomes the text before the first `$`: the key holds the second `$`, and no stored name does |
| Substitution.TwoReferencesExample | shell.c:46-63 | `a$X$Y` becomes `a` with `X` and `Y` both bound |
| Substitution.ExpandToken | shell.c:38-66 | the inner loop on one token yields `SubstituteToken` of it |
| Substitution.ReplaceVariables | shell.c:33-69 | the vector is rewritten in place to `SubstituteAll` of its tokens, still NULL-terminated; later slots are untouched |
| Redirection.PlanOf | shell.c:189-212 | what the scan leaves: refused when the first redirection is the last token; otherwise the argument list is a prefix of the tokens, and at most one of input and output is redirected |
| Redirection.UntilNullReadsPrefix | shell.c:87 | `execvp` reads as its argument list exactly the slots before the first NULL |
| Redirection.OnlyFirstRedirectHonoured | shell.c:193-212 | only the first `<`/`>` is honoured: anything after its file name leaves the plan unchanged; input or output is that file, and background means an `&` came earlier |
| Redirection.PlanArgvIsOperatorFreePrefix | shell.c:193-213 | the argument list is the longest prefix of the tokens holding no `&`, `<` or `>` |
| Redirection.PlanBackgroundIff | shell.c:195-199 | background is set exactly when an `&` precedes the first redirection |
| Redirection.DanglingIff | shell.c:200-211 | a line is refused exactly when its first redirection is its last token |
| Redirection.CatExample | shell.c:193-212 | `cat < a > b &` runs `cat` in the foreground with input `a` and no output file |
| Redirection.ScanRedirections | shell.c:189-213 | the scanning loop returns `PlanOf` the tokens, and NULLs exactly the `&` slots before the first redirection, that redirection and its file slot |
| Shell.Dispatch | shell.c:121-214 | the built-in chain on the substituted tokens: never a no-op, and the store changes only through `set` or `unset` |
| Shell.Step | shell.c:105-118 | one line: a no-op exactly when it has no tokens, and a no-op leaves the store alone; otherwise the substituted tokens are dispatched |
| Shell.BlankLineIsNoOp | shell.c:116-117 | a line does nothing and leaves the store alone exactly when it is empty or all delimiters |
| Shell.StepOfJoin | shell.c:107-121 | a line typed as words is dispatched on their substituted forms |
| Shell.StepOnPlainWords | shell.c:107-121 | a line of `$`-free words is dispatched on those very words |
| Shell.DispatchKeepsNoDollarValues | shell.c:151-186 | the built-ins keep stored values, and stored names, free of `$` |
| Shell.StepKeepsNoDollarValues | shell.c:118-186 | every line keeps stored values free of `$`, the invariant that makes substitution terminate, and keeps names free of `$` |
| Shell.StoredEntryIsSubstituted | shell.c:157-162 | a line that grows the store appends exactly one entry after the old ones, whose name and value hold no `$` |
| Shell.OnlySetAndUnsetChangeStore | shell.c:121-214 | a line that changes the store starts, after substitution, with `set` or `unset` |
| Shell.SubstitutedHead | shell.c:38-40 | leading tokens without `$` are left unchanged by substitution |
| Shell.ExitIgnoresArguments | shell.c:121-124 | `quit`/`exit` end the shell whatever follows, store unchanged |
| Shell.CdLine | shell.c:125-138 | `cd` without an argument reports it; otherwise it asks for the substituted second token; store unchanged |
| Shell.ExternalLine | shell.c:187-214 | a typed command word that holds no `$` and is neither a built-in nor an operator reports a missing file name or launches the program named by that very word; the store is unchanged |
| Shell.SetLine | shell.c:151-164 | `set w1 w2 ...` appends one entry whose name and value are the substituted `w1` and `w2` (so `set X $Y` stores `Y`'s value) and ignores extra words. A full store is refused and left unchanged |
| Shell.SetPlainLine | shell.c:151-164 | for a `$`-free name and value: lookup of `name` afterwards keeps a previous binding and otherwise yields `value` |
| Shell.SetMissingArgumentLine | shell.c:153-156 | `set` with fewer than two arguments reports it and changes nothing |
| Shell.UnsetLine | shell.c:165-186 | `unset w1 ...` applies swap-with-last removal of the first entry named by the substituted `w1` (so `unset $N` removes the name `N` holds) and ignores extra words |
| Shell.UnsetMissingArgumentLine | shell.c:167-170 | `unset` without an argument reports it and changes nothing |
| Shell.ReferenceAfterSet | shell.c:157-162 | after `set name value`, `$name` expands to the earlier binding if there was one (first match), else to `value` |
| Shell.SubstitutedCommandWord | shell.c:118-124 | dispatch looks at the substituted first token: with `c` bound to `quit`, `$c` exits |
| Shell.ParseCommand | shell.c:105-215 | `parse_command` returns the outcome and leaves the store as `Step` prescribes; the store invariant is kept |

## Left out

- Process creation, `execvp`, `dup2`/`close`, `waitpid` and background
  children (`execute_command`, shell.c:72-102). An external command ends in
  a `Launch(plan)` outcome instead.
- The `open` calls for redirection, and what happens when they fail: a
  failed `open` (fd -1) is silently ignored by the child. The plan records
  the paths only.
- `chdir`, `getcwd` and the printing in `cd`/`pwd`, and the diagnostics
  written to stderr. These become the outcomes `ChangeDirectory`,
  `PrintWorkingDirectory` and `Report`. A `chdir` failure is not modelled.
- The prompt, the `fgets` loop and the newline trimming in `main`
  (shell.c:217-235). `MAX_INPUT_SIZE` truncation happens there and is not
  modelled.
- C memory layout. Tokens are modelled as independent strings, so the
  following are not represented:
  - `strcpy(args[i], temp)` writing back into the shared input buffer,
    which can overwrite later tokens;
  - overflow of `temp[1024]` and `key[128]`;
  - `strdup`/`free` ownership.
- EnvStore.VarStore.Set: requires a free slot (`count < 100`). The code
  writes past the table on a 101st `set`; `ParseCommand` refuses that case
  with `StoreFull` before calling `Set`.
- Redirection.ScanRedirections: a `<` or `>` as the last token yields
  `DanglingRedirect`. The code instead hands NULL to `open`, which is
  undefined behaviour.
- Substitution.ReplaceVariables: calls `ExpandToken` on every token rather
  than only on tokens with a `$`. For a token without `$`, the inner loop's
  first `strchr` test fails at once, so the result is the same as skipping
  it (shell.c:40).
- A command word that is itself an operator (`& ls`, `< f ls`) yields a plan
  with an empty argument list. The code then hands NULL to `execvp` as the
  program name; the model does not say what that does.
- Strings are sequences of characters, so a model line may contain `'\0'`.
  A C string cannot, since it ends at its first NUL; no lemma here depends
  on a NUL being absent, but such lines have no C counterpart.
- The slots of the argument array beyond the terminator. The C array is
  uninitialised there; the model starts it filled with NULLs, and no stage
  reads past the terminator.
