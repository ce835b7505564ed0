/**
 * The external-command path of `parse_command`: one pass over the
 * NULL-terminated argument vector that blanks out each `&` before the first
 * `<` or `>`, and that redirection with the file name after it, and records
 * what the child process is to be started with. The pass stops right after the first
 * redirection, because blanking the file-name slot also ends the loop.
 *
 * File descriptors are not modelled: the plan records the path that `open`
 * would be given.
 */
module Redirection {
  import opened CStr
  import opened Tokenizer

  /** How the child is to be started: its argument list, and where its streams go. */
  datatype ExecPlan = ExecPlan(
    argv: seq<string>,
    background: bool,
    input: Option<string>,
    output: Option<string>)

  /** The pass either yields a plan or meets a `<` or `>` with no file name after it. */
  datatype Scan = Planned(plan: ExecPlan) | DanglingRedirect

  /** The two redirection operators. */
  const Redirects: set<string> := {"<", ">"}

  /** Every token the pass treats specially. */
  const Operators: set<string> := {"&", "<", ">"}

  /** The index of the first token in `ops`, or `|toks|` when there is none. */
  function FirstOf(toks: seq<string>, ops: set<string>): (r: nat)
    ensures r <= |toks|
    ensures forall j :: 0 <= j < r ==> toks[j] !in ops
    ensures r < |toks| ==> toks[r] in ops
  {
    if toks == [] || toks[0] in ops then 0 else 1 + FirstOf(toks[1..], ops)
  }

  /** What `execvp` takes as the argument list: the slots before the first NULL. */
  function UntilNull(slots: seq<Option<string>>): seq<string>
  {
    if slots == [] || slots[0].None? then [] else [slots[0].value] + UntilNull(slots[1..])
  }

  /** Slots holding `toks[..e]` and then a NULL are read as exactly `toks[..e]`. */
  lemma {:induction false} UntilNullReadsPrefix(slots: seq<Option<string>>, toks: seq<string>, e: nat)
    requires e < |slots| && e <= |toks|
    requires forall j :: 0 <= j < e ==> slots[j] == Some(toks[j])
    requires slots[e].None?
    ensures UntilNull(slots) == toks[..e]
  {
    if e > 0 {
      UntilNullReadsPrefix(slots[1..], toks[1..], e - 1);
      assert toks[..e] == [toks[0]] + toks[1..][..e - 1];
    }
  }

  /**
   * The outcome of the pass over the substituted tokens `toks`:
   *  - a `<` or `>` that is the last token has no file name: rejected;
   *  - otherwise the argument list is the tokens before the first operator,
   *    the child runs in the background exactly when an `&` comes before the
   *    first redirection, and only that first redirection is honoured.
   */
  function PlanOf(toks: seq<string>): (r: Scan)
    ensures r.Planned? ==> r.plan.argv <= toks && (r.plan.input.None? || r.plan.output.None?)
  {
    var r := FirstOf(toks, Redirects);
    if r + 1 == |toks| then DanglingRedirect
    else
      Planned(ExecPlan(
        toks[..FirstOf(toks, Operators)],
        "&" in toks[..r],
        if r < |toks| && toks[r] == "<" then Some(toks[r + 1]) else None,
        if r < |toks| && toks[r] == ">" then Some(toks[r + 1]) else None))
  }

  /** `FirstOf` is determined by its two defining facts. */
  lemma FirstOfIs(toks: seq<string>, ops: set<string>, k: nat)
    requires k <= |toks|
    requires forall j :: 0 <= j < k ==> toks[j] !in ops
    requires k < |toks| ==> toks[k] in ops
    ensures FirstOf(toks, ops) == k
  {
  }

  /**
   * Only the first redirection is honoured: whatever follows its file name,
   * including another `<` or `>` or an `&`, has no effect on the plan.
   */
  lemma OnlyFirstRedirectHonoured(front: seq<string>, op: string, file: string, back: seq<string>)
    requires forall j :: 0 <= j < |front| ==> front[j] !in Redirects
    requires op in Redirects
    ensures PlanOf(front + [op, file] + back) == PlanOf(front + [op, file])
    ensures PlanOf(front + [op, file]).Planned?
    ensures var p := PlanOf(front + [op, file]).plan;
      p.input == (if op == "<" then Some(file) else None) &&
      p.output == (if op == ">" then Some(file) else None) &&
      p.background == ("&" in front)
  {
    var short := front + [op, file];
    var long := short + back;
    var n := |front|;
    FirstOfIs(short, Redirects, n);
    FirstOfIs(long, Redirects, n);
    assert short[..n] == front && long[..n] == front;
    var e := FirstOf(short, Operators);
    assert short[n] in Operators;
    FirstOfIs(long, Operators, e);
    assert long[..e] == short[..e];
  }

  /**
   * The argument list is the longest operator-free run at the head of the
   * tokens: a prefix of them, holding no `&`, `<` or `>`, and ended by one of
   * those or by the end of the tokens.
   */
  lemma PlanArgvIsOperatorFreePrefix(toks: seq<string>)
    requires PlanOf(toks).Planned?
    ensures var argv := PlanOf(toks).plan.argv;
      argv <= toks &&
      (forall j :: 0 <= j < |argv| ==> argv[j] !in Operators) &&
      (|argv| == |toks| || toks[|argv|] in Operators)
  {
  }

  /** The child runs in the background exactly when an `&` comes before the first redirection. */
  lemma PlanBackgroundIff(toks: seq<string>)
    requires PlanOf(toks).Planned?
    ensures PlanOf(toks).plan.background <==>
      exists j :: 0 <= j < |toks| && toks[j] == "&" && forall k :: 0 <= k < j ==> toks[k] !in Redirects
  {
    var r := FirstOf(toks, Redirects);
    if PlanOf(toks).plan.background {
      var j :| 0 <= j < r && toks[..r][j] == "&";
      assert toks[j] == "&";
    } else {
      forall j | 0 <= j < |toks| && toks[j] == "&" ensures exists k :: 0 <= k < j && toks[k] in Redirects {
        if j >= r {
          assert toks[r] in Redirects;
          assert j != r;
        }
      }
    }
  }

  /** A plan is refused exactly when the first redirection is the last token. */
  lemma DanglingIff(toks: seq<string>)
    ensures PlanOf(toks) == DanglingRedirect <==>
      |toks| > 0 && toks[|toks| - 1] in Redirects &&
      forall j :: 0 <= j < |toks| - 1 ==> toks[j] !in Redirects
  {
    if |toks| > 0 && toks[|toks| - 1] in Redirects && forall j :: 0 <= j < |toks| - 1 ==> toks[j] !in Redirects {
      FirstOfIs(toks, Redirects, |toks| - 1);
    }
  }

  /** `cat < a > b &`: input from `a`; the `> b` and the `&` after it are never reached. */
  lemma CatExample()
    ensures PlanOf(["cat", "<", "a", ">", "b", "&"]) ==
      Planned(ExecPlan(["cat"], false, Some("a"), None))
  {
    OnlyFirstRedirectHonoured(["cat"], "<", "a", [">", "b", "&"]);
    var toks := ["cat", "<", "a"];
    FirstOfIs(toks, Operators, 1);
    assert toks[..1] == ["cat"];
  }

  /** The slots the pass sets to NULL: each `&` before the first redirection, that redirection and its file name. */
  ghost predicate Cleared(toks: seq<string>, j: nat)
  {
    var r := FirstOf(toks, Redirects);
    (j < r && toks[j] == "&") || (r < |toks| && (j == r || j == r + 1))
  }

  /**
   * The scanning loop: walk the vector until a NULL; an `&` sets the
   * background flag and is blanked; a `<` or `>` records the slot after it
   * as the file, and blanks both slots, which ends the walk.
   */
  method ScanRedirections(args: array<Option<string>>, ghost toks: seq<string>) returns (result: Scan)
    requires NullTerminated(args[..], toks)
    modifies args
    ensures result == PlanOf(toks)
    ensures forall j :: 0 <= j < args.Length ==>
      args[j] == if Cleared(toks, j) then None else old(args[j])
  {
    ghost var r := FirstOf(toks, Redirects);
    var background := false;
    var input: Option<string> := None;
    var output: Option<string> := None;
    var dangling := false;
    var i := 0;
    while args[i].Some?
      invariant i <= r + 1 && i <= |toks|
      invariant i <= r ==> background == ("&" in toks[..i]) && input.None? && output.None? && !dangling
      invariant i <= r ==> forall j :: 0 <= j < args.Length ==>
        args[j] == if j < i && toks[j] == "&" then None else old(args[j])
      invariant i == r + 1 ==> r < |toks| && background == ("&" in toks[..r]) && dangling == (r + 1 == |toks|)
      invariant i == r + 1 && !dangling ==>
        input == (if toks[r] == "<" then Some(toks[r + 1]) else None) &&
        output == (if toks[r] == ">" then Some(toks[r + 1]) else None)
      invariant i == r + 1 ==> forall j :: 0 <= j < args.Length ==>
        args[j] == if Cleared(toks, j) then None else old(args[j])
      decreases |toks| - i
    {
      var a := args[i].value;
      assert toks[..i + 1] == toks[..i] + [a];
      if a == "&" {
        background := true;
        args[i] := None;
      } else if a == "<" || a == ">" {
        dangling := args[i + 1].None?;
        if a == "<" {
          input := args[i + 1];
        } else {
          output := args[i + 1];
        }
        args[i] := None;
        args[i + 1] := None;
      }
      i := i + 1;
    }
    if dangling {
      return DanglingRedirect;
    }
    ghost var e := FirstOf(toks, Operators);
    assert r < |toks| ==> toks[r] in Operators;
    UntilNullReadsPrefix(args[..], toks, e);
    result := Planned(ExecPlan(UntilNull(args[..]), background, input, output));
  }
}
