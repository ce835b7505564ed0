/**
 * The tokenizing loop at the head of `parse_command`: repeated `strtok`
 * calls on the input line, stored one by one into the fixed argument vector
 * `args[MAX_ARGS]` until the tokens run out or the vector is full, then
 * NULL-terminated.
 *
 * `strtok` keeps a pointer into the line between calls; here that pointer is
 * the suffix of the line still to be scanned.
 */
module Tokenizer {
  import opened CStr

  /** MAX_ARGS: the size of the argument vector, terminator included. */
  const MaxArgs: nat := 64

  /** `strcspn(s, DELIM)`: the length of the leading run of non-delimiters. */
  function TokenLength(s: string): (n: nat)
    ensures n <= |s|
  {
    if s != [] && !IsDelim(s[0]) then 1 + TokenLength(s[1..]) else 0
  }

  /** The run `TokenLength` measures holds no delimiter and ends at one, or at the end. */
  lemma {:induction false} TokenLengthStopsAtDelim(s: string)
    ensures forall i :: 0 <= i < TokenLength(s) ==> !IsDelim(s[i])
    ensures TokenLength(s) < |s| ==> IsDelim(s[TokenLength(s)])
  {
    if s != [] && !IsDelim(s[0]) {
      TokenLengthStopsAtDelim(s[1..]);
    }
  }

  /** A delimiter-free prefix followed by a delimiter (or the end) is measured exactly. */
  lemma {:induction false} TokenLengthOfWord(w: string, rest: string)
    requires forall i :: 0 <= i < |w| ==> !IsDelim(w[i])
    requires rest == [] || IsDelim(rest[0])
    ensures TokenLength(w + rest) == |w|
  {
    if w == [] {
      assert w + rest == rest;
    } else {
      assert (w + rest)[1..] == w[1..] + rest;
      TokenLengthOfWord(w[1..], rest);
    }
  }

  /**
   * One `strtok` call: skip delimiters, take the following run of
   * non-delimiters as the token, and resume after the delimiter that ended it
   * (which `strtok` overwrites with NUL). NULL when only delimiters remain.
   */
  function Strtok(s: string): (r: Option<(string, string)>)
    ensures r.Some? ==> |r.value.1| < |s|
    decreases |s|
  {
    if s == [] then None
    else if IsDelim(s[0]) then Strtok(s[1..])
    else
      var n := TokenLength(s);
      Some((s[..n], if n < |s| then s[n + 1..] else []))
  }

  /** `strtok` yields NULL exactly on an all-delimiter rest, and otherwise a word. */
  lemma {:induction false} StrtokYieldsWord(s: string)
    ensures Strtok(s).None? <==> AllDelims(s)
    ensures Strtok(s).Some? ==> IsWord(Strtok(s).value.0)
    decreases |s|
  {
    if s != [] {
      if IsDelim(s[0]) {
        StrtokYieldsWord(s[1..]);
        assert AllDelims(s) <==> AllDelims(s[1..]) by {
          if AllDelims(s[1..]) {
            forall i | 0 <= i < |s| ensures IsDelim(s[i]) {
              if i > 0 { assert s[i] == s[1..][i - 1]; }
            }
          }
        }
      } else {
        TokenLengthStopsAtDelim(s);
      }
    }
  }

  /** Every element is a word. */
  ghost predicate AllWords(ws: seq<string>)
  {
    forall i :: 0 <= i < |ws| ==> IsWord(ws[i])
  }

  /** Every token `strtok` would hand out for `s`, in order, with no cap. */
  function Words(s: string): (ws: seq<string>)
    ensures |ws| <= |s|
    decreases |s|
  {
    match Strtok(s)
    case None => []
    case Some((t, rest)) => [t] + Words(rest)
  }

  /** Every token is non-empty and holds no space, tab, CR or LF. */
  lemma {:induction false} WordsAreWords(s: string)
    ensures AllWords(Words(s))
    decreases |s|
  {
    StrtokYieldsWord(s);
    if Strtok(s).Some? {
      WordsAreWords(Strtok(s).value.1);
    }
  }

  /** The tokens the loop keeps: the first MAX_ARGS - 1 of them. */
  function ArgTokens(line: string): (r: seq<string>)
    ensures |r| < MaxArgs && r <= Words(line)
  {
    var ws := Words(line);
    if |ws| < MaxArgs then ws else ws[..MaxArgs - 1]
  }

  /** The tokens joined by single spaces: the whitespace-normalised line. */
  function Join(ws: seq<string>): string
  {
    if ws == [] then []
    else if |ws| == 1 then ws[0]
    else ws[0] + " " + Join(ws[1..])
  }

  /** `slots` holds `toks` in its first `|toks|` cells, followed by a NULL. */
  ghost predicate NullTerminated(slots: seq<Option<string>>, toks: seq<string>)
  {
    |toks| < |slots| &&
    (forall i :: 0 <= i < |toks| ==> slots[i] == Some(toks[i])) &&
    slots[|toks|] == None
  }

  /** A line yields no tokens exactly when it is empty or all delimiters. */
  lemma NoWordsIffBlank(line: string)
    ensures Words(line) == [] <==> AllDelims(line)
  {
    StrtokYieldsWord(line);
  }

  /** The cap: at most MAX_ARGS - 1 tokens, each a word, and they begin the line's token list. */
  lemma ArgTokensAreCappedPrefix(line: string)
    ensures |ArgTokens(line)| <= MaxArgs - 1
    ensures ArgTokens(line) <= Words(line)
    ensures |ArgTokens(line)| == |Words(line)| || |ArgTokens(line)| == MaxArgs - 1
    ensures AllWords(ArgTokens(line))
  {
    WordsAreWords(line);
  }

  /** A word followed by a delimiter (or the end) is the next token, and the rest resumes after that delimiter. */
  lemma StrtokOfWord(w: string, rest: string)
    requires IsWord(w)
    requires rest == [] || IsDelim(rest[0])
    ensures Strtok(w + rest) == Some((w, if rest == [] then [] else rest[1..]))
  {
    var s := w + rest;
    TokenLengthOfWord(w, rest);
    assert s[0] == w[0];
    assert s[..|w|] == w;
    if rest != [] {
      assert s[|w| + 1..] == rest[1..];
    }
  }

  /**
   * Round trip: tokenizing words joined by single spaces gives back exactly
   * those words, in order.
   */
  lemma {:induction false} WordsOfJoin(ws: seq<string>)
    requires AllWords(ws)
    ensures Words(Join(ws)) == ws
  {
    if |ws| == 1 {
      StrtokOfWord(ws[0], []);
      assert ws[0] + [] == ws[0];
    } else if |ws| > 1 {
      var tail := Join(ws[1..]);
      StrtokOfWord(ws[0], " " + tail);
      assert Join(ws) == ws[0] + (" " + tail);
      assert (" " + tail)[1..] == tail;
      WordsOfJoin(ws[1..]);
    }
  }

  /**
   * Normalising is idempotent: the joined token list of a line tokenizes
   * back to the same list.
   */
  lemma NormalizeIdempotent(line: string)
    ensures Words(Join(Words(line))) == Words(line)
  {
    WordsAreWords(line);
    WordsOfJoin(Words(line));
  }

  /** Fewer than MAX_ARGS words joined by spaces are all kept by the tokenizing loop. */
  lemma ArgTokensOfJoin(ws: seq<string>)
    requires AllWords(ws) && |ws| < MaxArgs
    ensures ArgTokens(Join(ws)) == ws
  {
    WordsOfJoin(ws);
  }

  /** One `strtok` call peels the first token off the list. */
  lemma WordsStep(s: string)
    requires Strtok(s).Some?
    ensures Words(s) == [Strtok(s).value.0] + Words(Strtok(s).value.1)
  {
  }

  /** When the loop stops, the tokens it stored are exactly the capped list. */
  lemma LoopKeepsArgTokens(line: string, taken: seq<string>, rest: string)
    requires Words(line) == taken + Words(rest)
    requires |taken| <= MaxArgs - 1
    requires Strtok(rest).None? || |taken| == MaxArgs - 1
    ensures ArgTokens(line) == taken
  {
    if Strtok(rest).Some? {
      assert Words(line)[..MaxArgs - 1] == taken;
    }
  }

  /**
   * The tokenizing loop: call `strtok` until it yields NULL or MAX_ARGS - 1
   * slots are filled, storing each token; then store the terminating NULL.
   */
  method Tokenize(line: string, args: array<Option<string>>) returns (argc: nat)
    requires args.Length == MaxArgs
    modifies args
    ensures argc == |ArgTokens(line)|
    ensures NullTerminated(args[..], ArgTokens(line))
    ensures forall j :: argc < j < args.Length ==> args[j] == old(args[j])
  {
    argc := 0;
    var rest := line;  // strtok's saved position
    ghost var taken: seq<string> := [];
    ghost var all := Words(line);
    var token := Strtok(line);
    while token.Some? && argc < MaxArgs - 1
      invariant argc == |taken| <= MaxArgs - 1
      invariant token == Strtok(rest)
      invariant all == taken + Words(rest)
      invariant forall j :: 0 <= j < argc ==> args[j] == Some(taken[j])
      invariant forall j :: argc <= j < args.Length ==> args[j] == old(args[j])
      decreases |rest|
    {
      ghost var next := token.value.1;
      WordsStep(rest);
      assert all == (taken + [token.value.0]) + Words(next);
      args[argc] := Some(token.value.0);
      taken := taken + [token.value.0];
      argc := argc + 1;
      rest := token.value.1;
      token := Strtok(rest);
    }
    LoopKeepsArgTokens(line, taken, rest);
    ghost var before := args[..];
    args[argc] := None;
    assert args[..] == before[argc := None];
  }
}
