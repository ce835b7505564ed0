/**
 * The pieces of the C library that the shell's command processing leans on:
 * a NULL-able result, the token delimiter set, and pure models of `strchr`
 * and `strpbrk`. Strings are `seq<char>`; a C string's terminating NUL is the
 * end of the sequence.
 */
module CStr {

  /** A C pointer that may be NULL: `None` is NULL. */
  datatype Option<+T> = None | Some(value: T)

  /** The delimiter set " \t\r\n" used by both `strtok` and `strpbrk`. */
  predicate IsDelim(c: char)
  {
    c == ' ' || c == '\t' || c == '\r' || c == '\n'
  }

  /** A token as `strtok` hands it out: non-empty and free of delimiters. */
  predicate IsWord(w: string)
  {
    |w| > 0 && forall i :: 0 <= i < |w| ==> !IsDelim(w[i])
  }

  /** True of an empty line and of a line made only of delimiters. */
  predicate AllDelims(s: string)
  {
    forall i :: 0 <= i < |s| ==> IsDelim(s[i])
  }

  /** `strchr(s, c)`: the index of the first occurrence of `c`, or NULL. */
  function IndexOf(s: string, c: char): (r: Option<nat>)
    ensures r.None? <==> c !in s
    ensures r.Some? ==> r.value < |s| && s[r.value] == c && c !in s[..r.value]
  {
    if s == [] then None
    else if s[0] == c then Some(0)
    else
      match IndexOf(s[1..], c)
      case None =>
        assert s == [s[0]] + s[1..];
        None
      case Some(k) =>
        assert s[..k + 1] == [s[0]] + s[1..][..k];
        Some(k + 1)
  }

  /**
   * `strpbrk(s + from, DELIM)`: the index of the first delimiter at or after
   * `from`, where a NULL result (no delimiter) is given as `|s|`, the index
   * of the terminator.
   */
  function DelimEnd(s: string, from: nat): (e: nat)
    requires from <= |s|
    ensures from <= e <= |s|
    ensures forall i :: from <= i < e ==> !IsDelim(s[i])
    ensures e < |s| ==> IsDelim(s[e])
    decreases |s| - from
  {
    if from == |s| || IsDelim(s[from]) then from else DelimEnd(s, from + 1)
  }

  /** The number of `$` characters in `s`. */
  function Dollars(s: string): nat
  {
    multiset(s)['$']
  }
}
