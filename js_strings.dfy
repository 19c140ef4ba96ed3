/**
 * The part of JavaScript's `String.prototype.replace` that the control uses:
 * the pattern is a string, so only its first occurrence is replaced, and the
 * replacement string is expanded by the GetSubstitution abstract operation
 * of ECMA-262 with no capture groups.
 */
module JsStrings {
  import opened Options

  /** `pat` occurs in `s` starting at index `i`. */
  predicate IsAt(s: string, pat: string, i: nat)
  {
    i + |pat| <= |s| && s[i..i + |pat|] == pat
  }

  /** The first index at or after `k` where `pat` occurs in `s`, if any. */
  function FindFrom(s: string, pat: string, k: nat): (r: Option<nat>)
    requires k <= |s|
    ensures r.Some? ==> k <= r.value && IsAt(s, pat, r.value)
    ensures r.Some? ==> forall j :: k <= j < r.value ==> !IsAt(s, pat, j)
    ensures r.None? ==> forall j :: k <= j ==> !IsAt(s, pat, j)
    decreases |s| - k
  {
    if IsAt(s, pat, k) then Some(k)
    else if k == |s| then None
    else FindFrom(s, pat, k + 1)
  }

  /** The index of the leftmost occurrence of `pat` in `s`, or `None` when there is none. */
  function FindFirst(s: string, pat: string): (r: Option<nat>)
    ensures r.Some? ==> IsAt(s, pat, r.value) && forall j: nat :: j < r.value ==> !IsAt(s, pat, j)
    ensures r.None? <==> forall j: nat :: !IsAt(s, pat, j)
  {
    FindFrom(s, pat, 0)
  }

  /**
   * GetSubstitution for a string pattern: `$$` stands for `$`, `$&` for the
   * matched text, `` $` `` for the text before the match and `$'` for the text
   * after it. With no capture groups `$1`..`$99` and `$<` are kept literally,
   * as is a `$` followed by anything else or by nothing.
   */
  function Substitution(rep: string, matched: string, before: string, after: string): (r: string)
    ensures '$' !in rep ==> r == rep
    decreases |rep|
  {
    if rep == [] then []
    else if rep[0] == '$' && |rep| >= 2 && rep[1] == '$' then "$" + Substitution(rep[2..], matched, before, after)
    else if rep[0] == '$' && |rep| >= 2 && rep[1] == '&' then matched + Substitution(rep[2..], matched, before, after)
    else if rep[0] == '$' && |rep| >= 2 && rep[1] == '`' then before + Substitution(rep[2..], matched, before, after)
    else if rep[0] == '$' && |rep| >= 2 && rep[1] == '\'' then after + Substitution(rep[2..], matched, before, after)
    else [rep[0]] + Substitution(rep[1..], matched, before, after)
  }

  /** Text with every `$` doubled, so that `Substitution` inserts it literally. */
  function Escape(x: string): (r: string)
    ensures |r| >= |x|
    ensures '$' !in x ==> r == x
  {
    if x == [] then []
    else if x[0] == '$' then "$$" + Escape(x[1..])
    else [x[0]] + Escape(x[1..])
  }

  /** `$$` stands for one `$`: escaped text is inserted as exactly that text. */
  lemma {:induction false} SubstitutionOfEscaped(x: string, matched: string, before: string, after: string)
    ensures Substitution(Escape(x), matched, before, after) == x
    decreases |x|
  {
    if x != [] {
      var e := Escape(x[1..]);
      SubstitutionOfEscaped(x[1..], matched, before, after);
      if x[0] == '$' {
        assert Escape(x) == "$$" + e;
        assert ("$$" + e)[2..] == e;
      } else {
        assert Escape(x) == [x[0]] + e;
        assert ([x[0]] + e)[1..] == e;
      }
      assert x == [x[0]] + x[1..];
    }
  }

  /** `$&`, `` $` `` and `$'` insert the match, the text before it and the text after it. */
  lemma SubstitutionOfMatch(matched: string, before: string, after: string)
    ensures Substitution("$&", matched, before, after) == matched
    ensures Substitution("$`", matched, before, after) == before
    ensures Substitution("$'", matched, before, after) == after
  {
    assert "$&"[2..] == [] && "$`"[2..] == [] && "$'"[2..] == [];
  }

  /**
   * `s.replace(pat, rep)` for a string `pat`: the leftmost occurrence of `pat`
   * is replaced by the expansion of `rep`; the text before and after it is kept,
   * and a string without `pat` is returned unchanged.
   */
  function ReplaceFirst(s: string, pat: string, rep: string): (r: string)
    ensures FindFirst(s, pat).None? ==> r == s
    ensures FindFirst(s, pat).Some? ==>
      var i := FindFirst(s, pat).value;
      var tail := |s| - i - |pat|;
      i + tail <= |r| && r[..i] == s[..i] && r[|r| - tail..] == s[i + |pat|..]
  {
    match FindFirst(s, pat)
    case None => s
    case Some(i) =>
      s[..i] + Substitution(rep, pat, s[..i], s[i + |pat|..]) + s[i + |pat|..]
  }

  /** The leftmost occurrence is unique: any index with no earlier occurrence is the one `FindFirst` returns. */
  lemma FirstOccurrence(s: string, pat: string, i: nat)
    requires IsAt(s, pat, i)
    requires forall j: nat :: j < i ==> !IsAt(s, pat, j)
    ensures FindFirst(s, pat) == Some(i)
  {
  }

  /**
   * With a replacement free of `$`, replacing the leftmost occurrence at `i`
   * splices `rep` in place of `pat` and nothing else.
   */
  lemma ReplaceFirstLiteral(s: string, pat: string, rep: string, i: nat)
    requires '$' !in rep
    requires IsAt(s, pat, i)
    requires forall j: nat :: j < i ==> !IsAt(s, pat, j)
    ensures ReplaceFirst(s, pat, rep) == s[..i] + rep + s[i + |pat|..]
  {
    FirstOccurrence(s, pat, i);
  }

  /** A string in which `pat` does not occur is left unchanged, whatever the replacement. */
  lemma ReplaceFirstAbsent(s: string, pat: string, rep: string)
    requires forall j: nat :: !IsAt(s, pat, j)
    ensures ReplaceFirst(s, pat, rep) == s
  {
  }
}
