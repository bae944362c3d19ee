// The environment a shader asks for: the word after a keyword.
module TargetEnvironment {
  import opened Text
  import opened Spaces

  // The word after the first occurrence of the keyword that is followed by
  // white space and a word.
  function TargetEnv(key: string, s: string): Option<string> {
    if EnvHere(key, s).Some? then EnvHere(key, s)
    else if s == "" then None
    else TargetEnv(key, s[1..])
  }

  function EnvHere(key: string, s: string): Option<string> {
    if key <= s then WordAfterGap(s[|key|..]) else None
  }

  function WordAfterGap(t: string): Option<string> {
    var gap := Run(t, true);
    var n := Run(t[gap..], false);
    if gap == 0 || n == 0 then None else Some(t[gap..gap + n])
  }

  // A gap of white space and then a whole word.
  ghost predicate GapAndWord(t: string, gap: nat, word: string) {
    gap > 0 && word != "" && gap + |word| <= |t| &&
    AllSpace(t[..gap]) && NoSpace(word) && t[gap..gap + |word|] == word &&
    (gap + |word| < |t| ==> IsSpace(t[gap + |word|]))
  }

  lemma {:induction false} RunIs(s: string, n: nat, space: bool)
    requires n <= |s| && forall i :: 0 <= i < n ==> IsSpace(s[i]) == space
    requires n < |s| ==> IsSpace(s[n]) != space
    ensures Run(s, space) == n
  {
  }

  lemma WordAfterGapIs(t: string, gap: nat, word: string)
    requires GapAndWord(t, gap, word)
    ensures WordAfterGap(t) == Some(word)
  {
    RunIs(t, gap, true);
    assert forall i :: 0 <= i < |word| ==> t[gap..][i] == t[gap..gap + |word|][i];
    RunIs(t[gap..], |word|, false);
  }

  // The keyword at position i, then a gap and a word.
  ghost predicate EnvAt(key: string, s: string, i: nat, gap: nat, word: string) {
    i + |key| <= |s| && s[i..i + |key|] == key && GapAndWord(s[i + |key|..], gap, word)
  }

  lemma EnvHereIs(key: string, s: string, gap: nat, word: string)
    ensures EnvAt(key, s, 0, gap, word) ==> EnvHere(key, s) == Some(word)
  {
    if EnvAt(key, s, 0, gap, word) {
      WordAfterGapIs(s[|key|..], gap, word);
    }
  }

  lemma EnvAtTail(key: string, s: string, i: nat, gap: nat, word: string)
    requires s != ""
    ensures EnvAt(key, s, i + 1, gap, word) == EnvAt(key, s[1..], i, gap, word)
  {
  }

  // Where the search stops.
  function EnvIndex(key: string, s: string): nat {
    if EnvHere(key, s).Some? || s == "" then 0 else 1 + EnvIndex(key, s[1..])
  }

  // Every keyword with a word is found or comes after the one that is found.
  lemma {:induction false} TargetEnvLeftmost(key: string, s: string, i: nat, gap: nat, word: string)
    requires key != "" && EnvAt(key, s, i, gap, word)
    ensures TargetEnv(key, s).Some? && EnvIndex(key, s) <= i
    ensures EnvIndex(key, s) == i ==> TargetEnv(key, s) == Some(word)
    decreases i
  {
    if i == 0 {
      EnvHereIs(key, s, gap, word);
    } else if EnvHere(key, s).None? {
      EnvAtTail(key, s, i - 1, gap, word);
      TargetEnvLeftmost(key, s[1..], i - 1, gap, word);
    }
  }

  // What is found is the word of a keyword.
  lemma {:induction false} TargetEnvFound(key: string, s: string) returns (gap: nat)
    requires key != "" && TargetEnv(key, s).Some?
    ensures EnvAt(key, s, EnvIndex(key, s), gap, TargetEnv(key, s).value)
  {
    if EnvHere(key, s).Some? {
      gap := WordAfterGapFound(s[|key|..]);
      assert s[0..0 + |key|] == key;
    } else {
      gap := TargetEnvFound(key, s[1..]);
      EnvAtTail(key, s, EnvIndex(key, s[1..]), gap, TargetEnv(key, s).value);
    }
  }

  lemma WordAfterGapFound(t: string) returns (gap: nat)
    requires WordAfterGap(t).Some?
    ensures GapAndWord(t, gap, WordAfterGap(t).value)
  {
    gap := Run(t, true);
    var n := Run(t[gap..], false);
    assert forall k :: 0 <= k < n ==> t[gap..gap + n][k] == t[gap..][k];
  }
}
