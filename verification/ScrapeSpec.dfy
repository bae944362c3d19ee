// What the parser makes of a sequence of tokens: the shaders it finds, where
// they start and end, and how it fails.
module ScrapeSpec {
  import opened Text
  import opened Macros
  import opened Shaders
  import opened Spaces

  // The generator runs dry inside a macro, or a token is not the expected one.
  datatype Error = StopIteration | AssertionError

  datatype MacroResult = Failed(error: Error) | Found(shot: Shot, next: nat)

  datatype ScrapeResult = ScrapeResult(shots: seq<Shot>, error: Option<Error>)

  // The text of tokens k up to n.
  function Spell(ts: seq<string>, k: nat, n: nat): string
    requires k <= n <= |ts|
  {
    if k == n then "" else Spell(ts, k, n - 1) + ts[n - 1]
  }

  lemma {:induction false} SpellIsConcat(ts: seq<string>, k: nat, n: nat)
    requires k <= n <= |ts|
    ensures Spell(ts, k, n) == Concat(ts[k..n])
    decreases n - k
  {
    if k < n {
      SpellIsConcat(ts, k, n - 1);
      assert ts[k..][..n - 1 - k] == ts[k..n - 1] && ts[k..][..n - k] == ts[k..n];
      ConcatSnoc(ts[k..], n - 1 - k);
    }
  }

  function Weight(t: string): int {
    if t == "(" then 1 else if t == ")" then -1 else 0
  }

  // The token that closes depth open parentheses, from k on; |ts| if none does.
  function CloseAt(ts: seq<string>, k: nat, depth: nat): (c: nat)
    requires k <= |ts| && depth > 0
    ensures k <= c <= |ts|
    ensures c < |ts| ==> ts[c] == ")"
    decreases |ts| - k
  {
    if k == |ts| then k
    else if depth + Weight(ts[k]) == 0 then k
    else CloseAt(ts, k + 1, depth + Weight(ts[k]))
  }

  // The text of a shader whose first token is k, and the line after its end.
  function Body(ts: seq<string>, k: nat, stage: string, startLine: nat, eofLine: nat): MacroResult
    requires k <= |ts|
  {
    var c := CloseAt(ts, k, 1);
    var next := if c < |ts| then c + 1 else c;
    var endLine := if c < |ts| then LineAt(ts, next) else eofLine;
    Found(Shot(stage, Spell(ts, k, c), startLine, endLine), next)
  }

  // Stage and comma, then the body.
  function StageAndBody(ts: seq<string>, k: nat, startLine: nat, eofLine: nat): MacroResult {
    if k + 1 >= |ts| then Failed(StopIteration)
    else if ts[k + 1] != "," then Failed(AssertionError)
    else Body(ts, k + 2, Strip(ts[k]), startLine, eofLine)
  }

  // The arguments of the macro whose name is token k - 1.
  function Macro(ts: seq<string>, k: nat, name: string, eofLine: nat): MacroResult {
    if k >= |ts| then Failed(StopIteration)
    else if ts[k] != "(" then Failed(AssertionError)
    else
      var startLine := LineAt(ts, k + 1);
      if !IsCreate(name) then StageAndBody(ts, k + 1, startLine, eofLine)
      else if k + 2 >= |ts| then Failed(StopIteration)
      else if ts[k + 2] != "," then Failed(AssertionError)
      else StageAndBody(ts, k + 3, startLine, eofLine)
  }

  function Scrape(ts: seq<string>, k: nat, eofLine: nat): ScrapeResult
    decreases |ts| - k
  {
    if k >= |ts| then ScrapeResult([], None)
    else if !IsMacro(ts[k]) then Scrape(ts, k + 1, eofLine)
    else
      match Macro(ts, k + 1, ts[k], eofLine)
      case Failed(e) => ScrapeResult([], Some(e))
      case Found(shot, next) =>
        var rest := Scrape(ts, next, eofLine);
        ScrapeResult([shot] + rest.shots, rest.error)
  }

  // The two cases of the scan.
  lemma ScrapeOther(ts: seq<string>, k: nat, eofLine: nat)
    requires k < |ts| && !IsMacro(ts[k])
    ensures Scrape(ts, k, eofLine) == Scrape(ts, k + 1, eofLine)
  {
  }

  lemma ScrapeMacro(ts: seq<string>, k: nat, eofLine: nat, m: MacroResult)
    requires k < |ts| && IsMacro(ts[k]) && m == Macro(ts, k + 1, ts[k], eofLine)
    ensures m.Failed? ==> Scrape(ts, k, eofLine) == ScrapeResult([], Some(m.error))
    ensures m.Found? ==>
      k < m.next <= |ts| &&
      Scrape(ts, k, eofLine).shots == [m.shot] + Scrape(ts, m.next, eofLine).shots &&
      Scrape(ts, k, eofLine).error == Scrape(ts, m.next, eofLine).error
  {
  }

  // Always true: the trigger that keeps the definition of Finds and Reads folded until a
  // proof names it.
  predicate OpenFinds(w: bool) {
    true
  }

  // Between tokens k and n the scan finds shots; folded.
  ghost predicate Finds(ts: seq<string>, k: nat, n: nat, eofLine: nat, shots: seq<Shot>) {
    k <= n <= |ts| && forall w {:trigger OpenFinds(w)} :: OpenFinds(w) ==>
      Scrape(ts, k, eofLine) == ScrapeResult(shots + Scrape(ts, n, eofLine).shots, Scrape(ts, n, eofLine).error)
  }

  // Token k is a macro name, and its call is read up to token n; folded.
  ghost predicate Reads(ts: seq<string>, k: nat, eofLine: nat, shot: Shot, n: nat) {
    k < |ts| && forall w {:trigger OpenFinds(w)} :: OpenFinds(w) ==>
      IsMacro(ts[k]) && Macro(ts, k + 1, ts[k], eofLine) == Found(shot, n)
  }

  lemma FindsNothing(ts: seq<string>, k: nat, eofLine: nat)
    requires k <= |ts|
    ensures Finds(ts, k, k, eofLine, [])
  {
  }

  lemma FindsOther(ts: seq<string>, k: nat, eofLine: nat)
    requires k < |ts| && !IsMacro(ts[k])
    ensures Finds(ts, k, k + 1, eofLine, [])
  {
  }

  lemma FindsMacro(ts: seq<string>, k: nat, eofLine: nat, shot: Shot, n: nat)
    requires Reads(ts, k, eofLine, shot, n)
    ensures k < n && Finds(ts, k, n, eofLine, [shot])
  {
    assert OpenFinds(true);
    ScrapeMacro(ts, k, eofLine, Found(shot, n));
  }

  lemma FindsJoin(ts: seq<string>, k: nat, m: nat, n: nat, eofLine: nat, a: seq<Shot>, b: seq<Shot>)
    requires Finds(ts, k, m, eofLine, a) && Finds(ts, m, n, eofLine, b)
    ensures Finds(ts, k, n, eofLine, a + b)
  {
  }

  lemma FindsAll(ts: seq<string>, k: nat, eofLine: nat, shots: seq<Shot>)
    requires Finds(ts, k, |ts|, eofLine, shots)
    ensures Scrape(ts, k, eofLine) == ScrapeResult(shots, None)
  {
    assert OpenFinds(true) && shots + [] == shots;
  }

  lemma FindsError(ts: seq<string>, k: nat, m: nat, eofLine: nat, shots: seq<Shot>, e: Error)
    requires Finds(ts, k, m, eofLine, shots)
    requires m < |ts| && IsMacro(ts[m]) && Macro(ts, m + 1, ts[m], eofLine) == Failed(e)
    ensures Scrape(ts, k, eofLine) == ScrapeResult(shots, Some(e))
  {
    assert OpenFinds(true) && shots + [] == shots;
    ScrapeMacro(ts, m, eofLine, Failed(e));
  }

  lemma ReadsMacro(ts: seq<string>, k: nat, eofLine: nat, m: MacroResult)
    requires k < |ts| && IsMacro(ts[k]) && m == Macro(ts, k + 1, ts[k], eofLine) && m.Found?
    ensures Reads(ts, k, eofLine, m.shot, m.next) && k < m.next
  {
    ScrapeMacro(ts, k, eofLine, m);
  }
}
