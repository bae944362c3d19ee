// What the parser's results mean on the tokens of a file: the shortest balanced
// source of each call, and the lines it starts and ends on.
module ScrapeLines {
  import opened Text
  import opened Macros
  import opened Shaders
  import opened ScrapeSpec

  // Opening minus closing parentheses among tokens k up to n.
  function Depth(ts: seq<string>, k: nat, n: nat): int
    requires k <= n <= |ts|
  {
    if k == n then 0 else Depth(ts, k, n - 1) + Weight(ts[n - 1])
  }

  // Tokens k up to c are balanced, no prefix of them closes more than it opens,
  // and token c closes the macro.
  ghost predicate ClosesAt(ts: seq<string>, k: nat, c: nat) {
    k <= c < |ts| && ts[c] == ")" && Depth(ts, k, c) == 0 && forall j :: k <= j <= c ==> Depth(ts, k, j) >= 0
  }

  lemma {:induction false} DepthSplit(ts: seq<string>, k: nat, m: nat, n: nat)
    requires k <= m <= n <= |ts|
    ensures Depth(ts, k, n) == Depth(ts, k, m) + Depth(ts, m, n)
    decreases n - m
  {
    if m < n {
      DepthSplit(ts, k, m, n - 1);
    }
  }

  lemma {:induction false} CloseAtDepth(ts: seq<string>, k: nat, depth: nat)
    requires k <= |ts| && depth > 0
    ensures var c := CloseAt(ts, k, depth);
      (forall j :: k <= j <= c ==> depth + Depth(ts, k, j) > 0) &&
      (c < |ts| ==> depth + Depth(ts, k, c + 1) == 0)
    decreases |ts| - k
  {
    if k < |ts| && depth + Weight(ts[k]) > 0 {
      var c := CloseAt(ts, k, depth);
      CloseAtDepth(ts, k + 1, depth + Weight(ts[k]));
      forall j | k + 1 <= j <= |ts|
        ensures Depth(ts, k, j) == Weight(ts[k]) + Depth(ts, k + 1, j)
      {
        DepthSplit(ts, k, k + 1, j);
      }
    }
  }

  // The scan stops at the first token that closes the macro, or nowhere.
  lemma CloseAtIsShortest(ts: seq<string>, k: nat, n: nat)
    requires k <= |ts|
    ensures var c := CloseAt(ts, k, 1);
      (c < |ts| ==> ClosesAt(ts, k, c)) && (ClosesAt(ts, k, n) ==> c == n)
  {
    CloseAtDepth(ts, k, 1);
    var c := CloseAt(ts, k, 1);
    if ClosesAt(ts, k, n) {
      assert 1 + Depth(ts, k, n + 1) == 0;
    }
  }

  // ----- lines -----

  lemma {:induction false} LineAtMonotone(ts: seq<string>, k: nat, n: nat)
    requires k <= n <= |ts|
    ensures LineAt(ts, k) <= LineAt(ts, n)
    decreases n - k
  {
    if k < n {
      LineAtMonotone(ts, k, n - 1);
    }
  }

  lemma ParenLine(ts: seq<string>, k: nat)
    requires k < |ts| && (ts[k] == "(" || ts[k] == ")")
    ensures LineAt(ts, k + 1) == LineAt(ts, k)
  {
    NewlineFree(ts[k]);
  }

  // A shader's call: token o opens it right after a macro name, and token c
  // closes it, or the file ends first.
  ghost predicate Located(ts: seq<string>, shot: Shot, o: nat, c: nat, eofLine: nat) {
    0 < o < c <= |ts| && IsMacro(ts[o - 1]) && ts[o] == "(" && shot.startLine == LineAt(ts, o) &&
    if c < |ts| then ts[c] == ")" && shot.endLine == LineAt(ts, c) else shot.endLine == eofLine
  }

  // Where each shader of a scan was found: its start line is the line of its
  // opening parenthesis, its end line that of its closing one.
  lemma {:induction false} ShotLocated(ts: seq<string>, k: nat, eofLine: nat, i: nat, shot: Shot)
    returns (o: nat, c: nat)
    requires i < |Scrape(ts, k, eofLine).shots| && shot == Scrape(ts, k, eofLine).shots[i]
    ensures k < o && Located(ts, shot, o, c, eofLine)
    decreases |ts| - k
  {
    assert k < |ts|;
    if !IsMacro(ts[k]) {
      ScrapeOther(ts, k, eofLine);
      o, c := ShotLocated(ts, k + 1, eofLine, i, shot);
    } else {
      var m := Macro(ts, k + 1, ts[k], eofLine);
      MacroShots(ts, k, eofLine, m);
      if i == 0 {
        o := k + 1;
        c := MacroClose(ts, k, eofLine);
      } else {
        o, c := ShotLocated(ts, m.next, eofLine, i - 1, shot);
      }
    }
  }

  // The shots from a macro name on: the call's, then those after it.
  lemma MacroShots(ts: seq<string>, k: nat, eofLine: nat, m: MacroResult)
    requires k < |ts| && IsMacro(ts[k]) && m == Macro(ts, k + 1, ts[k], eofLine)
    requires Scrape(ts, k, eofLine).shots != []
    ensures m.Found? && k < m.next <= |ts|
    ensures var shots, rest := Scrape(ts, k, eofLine).shots, Scrape(ts, m.next, eofLine).shots;
      |shots| == 1 + |rest| && shots[0] == m.shot && forall i :: 0 < i < |shots| ==> shots[i] == rest[i - 1]
  {
    ScrapeMacro(ts, k, eofLine, m);
  }

  lemma MacroClose(ts: seq<string>, k: nat, eofLine: nat) returns (c: nat)
    requires k < |ts| && IsMacro(ts[k]) && Macro(ts, k + 1, ts[k], eofLine).Found?
    ensures var m := Macro(ts, k + 1, ts[k], eofLine);
      Located(ts, m.shot, k + 1, c, eofLine) && m.next == (if c < |ts| then c + 1 else c)
  {
    var s := if IsCreate(ts[k]) then k + 6 else k + 4;
    c := CloseAt(ts, s, 1);
    ParenLine(ts, k + 1);
    if c < |ts| {
      ParenLine(ts, c);
    }
  }

  // Lines in file order: no shader ends before it starts, and none starts
  // before the previous one ends.
  ghost predicate InOrder(shots: seq<Shot>, from: nat) {
    shots == [] ||
    (from <= shots[0].startLine <= shots[0].endLine && InOrder(shots[1..], shots[0].endLine))
  }

  lemma {:induction false} ScrapeInOrder(ts: seq<string>, k: nat, eofLine: nat)
    requires k <= |ts| && LineAt(ts, |ts|) <= eofLine
    ensures InOrder(Scrape(ts, k, eofLine).shots, LineAt(ts, k))
    decreases |ts| - k
  {
    if k < |ts| {
      if !IsMacro(ts[k]) {
        ScrapeInOrder(ts, k + 1, eofLine);
        InOrderFrom(Scrape(ts, k + 1, eofLine).shots, LineAt(ts, k + 1), LineAt(ts, k));
      } else {
        var m := Macro(ts, k + 1, ts[k], eofLine);
        if m.Found? {
          var c := MacroClose(ts, k, eofLine);
          LineAtMonotone(ts, k, k + 1);
          LineAtMonotone(ts, k + 1, c);
          LineAtMonotone(ts, c, |ts|);
          ScrapeInOrder(ts, m.next, eofLine);
          var rest := Scrape(ts, m.next, eofLine).shots;
          if c < |ts| {
            ParenLine(ts, c);
          } else {
            assert rest == [];
          }
          assert Scrape(ts, k, eofLine).shots == [m.shot] + rest;
          assert ([m.shot] + rest)[1..] == rest;
        }
      }
    }
  }

  lemma InOrderFrom(shots: seq<Shot>, from: nat, earlier: nat)
    requires InOrder(shots, from) && earlier <= from
    ensures InOrder(shots, earlier)
  {
  }
}
