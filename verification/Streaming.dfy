// Cutting a file at delimiters line by line: why gathering plain text across
// lines finds the same tokens as leftmost matching on the whole file.
module Streaming {
  import opened Text
  import opened Tokens

  lemma SuffixHead(ts: seq<string>, k: nat, t: string, tail: seq<string>)
    requires k <= |ts| && ts[k..] == [t] + tail
    ensures k < |ts| && ts[k] == t && ts[k + 1..] == tail
    ensures LineAt(ts, k + 1) == LineAt(ts, k) + Newlines(t)
  {
    assert ts[k..][0] == t && ts[k..][1..] == tail;
  }

  // Text gathered so far: no delimiter in it, and it ends a line.
  predicate Gathered(ds: seq<string>, l: string) {
    DelimFree(ds, l) && (l != "" ==> l[|l| - 1] == '\n')
  }

  lemma JoinFree(ds: seq<string>, l: string, p: string)
    requires Separable(ds) && Gathered(ds, l) && DelimFree(ds, p)
    ensures DelimFree(ds, l + p)
  {
    if l == "" {
      assert l + p == p;
    } else {
      FirstDelimAfter(ds, l, p);
    }
  }

  // A delimiter found after gathered text l and plain text p: they become one token.
  lemma MatchTokens(ds: seq<string>, l: string, p: string, d: string, q: string)
    requires Separable(ds) && Gathered(ds, l) && DelimFree(ds, p) && d in ds
    ensures Tokenize(ds, l + (p + (d + q))) == WithPlain(l + p, [d] + Tokenize(ds, q))
  {
    JoinFree(ds, l, p);
    Associative(l, p, d + q);
    StartsWith(ds, l + p, d, q, l + (p + (d + q)));
  }

  // What is left of a line: a newline can only be its last character, and it is
  // there when more lines follow.
  predicate IsRest(r: string, more: bool) {
    (r != "" ==> '\n' !in r[..|r| - 1]) && (more ==> r != "" && r[|r| - 1] == '\n')
  }

  // A delimiter d found i characters into what is left of a line.
  ghost predicate FoundAt(ds: seq<string>, r: string, i: nat, d: string) {
    i == FirstDelim(ds, r) < |r| && d == HeadDelim(ds, r[i..])
  }

  lemma FoundSplit(ds: seq<string>, r: string, i: nat, d: string)
    requires Separable(ds) && FoundAt(ds, r, i, d)
    ensures d in ds && d != "" && '\n' !in d && i + |d| <= |r| && DelimFree(ds, r[..i])
    ensures r == r[..i] + (d + r[i + |d|..])
  {
    FirstDelimLeast(ds, r);
    PlainIsFree(ds, r, i);
    assert NoOverlap(d, d);
    assert r[i..][..|d|] == d && r[i..] == d + r[i + |d|..];
  }

  // A delimiter ends before the newline.
  lemma RestAfter(p: string, d: string, q: string, more: bool)
    requires d != "" && '\n' !in d && IsRest(p + (d + q), more)
    ensures IsRest(q, more) && Newlines(p) == 0 && Newlines(d) == 0
  {
    var r := p + (d + q);
    NewlineFree(d);
    assert p == r[..|r| - 1][..|p|];
    NewlineFree(p);
    if q == "" {
      assert r[|r| - 1] == d[|d| - 1];
    } else {
      assert q[..|q| - 1] == r[..|r| - 1][|p| + |d|..];
    }
  }

  lemma FoundTokens(ds: seq<string>, l: string, p: string, d: string, q: string, more: string)
    requires Separable(ds) && Gathered(ds, l) && DelimFree(ds, p) && d in ds
    ensures Tokenize(ds, l + ((p + (d + q)) + more)) == WithPlain(l + p, [d] + Tokenize(ds, q + more))
  {
    Associative(p, d + q, more);
    Associative(d, q, more);
    MatchTokens(ds, l, p, d, q + more);
  }

  // No delimiter in the rest of a line: it is gathered.
  lemma LineGathered(ds: seq<string>, l: string, r: string, more: bool)
    requires Separable(ds) && Gathered(ds, l) && IsRest(r, more) && DelimFree(ds, r)
    ensures DelimFree(ds, l + r)
    ensures more ==> Gathered(ds, l + r) && Newlines(l + r) == Newlines(l) + 1
  {
    JoinFree(ds, l, r);
    NewlinesAppend(l, r);
    if more {
      LineNewlines(r);
    }
  }

  // ----- the tokenizer's frame -----

  // Where the generator is suspended: before a line, inside one, after handing
  // out plain text with a delimiter still to come, or done.
  datatype Resume = NextLine | InLine | Owing(delim: string) | Finished

  // Its local variables, and what the file has yet to yield.
  datatype Frame = Frame(lines: seq<string>, line: string, pos: nat, leftover: string, resume: Resume)

  // The rest of the current line and the lines after it.
  ghost function Rest(f: Frame): string
    requires f.pos <= |f.line|
  {
    if f.resume.NextLine? then Concat(f.lines) else f.line[f.pos..] + Concat(f.lines)
  }

  ghost predicate LinesValid(f: Frame) {
    f.pos <= |f.line| && AreLines(f.lines) && (!f.resume.NextLine? ==> IsRest(f.line[f.pos..], f.lines != []))
  }

  // A file, tokenized, and how many of its tokens have been handed out.
  datatype Progress = Progress(delims: seq<string>, tokens: seq<string>, eofLine: nat, taken: nat) {
    ghost predicate Owes(s: string) {
      taken <= |tokens| && tokens[taken..] == Tokenize(delims, s)
    }

    // The line that the text after the tokens handed out is on.
    function Line(): nat
      requires taken <= |tokens|
    {
      LineAt(tokens, taken)
    }
  }

  // While the generator looks for a token: the plain text gathered so far
  // cannot combine with what follows, and the counter counts finished lines.
  ghost predicate Scanning(p: Progress, f: Frame, lineNumber: nat) {
    (f.resume.NextLine? || f.resume.InLine?) && Separable(p.delims) && LinesValid(f) &&
    DelimFree(p.delims, f.leftover) && p.Owes(f.leftover + Rest(f)) &&
    p.eofLine == lineNumber + |f.lines| + (if f.resume.NextLine? then 0 else 1) &&
    (f.resume.InLine? || f.lines != [] ==>
      Gathered(p.delims, f.leftover) && lineNumber == p.Line() + Newlines(f.leftover))
  }

  // The delimiter that stopped the plain text just handed out comes next.
  ghost predicate OwesDelimiter(p: Progress, f: Frame, lineNumber: nat)
    requires f.resume.Owing? && p.taken <= |p.tokens|
  {
    LinesValid(f) && f.resume.delim in p.delims &&
    p.eofLine == lineNumber + |f.lines| + 1 && lineNumber == p.Line() &&
    p.tokens[p.taken..] == [f.resume.delim] + Tokenize(p.delims, Rest(f))
  }

  // Between two tokens.
  ghost predicate Between(p: Progress, f: Frame, lineNumber: nat)
    requires p.taken <= |p.tokens|
  {
    Separable(p.delims) &&
    (f.resume.Finished? ==> p.taken == |p.tokens| && lineNumber == p.eofLine) &&
    (f.resume.Owing? ==> OwesDelimiter(p, f, lineNumber)) &&
    (f.resume.InLine? || f.resume.NextLine? ==> f.leftover == "" && Scanning(p, f, lineNumber))
  }

  // Always true: the trigger that keeps the definition of Suspended folded until a
  // proof names it.
  predicate OpenSuspended(w: bool) {
    true
  }

  // The same, folded, for users of the tokenizer: their proofs need not look inside.
  ghost predicate Suspended(p: Progress, f: Frame, lineNumber: nat) {
    p.taken <= |p.tokens| && forall w {:trigger OpenSuspended(w)} :: OpenSuspended(w) ==> Between(p, f, lineNumber)
  }

  // Token t is the next one, and the counter is where its delivery leaves it:
  // on its line, or past the last line if it is plain text that ends the file.
  ghost predicate Delivers(p: Progress, t: string, lineNumber: nat) {
    p.taken < |p.tokens| && t == p.tokens[p.taken] &&
    var q := p.(taken := p.taken + 1);
    lineNumber == if t in p.delims || q.taken < |p.tokens| then q.Line() else p.eofLine
  }

  lemma StartFile(p: Progress, lines: seq<string>)
    requires AreLines(lines) && Separable(p.delims)
    requires p == Progress(p.delims, Tokenize(p.delims, Concat(lines)), 1 + LinesIn(Concat(lines)), 0)
    ensures Suspended(p, Frame(lines, "", 0, "", NextLine), 1)
  {
    CountLines(lines);
    assert "" + Concat(lines) == Concat(lines);
    assert p.tokens[0..] == p.tokens;
  }

  lemma StartLine(p: Progress, f: Frame, n: nat)
    requires Scanning(p, f, n) && f.resume.NextLine? && f.lines != []
    ensures Scanning(p, f.(line := f.lines[0], lines := f.lines[1..], pos := 0, resume := InLine), n)
  {
  }

  lemma PassLine(p: Progress, f: Frame, n: nat)
    requires Scanning(p, f, n) && f.resume.InLine? && DelimFree(p.delims, f.line[f.pos..])
    ensures Scanning(p, f.(leftover := f.leftover + f.line[f.pos..], resume := NextLine), n + 1)
  {
    LineGathered(p.delims, f.leftover, f.line[f.pos..], f.lines != []);
    Associative(f.leftover, f.line[f.pos..], Concat(f.lines));
  }

  // Where the generator yields at a delimiter: plain text before it is handed
  // out first, or else the delimiter itself.
  function AtDelimiter(f: Frame, i: nat, d: string, plain: string): Frame {
    f.(pos := f.pos + i + |d|, leftover := plain, resume := if plain == "" then InLine else Owing(d))
  }

  lemma StopAtDelimiter(p: Progress, f: Frame, n: nat, i: nat, d: string, plain: string)
    requires Scanning(p, f, n) && f.resume.InLine? && FoundAt(p.delims, f.line[f.pos..], i, d)
    requires plain == f.leftover + f.line[f.pos..][..i]
    ensures Delivers(p, if plain == "" then d else plain, n)
    ensures Suspended(p.(taken := p.taken + 1), AtDelimiter(f, i, d, plain), n)
  {
    var r := f.line[f.pos..];
    FoundSplit(p.delims, r, i, d);
    var g, q := AtDelimiter(f, i, d, plain), r[i + |d|..];
    assert g.line[g.pos..] == q;
    Stop(p, f, n, r[..i], d, q, g);
  }

  lemma Stop(p: Progress, f: Frame, n: nat, a: string, d: string, q: string, g: Frame)
    requires Scanning(p, f, n) && f.resume.InLine? && f.line[f.pos..] == a + (d + q)
    requires d in p.delims && d != "" && '\n' !in d && DelimFree(p.delims, a)
    requires g.pos <= |g.line| && g.line[g.pos..] == q && g.lines == f.lines && g.leftover == f.leftover + a
    requires g.resume == if g.leftover == "" then InLine else Owing(d)
    ensures Delivers(p, if g.leftover == "" then d else g.leftover, n)
    ensures Suspended(p.(taken := p.taken + 1), g, n)
  {
    RestAfter(a, d, q, f.lines != []);
    NewlinesAppend(f.leftover, a);
    FoundTokens(p.delims, f.leftover, a, d, q, Concat(f.lines));
    if g.leftover == "" {
      YieldDelimiter(p, g, n, d);
    } else {
      YieldPlain(p, g, n, d);
    }
  }

  lemma YieldDelimiter(p: Progress, g: Frame, n: nat, d: string)
    requires g.resume.InLine? && LinesValid(g) && p.eofLine == n + |g.lines| + 1 && Separable(p.delims)
    requires p.taken <= |p.tokens| && p.tokens[p.taken..] == [d] + Tokenize(p.delims, Rest(g))
    requires d in p.delims && n == p.Line() && g.leftover == "" && DelimFree(p.delims, "")
    ensures Delivers(p, d, n) && Suspended(p.(taken := p.taken + 1), g, n)
  {
    SuffixHead(p.tokens, p.taken, d, Tokenize(p.delims, Rest(g)));
    assert NoOverlap(d, d);
    NewlineFree(d);
    assert "" + Rest(g) == Rest(g);
  }

  lemma YieldPlain(p: Progress, g: Frame, n: nat, d: string)
    requires g.resume == Owing(d) && LinesValid(g) && p.eofLine == n + |g.lines| + 1 && Separable(p.delims)
    requires p.taken <= |p.tokens| && p.tokens[p.taken..] == [g.leftover] + ([d] + Tokenize(p.delims, Rest(g)))
    requires d in p.delims && n == p.Line() + Newlines(g.leftover)
    ensures Delivers(p, g.leftover, n) && Suspended(p.(taken := p.taken + 1), g, n)
  {
    SuffixHead(p.tokens, p.taken, g.leftover, [d] + Tokenize(p.delims, Rest(g)));
    assert p.tokens[p.taken + 1..][0] == d;
  }

  lemma HandOutOwed(p: Progress, f: Frame, n: nat)
    requires p.taken <= |p.tokens| && Between(p, f, n) && f.resume.Owing?
    ensures Delivers(p, f.resume.delim, n)
    ensures Suspended(p.(taken := p.taken + 1), f.(leftover := "", resume := InLine), n)
  {
    YieldDelimiter(p, f.(leftover := "", resume := InLine), n, f.resume.delim);
  }

  lemma EndFile(p: Progress, f: Frame, n: nat)
    requires Scanning(p, f, n) && f.resume.NextLine? && f.lines == []
    ensures f.leftover == "" ==> Suspended(p, f.(resume := Finished), n)
    ensures f.leftover != "" ==>
      Delivers(p, f.leftover, n) && Suspended(p.(taken := p.taken + 1), f.(resume := Finished), n)
  {
    assert f.leftover + Concat(f.lines) == f.leftover;
    if f.leftover != "" {
      SuffixHead(p.tokens, p.taken, f.leftover, []);
      if f.leftover in p.delims {
        HeadDelimIs(p.delims, f.leftover, f.leftover);
      }
    }
  }

  // Run the generator from where it is suspended to its next yield.
  method Tokenizer(delims: seq<string>, suspended: Frame, counter: nat, ghost p: Progress)
    returns (t: Option<string>, f: Frame, n: nat)
    requires delims == p.delims && Suspended(p, suspended, counter)
    ensures t.None? ==> p.taken == |p.tokens| && n == p.eofLine && Suspended(p, f, n)
    ensures t.Some? ==> Delivers(p, t.value, n) && Suspended(p.(taken := p.taken + 1), f, n)
  {
    f, n := suspended, counter;
    assert OpenSuspended(true);
    if f.resume.Finished? {
      return None, f, n;
    }
    if f.resume.Owing? {
      HandOutOwed(p, f, n);
      return Some(f.resume.delim), f.(leftover := "", resume := InLine), n;
    }
    while f.resume.InLine? || f.lines != []
      invariant Scanning(p, f, n)
      decreases |f.lines|, if f.resume.InLine? then 1 else 0
    {
      if f.resume.NextLine? {
        StartLine(p, f, n);
        f := f.(line := f.lines[0], lines := f.lines[1..], pos := 0, resume := InLine);
      }
      var rest := f.line[f.pos..];
      var i := FirstDelim(delims, rest);
      if i < |rest| {
        var d := HeadDelim(delims, rest[i..]);
        var plain := f.leftover + rest[..i];
        StopAtDelimiter(p, f, n, i, d, plain);
        return Some(if plain == "" then d else plain), AtDelimiter(f, i, d, plain), n;
      }
      PassLine(p, f, n);
      f, n := f.(leftover := f.leftover + rest, resume := NextLine), n + 1;
    }
    EndFile(p, f, n);
    return if f.leftover == "" then None else Some(f.leftover), f.(resume := Finished), n;
  }
}
