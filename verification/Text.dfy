// Strings as the scraper sees them: concatenation of tokens, newline counts,
// and the split of a file into the lines a text stream yields.
module Text {

  datatype Option<+T> = None | Some(value: T) {
    function GetOr(default: T): T {
      if Some? then value else default
    }
  }

  function Newlines(s: string): nat {
    if s == "" then 0 else (if s[0] == '\n' then 1 else 0) + Newlines(s[1..])
  }

  function Concat(ts: seq<string>): string {
    if ts == [] then "" else ts[0] + Concat(ts[1..])
  }

  lemma {:induction false} NewlinesAppend(a: string, b: string)
    ensures Newlines(a + b) == Newlines(a) + Newlines(b)
  {
    if a == "" {
      assert a + b == b;
    } else {
      NewlinesAppend(a[1..], b);
      assert (a + b)[1..] == a[1..] + b;
    }
  }

  lemma {:induction false} NewlineFree(s: string)
    requires '\n' !in s
    ensures Newlines(s) == 0
  {
    if s != "" {
      NewlineFree(s[1..]);
    }
  }

  lemma {:induction false} HasNewline(s: string)
    ensures Newlines(s) > 0 <==> '\n' in s
  {
    if s != "" {
      HasNewline(s[1..]);
      assert s == [s[0]] + s[1..];
    }
  }

  lemma Associative<T>(a: seq<T>, b: seq<T>, c: seq<T>)
    ensures a + (b + c) == (a + b) + c
  {
  }

  lemma {:induction false} ConcatAppend(a: seq<string>, b: seq<string>)
    ensures Concat(a + b) == Concat(a) + Concat(b)
  {
    if a == [] {
      assert a + b == b;
    } else {
      var x, y := Concat(a[1..]), Concat(b);
      ConcatAppend(a[1..], b);
      assert (a + b)[1..] == a[1..] + b;
      assert Concat(a + b) == a[0] + (x + y);
      Associative(a[0], x, y);
    }
  }

  lemma ConcatSplit(ts: seq<string>, k: nat)
    requires k <= |ts|
    ensures Concat(ts) == Concat(ts[..k]) + Concat(ts[k..])
  {
    assert ts == ts[..k] + ts[k..];
    ConcatAppend(ts[..k], ts[k..]);
  }

  // The text delivered by one more token.
  lemma ConcatSnoc(ts: seq<string>, k: nat)
    requires k < |ts|
    ensures Concat(ts[..k + 1]) == Concat(ts[..k]) + ts[k]
    ensures Newlines(Concat(ts[..k + 1])) == Newlines(Concat(ts[..k])) + Newlines(ts[k])
  {
    assert ts[..k + 1] == ts[..k] + [ts[k]];
    ConcatAppend(ts[..k], [ts[k]]);
    assert Concat([ts[k]]) == ts[k] + Concat([]) == ts[k];
    NewlinesAppend(Concat(ts[..k]), ts[k]);
  }

  // The line of the file that the text after k tokens is on: one more than the
  // newlines in them.
  function LineAt(ts: seq<string>, k: nat): nat
    requires k <= |ts|
  {
    if k == 0 then 1 else LineAt(ts, k - 1) + Newlines(ts[k - 1])
  }

  lemma {:induction false} LineAtCounts(ts: seq<string>, k: nat)
    requires k <= |ts|
    ensures LineAt(ts, k) == 1 + Newlines(Concat(ts[..k]))
    decreases k
  {
    if k > 0 {
      LineAtCounts(ts, k - 1);
      ConcatSnoc(ts, k - 1);
    }
  }

  // ----- lines -----

  // One line as a text stream yields it: a newline can only be its last character.
  predicate IsLine(line: string) {
    line != "" && '\n' !in line[..|line| - 1]
  }

  // Every line but the last ends in a newline.
  predicate AreLines(lines: seq<string>) {
    (forall i :: 0 <= i < |lines| ==> IsLine(lines[i])) &&
    forall i :: 0 <= i < |lines| - 1 ==> lines[i][|lines[i]| - 1] == '\n'
  }

  function LineEnd(s: string): (n: nat)
    requires s != ""
    ensures 0 < n <= |s|
    ensures '\n' !in s[..n - 1]
    ensures n < |s| ==> s[n - 1] == '\n'
  {
    if s[0] == '\n' || |s| == 1 then 1
    else
      var n := LineEnd(s[1..]);
      assert s[..n] == [s[0]] + s[1..][..n - 1];
      n + 1
  }

  // The lines of a file, newline characters kept.
  function SplitLines(s: string): seq<string>
    decreases |s|
  {
    if s == "" then [] else [s[..LineEnd(s)]] + SplitLines(s[LineEnd(s)..])
  }

  // The value of the line counter once every line has been read.
  function LinesIn(text: string): nat {
    Newlines(text) + (if text != "" && text[|text| - 1] != '\n' then 1 else 0)
  }

  lemma AreLinesCons(head: string, tail: seq<string>)
    requires IsLine(head) && AreLines(tail)
    requires tail != [] ==> head[|head| - 1] == '\n'
    ensures AreLines([head] + tail)
  {
  }

  lemma {:induction false} SplitLinesCorrect(s: string)
    ensures AreLines(SplitLines(s)) && Concat(SplitLines(s)) == s
    decreases |s|
  {
    if s != "" {
      var n := LineEnd(s);
      SplitLinesCorrect(s[n..]);
      assert s[..n][..n - 1] == s[..n - 1];
      AreLinesCons(s[..n], SplitLines(s[n..]));
      assert s == s[..n] + s[n..];
    }
  }

  lemma LineNewlines(line: string)
    requires IsLine(line)
    ensures Newlines(line) == if line[|line| - 1] == '\n' then 1 else 0
  {
  }

  lemma {:induction false} CountLines(lines: seq<string>)
    requires AreLines(lines)
    ensures |lines| == LinesIn(Concat(lines))
  {
    if lines != [] {
      var head, tail := lines[0], lines[1..];
      assert AreLines(tail) by {
        forall i | 0 <= i < |tail| - 1
          ensures tail[i][|tail[i]| - 1] == '\n'
        {
          assert tail[i] == lines[i + 1];
        }
      }
      CountLines(tail);
      LineNewlines(head);
      NewlinesAppend(head, Concat(tail));
      var text := Concat(lines);
      if tail == [] {
        assert text == head;
      } else {
        assert tail[0] != "" && Concat(tail) == tail[0] + Concat(tail[1..]);
        assert text[|text| - 1] == Concat(tail)[|Concat(tail)| - 1];
        assert head[|head| - 1] == '\n';
      }
    }
  }
}
