// Cutting a text at fixed delimiters by leftmost matching, for any set of
// delimiters that cannot overlap, and why that is the only way to cut it.
module Tokens {
  import opened Text

  // d and e cannot overlap: neither is a proper prefix of the other, and what
  // starts e occurs nowhere inside d.
  ghost predicate NoOverlap(d: string, e: string) {
    d != "" && '\n' !in d && (d <= e ==> d == e) &&
    (e != "" ==> forall j :: 0 < j < |d| ==> d[j] != e[0])
  }

  ghost predicate Separable(ds: seq<string>) {
    forall d, e {:trigger NoOverlap(d, e)} :: d in ds && e in ds ==> NoOverlap(d, e)
  }

  // The delimiter s starts with, or "" if there is none.
  function HeadDelim(ds: seq<string>, s: string): (d: string)
    ensures d == "" || (d in ds && d <= s)
  {
    if ds == [] then "" else if ds[0] <= s then ds[0] else HeadDelim(ds[1..], s)
  }

  // Where the leftmost delimiter starts; |s| if there is none.
  function FirstDelim(ds: seq<string>, s: string): (i: nat)
    ensures i <= |s|
    decreases |s|
  {
    if s == "" || HeadDelim(ds, s) != "" then 0 else FirstDelim(ds, s[1..]) + 1
  }

  lemma {:induction false} FirstDelimLeast(ds: seq<string>, s: string)
    ensures var i := FirstDelim(ds, s);
      (i < |s| ==> HeadDelim(ds, s[i..]) != "") &&
      forall j :: 0 <= j < i ==> HeadDelim(ds, s[j..]) == ""
    decreases |s|
  {
    assert s[0..] == s;
    if s != "" && HeadDelim(ds, s) == "" {
      FirstDelimLeast(ds, s[1..]);
      assert forall j :: 1 <= j <= |s| ==> s[j..] == s[1..][j - 1..];
    }
  }

  // Leftmost matching on a whole text.
  function Tokenize(ds: seq<string>, s: string): seq<string>
    decreases |s|
  {
    var i := FirstDelim(ds, s);
    if i == |s| then (if s == "" then [] else [s])
    else
      FirstDelimLeast(ds, s);
      var d := HeadDelim(ds, s[i..]);
      WithPlain(s[..i], [d] + Tokenize(ds, s[i + |d|..]))
  }

  function WithPlain(p: string, ts: seq<string>): seq<string> {
    if p == "" then ts else [p] + ts
  }

  // No delimiter occurs in p.
  predicate DelimFree(ds: seq<string>, p: string) {
    FirstDelim(ds, p) == |p|
  }

  // A delimiter, or plain text.
  predicate IsToken(ds: seq<string>, t: string) {
    t in ds || (t != "" && DelimFree(ds, t))
  }

  // What a tokenization of s is, whoever computes it: non-empty tokens that
  // spell s, with no two plain tokens side by side.
  predicate Tokenized(ds: seq<string>, ts: seq<string>, s: string) {
    Concat(ts) == s &&
    (forall i :: 0 <= i < |ts| ==> IsToken(ds, ts[i])) &&
    forall i :: 0 <= i < |ts| - 1 ==> ts[i] in ds || ts[i + 1] in ds
  }

  // ----- delimiters do not overlap -----

  lemma {:induction false} SomeHead(ds: seq<string>, s: string, d: string)
    requires Separable(ds) && d in ds && d <= s
    ensures HeadDelim(ds, s) != ""
  {
    assert NoOverlap(ds[0], ds[0]);
    if d != ds[0] {
      SomeHead(ds[1..], s, d);
    }
  }

  lemma HeadDelimIs(ds: seq<string>, s: string, d: string)
    requires Separable(ds) && d in ds && d <= s
    ensures HeadDelim(ds, s) == d
  {
    SomeHead(ds, s, d);
    var e := HeadDelim(ds, s);
    assert NoOverlap(d, e) && NoOverlap(e, d);
    assert e == s[..|e|] && d == s[..|d|];
    assert if |e| <= |d| then e <= d else d <= e;
  }

  // Before a delimiter, after a newline or at the end of the text, nothing new
  // begins to match: d would reach past p and meet a character it cannot have.
  lemma NoStraddle(ds: seq<string>, p: string, q: string)
    requires Separable(ds) && p != "" && HeadDelim(ds, p) == ""
    requires q == "" || HeadDelim(ds, q) != "" || p[|p| - 1] == '\n'
    ensures HeadDelim(ds, p + q) == ""
  {
    var d := HeadDelim(ds, p + q);
    if d != "" {
      assert NoOverlap(d, d) && (HeadDelim(ds, q) != "" ==> NoOverlap(d, HeadDelim(ds, q)));
      if |d| <= |p| {
        SomeHead(ds, p, d);
      } else {
        Straddler(p, q, d);
      }
    }
  }

  lemma Straddler(p: string, q: string, d: string)
    requires d <= p + q && 0 < |p| < |d|
    ensures d[|p| - 1] == p[|p| - 1] && q != "" && d[|p|] == q[0]
  {
  }

  // Text before a delimiter that is itself free of delimiters stays plain.
  lemma {:induction false} FirstDelimAfter(ds: seq<string>, p: string, q: string)
    requires Separable(ds) && DelimFree(ds, p)
    requires q == "" || HeadDelim(ds, q) != "" || (p != "" && p[|p| - 1] == '\n')
    ensures FirstDelim(ds, p + q) == |p| + FirstDelim(ds, q)
    decreases |p|
  {
    if p == "" {
      assert p + q == q;
    } else {
      assert (p + q)[1..] == p[1..] + q;
      NoStraddle(ds, p, q);
      if |p| > 1 || q == "" || HeadDelim(ds, q) != "" {
        FirstDelimAfter(ds, p[1..], q);
      } else {
        assert p[1..] + q == q;
      }
    }
  }

  lemma PlainIsFree(ds: seq<string>, s: string, i: nat)
    requires Separable(ds) && i <= FirstDelim(ds, s)
    ensures DelimFree(ds, s[..i])
  {
    var j := FirstDelim(ds, s[..i]);
    if j < i {
      FirstDelimLeast(ds, s);
      FirstDelimLeast(ds, s[..i]);
      SomeHead(ds, s[j..], HeadDelim(ds, s[..i][j..]));
    }
  }

  lemma TokenizeStep(ds: seq<string>, p: string, d: string, q: string, s: string)
    requires s == p + (d + q) && d != ""
    requires FirstDelim(ds, s) == |p| && HeadDelim(ds, d + q) == d
    ensures Tokenize(ds, s) == WithPlain(p, [d] + Tokenize(ds, q))
  {
    Slices(p, d, q);
    calc {
      Tokenize(ds, s);
      WithPlain(s[..|p|], [HeadDelim(ds, s[|p|..])] + Tokenize(ds, s[|p| + |d|..]));
      WithPlain(p, [d] + Tokenize(ds, q));
    }
  }

  lemma Slices(p: string, d: string, q: string)
    ensures var s := p + (d + q);
      s[..|p|] == p && s[|p|..] == d + q && s[|p| + |d|..] == q
  {
    assert (p + (d + q))[|p| + |d|..] == (d + q)[|d|..] == q;
  }

  // ----- leftmost matching is the only tokenization -----

  lemma TokenizedCons(ds: seq<string>, t: string, ts: seq<string>, s: string)
    requires Tokenized(ds, ts, s) && IsToken(ds, t)
    requires t in ds || ts == [] || ts[0] in ds
    ensures Tokenized(ds, [t] + ts, t + s)
  {
  }

  lemma TokenizedStep(ds: seq<string>, p: string, d: string, ts: seq<string>, q: string)
    requires Tokenized(ds, ts, q) && d in ds && DelimFree(ds, p)
    ensures Tokenized(ds, WithPlain(p, [d] + ts), p + (d + q))
  {
  }

  lemma TokenizedTail(ds: seq<string>, ts: seq<string>, s: string)
    requires Tokenized(ds, ts, s) && ts != []
    ensures s == ts[0] + Concat(ts[1..])
    ensures Tokenized(ds, ts[1..], Concat(ts[1..]))
  {
    assert forall i :: 0 <= i < |ts[1..]| ==> ts[1..][i] == ts[i + 1];
  }

  lemma {:induction false} TokenizeSound(ds: seq<string>, s: string)
    requires Separable(ds)
    ensures Tokenized(ds, Tokenize(ds, s), s)
    decreases |s|
  {
    var i := FirstDelim(ds, s);
    FirstDelimLeast(ds, s);
    if i == |s| {
      assert s != "" ==> [s][0] + Concat([s][1..]) == s;
    } else {
      var d := HeadDelim(ds, s[i..]);
      var rest := s[i + |d|..];
      TokenizeSound(ds, rest);
      assert s[i..] == d + rest && s == s[..i] + (d + rest);
      TokenizeStep(ds, s[..i], d, rest, s);
      PlainIsFree(ds, s, i);
      TokenizedStep(ds, s[..i], d, Tokenize(ds, rest), rest);
    }
  }

  // Any tokenization of s, however it was found, is the leftmost one.
  lemma {:induction false} TokenizedUnique(ds: seq<string>, ts: seq<string>, s: string)
    requires Separable(ds) && Tokenized(ds, ts, s)
    ensures ts == Tokenize(ds, s)
    decreases |ts|
  {
    if ts != [] {
      var t, us := ts[0], ts[1..];
      TokenizedTail(ds, ts, s);
      TokenizedUnique(ds, us, Concat(us));
      if t in ds {
        StartsWith(ds, "", t, Concat(us), s);
      } else if us == [] {
        assert s == t;
      } else {
        TokenizedTail(ds, us, Concat(us));
        StartsWith(ds, t, us[0], Concat(us[1..]), s);
        TokenizedUnique(ds, us[1..], Concat(us[1..]));
      }
    }
  }

  // How leftmost matching begins on plain text followed by a delimiter.
  lemma StartsWith(ds: seq<string>, p: string, d: string, q: string, s: string)
    requires Separable(ds) && d in ds && DelimFree(ds, p)
    requires s == p + (d + q)
    ensures Tokenize(ds, s) == WithPlain(p, [d] + Tokenize(ds, q))
  {
    HeadDelimIs(ds, d + q, d);
    assert NoOverlap(d, d);
    FirstDelimAfter(ds, p, d + q);
    TokenizeStep(ds, p, d, q, s);
  }

  lemma TokenizedJoin(ds: seq<string>, ts: seq<string>, s: string, us: seq<string>, r: string)
    requires Tokenized(ds, ts, s) && Tokenized(ds, us, r)
    requires ts == [] || us == [] || ts[|ts| - 1] in ds || us[0] in ds
    ensures Tokenized(ds, ts + us, s + r)
  {
    ConcatAppend(ts, us);
    var vs := ts + us;
    forall i | 0 <= i < |vs| - 1
      ensures vs[i] in ds || vs[i + 1] in ds
    {
      if i < |ts| - 1 {
        assert vs[i] == ts[i] && vs[i + 1] == ts[i + 1];
      } else if i >= |ts| {
        assert vs[i] == us[i - |ts|] && vs[i + 1] == us[i + 1 - |ts|];
      }
    }
  }
}
