// Printing macro calls among other text and scraping them back.
module RoundTrip {
  import opened Text
  import opened Spaces
  import opened Tokens
  import opened Macros
  import opened Shaders
  import opened ScrapeSpec
  import opened ScrapeLines

  // Always true: the triggers that keep the definitions of Valid, WellFormed, the
  // parts, ReadAs, SourceAt and SourcePart folded until a proof names them.
  predicate OpenLanguage(w: bool) {
    true
  }

  predicate OpenWellFormed(w: bool) {
    true
  }

  predicate OpenPart(w: bool) {
    true
  }

  predicate OpenRead(w: bool) {
    true
  }

  predicate OpenSource(w: bool) {
    true
  }

  // The delimiters and the two macro names among them.
  datatype Language = Language(ds: seq<string>, info: string, create: string) {
    ghost predicate Proper() {
      Separable(ds) && "(" in ds && ")" in ds && "," in ds && info in ds && create in ds &&
      (forall d :: d in ds ==> d in ["(", ")", ",", info, create]) && Wordy(info) && Wordy(create) &&
      IsMacro(info) && !IsCreate(info) && IsMacro(create) && IsCreate(create) &&
      forall t {:trigger IsMacro(t)} :: IsMacro(t) ==> t == info || t == create
    }

    // The same, folded.
    ghost predicate Valid() {
      forall w {:trigger OpenLanguage(w)} :: OpenLanguage(w) ==> Proper()
    }
  }

  ghost predicate Wordy(t: string) {
    '(' !in t && ')' !in t && '\n' !in t
  }

  // A macro call: with a device it creates a module, without one only its info.
  datatype Call = Call(device: Option<string>, stage: string, source: string)

  // A call and the text after it.
  datatype Item = Item(call: Call, filler: string)

  function Name(lang: Language, c: Call): string {
    if c.device.Some? then lang.create else lang.info
  }

  function Arguments(c: Call): string {
    (if c.device.Some? then c.device.value + "," else "") + (c.stage + ",")
  }

  function Print(lang: Language, c: Call): string {
    Name(lang, c) + ("(" + (Arguments(c) + (c.source + ")")))
  }

  function PrintAll(lang: Language, pre: string, items: seq<Item>): string
    decreases |items|
  {
    if items == [] then pre else pre + (Print(lang, items[0].call) + PrintAll(lang, items[0].filler, items[1..]))
  }

  // Opening minus closing parentheses in a text.
  function Parens(s: string): int {
    if s == "" then 0 else (if s[0] == '(' then 1 else if s[0] == ')' then -1 else 0) + Parens(s[1..])
  }

  // The first n characters do not close more than they open.
  ghost predicate OpenEnough(s: string, n: nat)
    requires n <= |s|
  {
    Parens(s[..n]) >= 0
  }

  ghost predicate Balanced(s: string) {
    Parens(s) == 0 && forall n {:trigger OpenEnough(s, n)} :: 0 <= n <= |s| ==> OpenEnough(s, n)
  }

  // One non-empty piece of plain text.
  predicate Plain(lang: Language, s: string) {
    s != "" && DelimFree(lang.ds, s)
  }

  ghost predicate Sound(lang: Language, c: Call) {
    (c.device.Some? ==> Plain(lang, c.device.value)) && Plain(lang, c.stage) && Balanced(c.source)
  }

  // The same, folded.
  ghost predicate WellFormed(lang: Language, c: Call) {
    forall w {:trigger OpenWellFormed(w)} :: OpenWellFormed(w) ==> Sound(lang, c)
  }

  predicate NameAt(lang: Language, s: string, i: nat)
    requires i <= |s|
  {
    lang.info <= s[i..] || lang.create <= s[i..]
  }

  // Neither macro name occurs in the text.
  ghost predicate NameFree(lang: Language, s: string) {
    forall i {:trigger NameAt(lang, s, i)} :: 0 <= i <= |s| ==> !NameAt(lang, s, i)
  }

  ghost predicate WellFormedAll(lang: Language, pre: string, items: seq<Item>) {
    NameFree(lang, pre) &&
    forall i :: 0 <= i < |items| ==> WellFormed(lang, items[i].call) && NameFree(lang, items[i].filler)
  }

  // The lines a printed call spans, beyond its first.
  function Height(c: Call): nat {
    Newlines(Arguments(c)) + Newlines(c.source)
  }

  // The call after pre, when pre starts on the given line.
  function CallAfter(line: nat, pre: string, c: Call): Shot {
    Shot(Strip(c.stage), c.source, line + Newlines(pre), line + Newlines(pre) + Height(c))
  }

  // What the parser should find when pre starts on the given line.
  function Expected(line: nat, pre: string, items: seq<Item>): seq<Shot>
    decreases |items|
  {
    if items == [] then []
    else
      var c := items[0].call;
      [CallAfter(line, pre, c)] + Expected(line + Newlines(pre) + Height(c), items[0].filler, items[1..])
  }

  // ----- the tokens of a printed program -----

  function ArgumentTokens(c: Call): seq<string> {
    (if c.device.Some? then [c.device.value, ","] else []) + [c.stage, ","]
  }

  function CallTokens(lang: Language, c: Call): seq<string> {
    [Name(lang, c), "("] + ArgumentTokens(c) + Tokenize(lang.ds, c.source) + [")"]
  }

  function AllTokens(lang: Language, pre: string, items: seq<Item>): seq<string>
    decreases |items|
  {
    if items == [] then Tokenize(lang.ds, pre)
    else Tokenize(lang.ds, pre) + (CallTokens(lang, items[0].call) + AllTokens(lang, items[0].filler, items[1..]))
  }

  lemma ArgumentsTokenized(ds: seq<string>, c: Call)
    requires "," in ds && IsToken(ds, c.stage) && (c.device.Some? ==> IsToken(ds, c.device.value))
    ensures Tokenized(ds, ArgumentTokens(c), Arguments(c))
  {
    TokenizedCons(ds, ",", [], "");
    assert "," + "" == ",";
    TokenizedCons(ds, c.stage, [","], ",");
    if c.device.Some? {
      TokenizedCons(ds, ",", [c.stage, ","], c.stage + ",");
      TokenizedCons(ds, c.device.value, [","] + [c.stage, ","], "," + (c.stage + ","));
      assert [c.device.value] + ([","] + [c.stage, ","]) == ArgumentTokens(c);
      Associative(c.device.value, ",", c.stage + ",");
    } else {
      assert ArgumentTokens(c) == [c.stage] + [","];
      assert "" + (c.stage + ",") == c.stage + ",";
    }
  }

  lemma CallTokenized(ds: seq<string>, c: Call, name: string, source: seq<string>, ts: seq<string>)
    requires Separable(ds) && "(" in ds && ")" in ds && "," in ds && name in ds
    requires IsToken(ds, c.stage) && (c.device.Some? ==> IsToken(ds, c.device.value))
    requires Tokenized(ds, source, c.source)
    requires ts == [name, "("] + ArgumentTokens(c) + source + [")"]
    ensures Tokenized(ds, ts, name + ("(" + (Arguments(c) + (c.source + ")"))))
  {
    ArgumentsTokenized(ds, c);
    TokenizedCons(ds, ")", [], "");
    assert ")" + "" == ")";
    TokenizedJoin(ds, source, c.source, [")"], ")");
    TokenizedJoin(ds, ArgumentTokens(c), Arguments(c), source + [")"], c.source + ")");
    var rest := ArgumentTokens(c) + (source + [")"]);
    TokenizedCons(ds, "(", rest, Arguments(c) + (c.source + ")"));
    TokenizedCons(ds, name, ["("] + rest, "(" + (Arguments(c) + (c.source + ")")));
    assert [name] + (["("] + rest) == ts;
  }

  lemma {:induction false} AllTokenized(lang: Language, pre: string, items: seq<Item>)
    requires lang.Valid()
    requires WellFormedAll(lang, pre, items)
    ensures Tokenized(lang.ds, AllTokens(lang, pre, items), PrintAll(lang, pre, items))
    decreases |items|
  {
    assert OpenLanguage(true) && OpenWellFormed(true);
    TokenizeSound(lang.ds, pre);
    if items != [] {
      var c := items[0].call;
      var rest := AllTokens(lang, items[0].filler, items[1..]);
      AllTokenized(lang, items[0].filler, items[1..]);
      TokenizeSound(lang.ds, c.source);
      CallTokenized(lang.ds, c, Name(lang, c), Tokenize(lang.ds, c.source), CallTokens(lang, c));
      TokenizedJoin(lang.ds, CallTokens(lang, c), Print(lang, c), rest, PrintAll(lang, items[0].filler, items[1..]));
      TokenizedJoin(lang.ds, Tokenize(lang.ds, pre), pre, CallTokens(lang, c) + rest,
        Print(lang, c) + PrintAll(lang, items[0].filler, items[1..]));
    }
  }

  // ----- filler holds no macro, a balanced source closes where it ends -----

  lemma TokenInText(ts: seq<string>, s: string, i: nat) returns (at: nat)
    requires Concat(ts) == s && i < |ts|
    ensures at <= |s| && ts[i] <= s[at..]
  {
    at := |Concat(ts[..i])|;
    ConcatSplit(ts, i);
    assert ts[i..][0] == ts[i] && Concat(ts[i..]) == ts[i] + Concat(ts[i..][1..]);
    assert s[at..] == Concat(ts[i..]);
  }

  lemma NoMacroTokens(lang: Language, s: string, i: nat)
    requires lang.Valid()
    requires NameFree(lang, s) && i < |Tokenize(lang.ds, s)|
    ensures !IsMacro(Tokenize(lang.ds, s)[i])
  {
    assert OpenLanguage(true) && OpenWellFormed(true);
    TokenizeSound(lang.ds, s);
    var at := TokenInText(Tokenize(lang.ds, s), s, i);
    assert !NameAt(lang, s, at);
  }

  lemma {:induction false} ParensAppend(a: string, b: string)
    ensures Parens(a + b) == Parens(a) + Parens(b)
  {
    if a == "" {
      assert a + b == b;
    } else {
      assert (a + b)[0] == a[0] && (a + b)[1..] == a[1..] + b;
      ParensAppend(a[1..], b);
    }
  }

  lemma {:induction false} NoParens(s: string)
    requires '(' !in s && ')' !in s
    ensures Parens(s) == 0
  {
    if s != "" {
      NoParens(s[1..]);
    }
  }

  lemma PlainHasNoParens(ds: seq<string>, t: string)
    requires Separable(ds) && "(" in ds && ")" in ds && DelimFree(ds, t)
    ensures '(' !in t && ')' !in t
  {
    FirstDelimLeast(ds, t);
    forall j | 0 <= j < |t|
      ensures t[j] != '(' && t[j] != ')'
    {
      if t[j] == '(' {
        SomeHead(ds, t[j..], "(");
      } else if t[j] == ')' {
        SomeHead(ds, t[j..], ")");
      }
    }
  }

  lemma TokenParens(lang: Language, t: string)
    requires lang.Valid() && IsToken(lang.ds, t)
    ensures Parens(t) == Weight(t)
  {
    assert OpenLanguage(true) && OpenWellFormed(true);
    if t == "(" || t == ")" {
      assert t[1..] == "";
    } else {
      if t !in lang.ds {
        PlainHasNoParens(lang.ds, t);
      }
      NoParens(t);
    }
  }

  // Token k + i is part's token i.
  ghost predicate Held(ts: seq<string>, k: nat, part: seq<string>, i: nat) {
    i < |part| && k + i < |ts| && ts[k + i] == part[i]
  }

  // The tokens from k on begin with part.
  ghost predicate Holds(ts: seq<string>, k: nat, part: seq<string>) {
    k + |part| <= |ts| && forall i {:trigger Held(ts, k, part, i)} :: 0 <= i < |part| ==> Held(ts, k, part, i)
  }

  // Counting parentheses in tokens is counting them in the text.
  ghost predicate WeighsRight(part: seq<string>, i: nat)
    requires i < |part|
  {
    Parens(part[i]) == Weight(part[i])
  }

  ghost predicate Weighted(part: seq<string>) {
    forall i {:trigger WeighsRight(part, i)} :: 0 <= i < |part| ==> WeighsRight(part, i)
  }

  lemma {:induction false} DepthIsParens(ts: seq<string>, k: nat, part: seq<string>, n: nat)
    requires Holds(ts, k, part) && n <= |part|
    requires Weighted(part)
    ensures Depth(ts, k, k + n) == Parens(Concat(part[..n]))
    decreases n
  {
    if n > 0 {
      DepthIsParens(ts, k, part, n - 1);
      assert Held(ts, k, part, n - 1) && WeighsRight(part, n - 1);
      ConcatSnoc(part, n - 1);
      ParensAppend(Concat(part[..n - 1]), part[n - 1]);
    }
  }

  lemma BalancedPrefix(ts: seq<string>, k: nat, part: seq<string>, source: string, n: nat)
    requires Balanced(source) && Holds(ts, k, part) && Concat(part) == source && n <= |part|
    requires Weighted(part)
    ensures Depth(ts, k, k + n) >= 0 && (n == |part| ==> Depth(ts, k, k + n) == 0)
  {
    DepthIsParens(ts, k, part, n);
    ConcatSplit(part, n);
    var m := |Concat(part[..n])|;
    assert Concat(part[..n]) == source[..m] && OpenEnough(source, m);
    if n == |part| {
      assert part[..n] == part;
    }
  }

  lemma BalancedCloses(ts: seq<string>, k: nat, part: seq<string>, source: string)
    requires Balanced(source) && Holds(ts, k, part) && Concat(part) == source
    requires Weighted(part)
    requires k + |part| < |ts| && ts[k + |part|] == ")"
    ensures CloseAt(ts, k, 1) == k + |part|
  {
    forall j | k <= j <= k + |part|
      ensures Depth(ts, k, j) >= 0
    {
      BalancedPrefix(ts, k, part, source, j - k);
    }
    BalancedPrefix(ts, k, part, source, |part|);
    CloseAtIsShortest(ts, k, k + |part|);
  }

  lemma SourceTokens(lang: Language, part: seq<string>, source: string)
    requires lang.Valid()
    requires part == Tokenize(lang.ds, source)
    ensures Concat(part) == source && Weighted(part)
  {
    assert OpenLanguage(true) && OpenWellFormed(true);
    TokenizeSound(lang.ds, source);
    forall i | 0 <= i < |part|
      ensures WeighsRight(part, i)
    {
      TokenParens(lang, part[i]);
    }
  }

  // ----- scraping the tokens -----

  lemma {:induction false} SpellHolds(ts: seq<string>, k: nat, part: seq<string>, n: nat)
    requires Holds(ts, k, part) && n <= |part|
    ensures Spell(ts, k, k + n) == Concat(part[..n])
    ensures LineAt(ts, k + n) == LineAt(ts, k) + Newlines(Concat(part[..n]))
    decreases n
  {
    if n > 0 {
      SpellHolds(ts, k, part, n - 1);
      assert Held(ts, k, part, n - 1);
      ConcatSnoc(part, n - 1);
    }
  }

  ghost predicate NotMacro(part: seq<string>, i: nat)
    requires i < |part|
  {
    !IsMacro(part[i])
  }

  ghost predicate NoMacros(part: seq<string>) {
    forall i {:trigger NotMacro(part, i)} :: 0 <= i < |part| ==> NotMacro(part, i)
  }

  lemma {:induction false} FillerSkipped(ts: seq<string>, k: nat, part: seq<string>, n: nat, eofLine: nat)
    requires Holds(ts, k, part) && NoMacros(part) && n <= |part|
    ensures Finds(ts, k, k + n, eofLine, [])
    decreases n
  {
    if n == 0 {
      FindsNothing(ts, k, eofLine);
    } else {
      FillerSkipped(ts, k, part, n - 1, eofLine);
      assert Held(ts, k, part, n - 1) && NotMacro(part, n - 1);
      FindsOther(ts, k + n - 1, eofLine);
      FindsJoin(ts, k, k + n - 1, k + n, eofLine, [], []);
    }
  }

  lemma HoldsSplit(ts: seq<string>, k: nat, a: seq<string>, b: seq<string>)
    requires Holds(ts, k, a + b)
    ensures Holds(ts, k, a) && Holds(ts, k + |a|, b)
  {
    forall i | 0 <= i < |a|
      ensures Held(ts, k, a, i)
    {
      assert Held(ts, k, a + b, i);
    }
    var m := k + |a|;
    forall i | 0 <= i < |b|
      ensures Held(ts, m, b, i)
    {
      assert Held(ts, k, a + b, |a| + i);
    }
  }

  // What the parser makes of a call whose tokens end at n.
  function Read(ts: seq<string>, k: nat, c: Call, n: nat): MacroResult
    requires k + 2 <= n <= |ts|
  {
    Found(Shot(Strip(c.stage), c.source, LineAt(ts, k + 2), LineAt(ts, n)), n)
  }

  // The call named by token k is read as c, up to token n; folded.
  ghost predicate ReadAs(ts: seq<string>, k: nat, c: Call, eofLine: nat, n: nat) {
    k + 2 <= n <= |ts| && k < |ts| && forall w {:trigger OpenRead(w)} :: OpenRead(w) ==>
      Macro(ts, k + 1, ts[k], eofLine) == Read(ts, k, c, n)
  }

  // The source from token s on is closed by token e; folded.
  ghost predicate SourceAt(ts: seq<string>, s: nat, e: nat, source: string) {
    s <= e < |ts| && forall w {:trigger OpenSource(w)} :: OpenSource(w) ==>
      CloseAt(ts, s, 1) == e && Spell(ts, s, e) == source
  }

  // The parser's reading of one call, token by token.
  lemma MacroReads(ts: seq<string>, k: nat, c: Call, s: nat, e: nat, eofLine: nat)
    requires k + 2 < s <= e < |ts| && ts[k + 1] == "(" && IsCreate(ts[k]) == c.device.Some?
    requires s == (if c.device.Some? then k + 6 else k + 4) && ts[s - 2] == c.stage && ts[s - 1] == ","
    requires c.device.Some? ==> ts[k + 3] == ","
    requires SourceAt(ts, s, e, c.source)
    ensures ReadAs(ts, k, c, eofLine, e + 1)
  {
    assert OpenSource(true);
  }

  // Where the pieces of a call are among the tokens.
  lemma CallLayout(ts: seq<string>, k: nat, name: string, c: Call, part: seq<string>)
    requires Holds(ts, k, [name, "("] + ArgumentTokens(c) + part + [")"])
    ensures var s := if c.device.Some? then k + 6 else k + 4;
      s == k + 2 + |ArgumentTokens(c)| && s + |part| < |ts| &&
      ts[k] == name && ts[k + 1] == "(" && (c.device.Some? ==> ts[k + 3] == ",") &&
      ts[s - 2] == c.stage && ts[s - 1] == "," && Holds(ts, s, part) && ts[s + |part|] == ")" &&
      Holds(ts, k + 2, ArgumentTokens(c))
  {
    var args := ArgumentTokens(c);
    HoldsSplit(ts, k, [name, "("] + args + part, [")"]);
    HoldsSplit(ts, k, [name, "("] + args, part);
    HoldsSplit(ts, k, [name, "("], args);
    ArgumentsRead(ts, k + 2, c);
    HoldsPair(ts, k, name, "(");
    HoldsOne(ts, k + 2 + |args| + |part|, ")");
  }

  lemma HoldsOne(ts: seq<string>, k: nat, a: string)
    requires Holds(ts, k, [a])
    ensures ts[k] == a
  {
    assert Held(ts, k, [a], 0);
  }

  lemma HoldsPair(ts: seq<string>, k: nat, a: string, b: string)
    requires Holds(ts, k, [a, b])
    ensures ts[k] == a && ts[k + 1] == b
  {
    assert Held(ts, k, [a, b], 0) && Held(ts, k, [a, b], 1);
  }

  lemma ArgumentsRead(ts: seq<string>, k: nat, c: Call)
    requires Holds(ts, k, ArgumentTokens(c))
    ensures var q := if c.device.Some? then k + 2 else k;
      k + |ArgumentTokens(c)| == q + 2 && ts[q] == c.stage && ts[q + 1] == "," && (c.device.Some? ==> ts[k + 1] == ",")
  {
    if c.device.Some? {
      HoldsSplit(ts, k, [c.device.value, ","], [c.stage, ","]);
      HoldsPair(ts, k, c.device.value, ",");
      HoldsPair(ts, k + 2, c.stage, ",");
    } else {
      assert ArgumentTokens(c) == [c.stage, ","];
      HoldsPair(ts, k, c.stage, ",");
    }
  }

  // The tokens of a balanced source; folded.
  ghost predicate SourcePart(source: string, part: seq<string>) {
    forall w {:trigger OpenSource(w)} :: OpenSource(w) ==>
      Balanced(source) && Concat(part) == source && Weighted(part)
  }

  lemma SourceRead(ts: seq<string>, s: nat, source: string, part: seq<string>)
    requires Holds(ts, s, part) && s + |part| < |ts| && ts[s + |part|] == ")" && SourcePart(source, part)
    ensures SourceAt(ts, s, s + |part|, source)
  {
    assert OpenSource(true);
    BalancedCloses(ts, s, part, source);
    SpellHolds(ts, s, part, |part|);
    assert part[..|part|] == part;
  }

  lemma CallFacts(lang: Language, c: Call)
    requires lang.Valid() && WellFormed(lang, c)
    ensures Balanced(c.source) && IsMacro(Name(lang, c)) && IsCreate(Name(lang, c)) == c.device.Some?
  {
    assert OpenLanguage(true) && OpenWellFormed(true);
  }

  lemma CallSource(lang: Language, c: Call, part: seq<string>)
    requires lang.Valid() && WellFormed(lang, c) && part == Tokenize(lang.ds, c.source)
    ensures SourcePart(c.source, part)
  {
    CallFacts(lang, c);
    SourceTokens(lang, part, c.source);
  }

  // One printed call, at its place among the tokens.
  lemma CallScraped(lang: Language, ts: seq<string>, k: nat, c: Call, eofLine: nat)
    requires lang.Valid()
    requires WellFormed(lang, c) && Holds(ts, k, CallTokens(lang, c))
    ensures var n := k + |CallTokens(lang, c)|;
      k < |ts| && IsMacro(ts[k]) && ReadAs(ts, k, c, eofLine, n)
  {
    var part := Tokenize(lang.ds, c.source);
    CallFacts(lang, c);
    CallSource(lang, c, part);
    CallRead(ts, k, Name(lang, c), c, part, eofLine, k + |CallTokens(lang, c)|);
  }

  lemma CallRead(ts: seq<string>, k: nat, name: string, c: Call, part: seq<string>, eofLine: nat, n: nat)
    requires Holds(ts, k, [name, "("] + ArgumentTokens(c) + part + [")"]) && IsCreate(name) == c.device.Some?
    requires SourcePart(c.source, part) && n == k + |ArgumentTokens(c)| + |part| + 3
    ensures k < |ts| && ts[k] == name && ReadAs(ts, k, c, eofLine, n)
  {
    CallLayout(ts, k, name, c, part);
    var s := k + 2 + |ArgumentTokens(c)|;
    SourceRead(ts, s, c.source, part);
    MacroReads(ts, k, c, s, s + |part|, eofLine);
  }

  lemma Span(ts: seq<string>, k: nat, part: seq<string>, text: string)
    requires Holds(ts, k, part) && Concat(part) == text
    ensures LineAt(ts, k + |part|) == LineAt(ts, k) + Newlines(text)
  {
    SpellHolds(ts, k, part, |part|);
    assert part[..|part|] == part;
  }

  lemma CallText(lang: Language, c: Call)
    requires lang.Valid()
    requires WellFormed(lang, c)
    ensures Concat(CallTokens(lang, c)) == Print(lang, c)
  {
    assert OpenLanguage(true) && OpenWellFormed(true);
    TokenizeSound(lang.ds, c.source);
    CallTokenized(lang.ds, c, Name(lang, c), Tokenize(lang.ds, c.source), CallTokens(lang, c));
  }

  lemma CallHeight(lang: Language, c: Call)
    requires lang.Valid()
    requires WellFormed(lang, c)
    ensures Newlines(Concat(CallTokens(lang, c))) == Height(c)
    ensures |CallTokens(lang, c)| > 2 && CallTokens(lang, c)[0] == Name(lang, c) && CallTokens(lang, c)[1] == "("
  {
    CallText(lang, c);
    NameLine(lang, c);
    PrintLines(Name(lang, c), Arguments(c), c.source);
  }

  lemma CallLines(ts: seq<string>, k: nat, ct: seq<string>)
    requires Holds(ts, k, ct) && |ct| > 2 && Newlines(ct[0]) == 0 && Newlines(ct[1]) == 0
    ensures LineAt(ts, k + 2) == LineAt(ts, k)
    ensures LineAt(ts, k + |ct|) == LineAt(ts, k) + Newlines(Concat(ct))
  {
    Span(ts, k, ct, Concat(ct));
    assert Held(ts, k, ct, 0) && Held(ts, k, ct, 1);
    assert LineAt(ts, k + 1) == LineAt(ts, k) + Newlines(ts[k]);
  }

  lemma NameLine(lang: Language, c: Call)
    requires lang.Valid()
    ensures Newlines(Name(lang, c)) == 0
  {
    assert OpenLanguage(true) && OpenWellFormed(true);
    NewlineFree(Name(lang, c));
  }

  lemma PrintLines(name: string, args: string, source: string)
    ensures Newlines(name + ("(" + (args + (source + ")")))) == Newlines(name) + Newlines(args) + Newlines(source)
  {
    NewlinesAppend(name, "(" + (args + (source + ")")));
    NewlinesAppend("(", args + (source + ")"));
    NewlinesAppend(args, source + ")");
    NewlinesAppend(source, ")");
    NewlineFree("(");
    NewlineFree(")");
  }

  // The tokens of filler, of a call and of a program, folded.
  ghost predicate FillerPart(lang: Language, pre: string, part: seq<string>) {
    forall w {:trigger OpenPart(w)} :: OpenPart(w) ==> part == Tokenize(lang.ds, pre)
  }

  ghost predicate CallPart(lang: Language, c: Call, part: seq<string>) {
    forall w {:trigger OpenPart(w)} :: OpenPart(w) ==> part == CallTokens(lang, c)
  }

  ghost predicate ProgramPart(lang: Language, pre: string, items: seq<Item>, part: seq<string>) {
    forall w {:trigger OpenPart(w)} :: OpenPart(w) ==> part == AllTokens(lang, pre, items)
  }

  lemma FillerTokens(lang: Language, pre: string, part: seq<string>)
    requires lang.Valid()
    requires NameFree(lang, pre) && FillerPart(lang, pre, part)
    ensures Concat(part) == pre && NoMacros(part)
  {
    assert OpenPart(true);
    assert OpenLanguage(true) && OpenWellFormed(true);
    TokenizeSound(lang.ds, pre);
    forall i | 0 <= i < |part|
      ensures NotMacro(part, i)
    {
      NoMacroTokens(lang, pre, i);
    }
  }

  lemma FillerNoMacros(lang: Language, pre: string, part: seq<string>)
    requires lang.Valid() && NameFree(lang, pre) && FillerPart(lang, pre, part)
    ensures NoMacros(part)
  {
    FillerTokens(lang, pre, part);
  }

  // Filler at its place among the tokens is skipped.
  lemma FillerScraped(lang: Language, ts: seq<string>, k: nat, pre: string, part: seq<string>, eofLine: nat)
    requires lang.Valid() && NameFree(lang, pre) && FillerPart(lang, pre, part) && Holds(ts, k, part)
    ensures Finds(ts, k, k + |part|, eofLine, [])
  {
    FillerNoMacros(lang, pre, part);
    FillerSkipped(ts, k, part, |part|, eofLine);
  }

  lemma FillerLines(lang: Language, ts: seq<string>, k: nat, pre: string, part: seq<string>)
    requires lang.Valid() && NameFree(lang, pre) && FillerPart(lang, pre, part) && Holds(ts, k, part)
    ensures LineAt(ts, k + |part|) == LineAt(ts, k) + Newlines(pre)
  {
    FillerTokens(lang, pre, part);
    Span(ts, k, part, pre);
  }

  // One call: what is read.
  lemma CallShot(lang: Language, ts: seq<string>, m: nat, c: Call, part: seq<string>, eofLine: nat) returns (shot: Shot)
    requires lang.Valid() && WellFormed(lang, c) && CallPart(lang, c, part) && Holds(ts, m, part)
    ensures 2 < |part| && Reads(ts, m, eofLine, shot, m + |part|)
    ensures shot.stage == Strip(c.stage) && shot.source == c.source
    ensures shot.startLine == LineAt(ts, m + 2) && shot.endLine == LineAt(ts, m + |part|)
  {
    assert OpenPart(true) && OpenRead(true);
    CallScraped(lang, ts, m, c, eofLine);
    shot := Read(ts, m, c, m + |part|).shot;
  }

  // And the lines it starts and ends on.
  lemma CallShotLines(lang: Language, ts: seq<string>, m: nat, c: Call, part: seq<string>)
    requires lang.Valid() && WellFormed(lang, c) && CallPart(lang, c, part) && Holds(ts, m, part)
    ensures 2 < |part| && LineAt(ts, m + 2) == LineAt(ts, m) && LineAt(ts, m + |part|) == LineAt(ts, m) + Height(c)
  {
    assert OpenPart(true);
    CallHeight(lang, c);
    NameLine(lang, c);
    NewlineFree("(");
    CallLines(ts, m, part);
  }

  // A program is filler, a call, and the program after it.
  lemma FirstParts(lang: Language, pre: string, items: seq<Item>, all: seq<string>)
    returns (part: seq<string>, ct: seq<string>, rest: seq<string>)
    requires items != [] && ProgramPart(lang, pre, items, all)
    ensures all == part + (ct + rest)
    ensures FillerPart(lang, pre, part) && CallPart(lang, items[0].call, ct)
    ensures ProgramPart(lang, items[0].filler, items[1..], rest)
  {
    assert OpenPart(true);
    part, ct := Tokenize(lang.ds, pre), CallTokens(lang, items[0].call);
    rest := AllTokens(lang, items[0].filler, items[1..]);
  }

  lemma {:induction false} AllScraped(lang: Language, ts: seq<string>, k: nat, pre: string, items: seq<Item>,
                                      all: seq<string>, line: nat, eofLine: nat)
    requires lang.Valid() && WellFormedAll(lang, pre, items) && ProgramPart(lang, pre, items, all)
    requires Holds(ts, k, all) && line == LineAt(ts, k) && k + |all| == |ts|
    ensures Finds(ts, k, |ts|, eofLine, Expected(line, pre, items))
    decreases |items|
  {
    if items == [] {
      LastFiller(lang, pre, all);
      FillerScraped(lang, ts, k, pre, all, eofLine);
    } else {
      var part, ct, rest := FirstParts(lang, pre, items, all);
      var shot := FirstScraped(lang, ts, k, pre, items[0].call, part, ct, rest, line, eofLine);
      var n := k + |part| + |ct|;
      AllScraped(lang, ts, n, items[0].filler, items[1..], rest, shot.endLine, eofLine);
      FindsJoin(ts, k, n, |ts|, eofLine, [shot], Expected(shot.endLine, items[0].filler, items[1..]));
      ExpectedFirst(line, pre, items, shot);
    }
  }

  // The first call of a program: what is found and where the scan goes on.
  lemma FirstScraped(lang: Language, ts: seq<string>, k: nat, pre: string, c: Call,
                     part: seq<string>, ct: seq<string>, rest: seq<string>, line: nat, eofLine: nat)
    returns (shot: Shot)
    requires lang.Valid() && NameFree(lang, pre) && WellFormed(lang, c)
    requires FillerPart(lang, pre, part) && CallPart(lang, c, ct)
    requires Holds(ts, k, part + (ct + rest)) && line == LineAt(ts, k)
    ensures var n := k + |part| + |ct|;
      Holds(ts, n, rest) && Finds(ts, k, n, eofLine, [shot]) && shot.endLine == LineAt(ts, n)
    ensures shot.stage == Strip(c.stage) && shot.source == c.source
    ensures shot.startLine == line + Newlines(pre) && shot.endLine == shot.startLine + Height(c)
  {
    var m := k + |part|;
    HoldsSplit(ts, k, part, ct + rest);
    HoldsSplit(ts, m, ct, rest);
    FillerScraped(lang, ts, k, pre, part, eofLine);
    FillerLines(lang, ts, k, pre, part);
    shot := CallShot(lang, ts, m, c, ct, eofLine);
    CallShotLines(lang, ts, m, c, ct);
    FindsMacro(ts, m, eofLine, shot, m + |ct|);
    FindsJoin(ts, k, m, m + |ct|, eofLine, [], [shot]);
    assert [] + [shot] == [shot];
  }

  lemma LastFiller(lang: Language, pre: string, all: seq<string>)
    requires ProgramPart(lang, pre, [], all)
    ensures FillerPart(lang, pre, all)
  {
    assert OpenPart(true);
  }

  lemma ExpectedFirst(line: nat, pre: string, items: seq<Item>, shot: Shot)
    requires items != [] && shot.stage == Strip(items[0].call.stage) && shot.source == items[0].call.source
    requires shot.startLine == line + Newlines(pre) && shot.endLine == shot.startLine + Height(items[0].call)
    ensures Expected(line, pre, items) == [shot] + Expected(shot.endLine, items[0].filler, items[1..])
  {
    var c, end := items[0].call, line + Newlines(pre) + Height(items[0].call);
    ShotIs(line, pre, c, shot);
    assert Expected(line, pre, items) == [CallAfter(line, pre, c)] + Expected(end, items[0].filler, items[1..]);
  }

  lemma ShotIs(line: nat, pre: string, c: Call, shot: Shot)
    requires shot.stage == Strip(c.stage) && shot.source == c.source
    requires shot.startLine == line + Newlines(pre) && shot.endLine == shot.startLine + Height(c)
    ensures shot == CallAfter(line, pre, c)
  {
  }

  // Scraping what was printed gives back exactly the calls, in order, each with
  // its stage stripped, its source as printed and the lines of its parentheses.
  lemma ScrapeRoundTrip(lang: Language, pre: string, items: seq<Item>, eofLine: nat)
    requires lang.Valid() && WellFormedAll(lang, pre, items)
    ensures Scrape(Tokenize(lang.ds, PrintAll(lang, pre, items)), 0, eofLine) ==
      ScrapeResult(Expected(1, pre, items), None)
  {
    var ts := ProgramTokens(lang, pre, items);
    AllScraped(lang, ts, 0, pre, items, ts, 1, eofLine);
    FindsAll(ts, 0, eofLine, Expected(1, pre, items));
  }

  lemma ProgramTokens(lang: Language, pre: string, items: seq<Item>) returns (ts: seq<string>)
    requires lang.Valid() && WellFormedAll(lang, pre, items)
    ensures ts == Tokenize(lang.ds, PrintAll(lang, pre, items)) && ProgramPart(lang, pre, items, ts) && Holds(ts, 0, ts)
  {
    assert OpenLanguage(true);
    ts := AllTokens(lang, pre, items);
    AllTokenized(lang, pre, items);
    TokenizedUnique(lang.ds, ts, PrintAll(lang, pre, items));
    forall i | 0 <= i < |ts|
      ensures Held(ts, 0, ts, i)
    {
    }
  }
}
