// Every file that the scraper reads without error, with each call closed and
// its arguments plain text, is the printing of exactly one list of calls and
// fillers: scraping and printing are inverse both ways.
module ScrapeInverse {
  import opened Text
  import opened Tokens
  import opened Macros
  import opened ScrapeSpec
  import opened RoundTrip
  import opened Unprinting

  // Always true: the trigger that keeps the definitions of Yields and Prints folded
  // until a proof names it.
  predicate OpenYields(w: bool) {
    true
  }

  // The tokens from k on are tidy, and p is read off them; folded.
  ghost predicate Yields(lang: Language, ts: seq<string>, k: nat, p: Program) {
    forall w {:trigger OpenYields(w)} :: OpenYields(w) ==> Tidy(lang, ts, k) && Unprint(lang, ts, k) == p
  }

  // p is well formed and prints text; folded.
  ghost predicate Prints(lang: Language, p: Program, text: string) {
    forall w {:trigger OpenYields(w)} :: OpenYields(w) ==>
      WellFormedAll(lang, p.pre, p.items) && PrintAll(lang, p.pre, p.items) == text
  }

  // The tidy texts are exactly the printed ones, and each prints one program.
  lemma TidyIffPrinted(lang: Language, text: string)
    requires lang.Valid()
    ensures Tidy(lang, Tokenize(lang.ds, text), 0) <==> exists p :: Prints(lang, p, text)
    ensures forall p, q :: Prints(lang, p, text) && Prints(lang, q, text) ==> p == q
  {
    var ts := Tokenize(lang.ds, text);
    TidyIffYields(lang, ts, 0);
    forall p
      ensures Prints(lang, p, text) <==> Yields(lang, ts, 0, p)
    {
      if Prints(lang, p, text) {
        UnprintOfPrint(lang, p, text);
      } else if Yields(lang, ts, 0, p) {
        PrintOfUnprint(lang, p, text);
      }
    }
    forall p, q | Prints(lang, p, text) && Prints(lang, q, text)
      ensures p == q
    {
      YieldsOne(lang, ts, 0, p, q);
    }
  }

  // The program that a tidy text prints.
  lemma TidyProgram(lang: Language, text: string) returns (r: Program)
    requires lang.Valid() && Tidy(lang, Tokenize(lang.ds, text), 0)
    ensures Prints(lang, r, text) && forall p :: Prints(lang, p, text) ==> p == r
  {
    TidyIffPrinted(lang, text);
    r :| Prints(lang, r, text);
  }

  // Unprinting gives back what was printed.
  lemma UnprintOfPrint(lang: Language, p: Program, text: string)
    requires lang.Valid() && Prints(lang, p, text)
    ensures Yields(lang, Tokenize(lang.ds, text), 0, p)
  {
    assert OpenYields(true);
    var ts := ProgramTokens(lang, p.pre, p.items);
    AllUnprinted(lang, ts, 0, p.pre, p.items, ts);
  }

  // And printing gives back what was unprinted, a well-formed program.
  lemma PrintOfUnprint(lang: Language, p: Program, text: string)
    requires lang.Valid() && Yields(lang, Tokenize(lang.ds, text), 0, p)
    ensures Prints(lang, p, text)
  {
    assert OpenLanguage(true) && OpenYields(true);
    var ts := Tokenize(lang.ds, text);
    TokenizeSound(lang.ds, text);
    UnprintWellFormed(lang, ts, text, 0);
    UnprintPrints(lang, ts, 0);
    TextFromIs(ts, 0);
    assert ts[0..] == ts;
  }

  lemma PrintsScrapes(lang: Language, p: Program, text: string, eofLine: nat)
    requires lang.Valid() && Prints(lang, p, text)
    ensures Scrape(Tokenize(lang.ds, text), 0, eofLine) == ScrapeResult(Expected(1, p.pre, p.items), None)
  {
    assert OpenYields(true);
    ScrapeRoundTrip(lang, p.pre, p.items, eofLine);
  }

  lemma YieldsOne(lang: Language, ts: seq<string>, k: nat, p: Program, q: Program)
    requires Yields(lang, ts, k, p) && Yields(lang, ts, k, q)
    ensures p == q
  {
    assert OpenYields(true);
  }

  lemma TidyIffYields(lang: Language, ts: seq<string>, k: nat)
    ensures Tidy(lang, ts, k) <==> exists p :: Yields(lang, ts, k, p)
  {
    assert OpenYields(true);
    if Tidy(lang, ts, k) {
      assert Yields(lang, ts, k, Unprint(lang, ts, k));
    }
  }

  // ----- unprinting a printed program -----

  lemma {:induction false} FillerUnprinted(lang: Language, ts: seq<string>, k: nat, part: seq<string>, i: nat)
    requires Holds(ts, k, part) && NoMacros(part) && i <= |part| && Tidy(lang, ts, k + |part|)
    ensures Tidy(lang, ts, k + i)
    ensures var rest := Unprint(lang, ts, k + |part|);
      Unprint(lang, ts, k + i) == Program(Concat(part[i..]) + rest.pre, rest.items)
    decreases |part| - i
  {
    var rest := Unprint(lang, ts, k + |part|);
    if i < |part| {
      FillerUnprinted(lang, ts, k, part, i + 1);
      assert Held(ts, k, part, i) && NotMacro(part, i);
      assert part[i..][1..] == part[i + 1..];
      Associative(part[i], Concat(part[i + 1..]), rest.pre);
    } else {
      assert "" + rest.pre == rest.pre;
    }
  }

  // A call's tokens make it tidy, and are read back as the call.
  lemma TokensUnprinted(lang: Language, ts: seq<string>, k: nat, c: Call, s: nat, e: nat)
    requires k + 2 < s <= e < |ts| && ts[k + 1] == "(" && IsCreate(ts[k]) == c.device.Some?
    requires s == (if c.device.Some? then k + 6 else k + 4) && ts[s - 2] == c.stage && ts[s - 1] == ","
    requires c.device.Some? ==> ts[k + 2] == c.device.value && ts[k + 3] == ","
    requires SourceAt(ts, s, e, c.source)
    requires Plain(lang, c.stage) && (c.device.Some? ==> Plain(lang, c.device.value))
    ensures TidyCall(lang, ts, k) && CallAt(ts, k) == c && CallEnd(ts, k) == e + 1
  {
    assert OpenSource(true);
  }

  lemma DeviceHeld(ts: seq<string>, k: nat, c: Call)
    requires Holds(ts, k, ArgumentTokens(c)) && c.device.Some?
    ensures ts[k] == c.device.value
  {
    HoldsSplit(ts, k, [c.device.value, ","], [c.stage, ","]);
    HoldsPair(ts, k, c.device.value, ",");
  }

  lemma CallReadBack(lang: Language, ts: seq<string>, m: nat, name: string, c: Call, part: seq<string>)
    requires Holds(ts, m, [name, "("] + ArgumentTokens(c) + part + [")"]) && IsCreate(name) == c.device.Some?
    requires SourcePart(c.source, part)
    requires Plain(lang, c.stage) && (c.device.Some? ==> Plain(lang, c.device.value))
    ensures var n := m + |[name, "("] + ArgumentTokens(c) + part + [")"]|;
      m < n <= |ts| && ts[m] == name && TidyCall(lang, ts, m) && CallAt(ts, m) == c && CallEnd(ts, m) == n
  {
    CallLayout(ts, m, name, c, part);
    var s := m + 2 + |ArgumentTokens(c)|;
    SourceRead(ts, s, c.source, part);
    if c.device.Some? {
      DeviceHeld(ts, m + 2, c);
    }
    TokensUnprinted(lang, ts, m, c, s, s + |part|);
  }

  lemma CallUnprinted(lang: Language, ts: seq<string>, m: nat, c: Call, ct: seq<string>)
    requires lang.Valid() && WellFormed(lang, c) && CallPart(lang, c, ct) && Holds(ts, m, ct)
    ensures m < m + |ct| <= |ts| && IsMacro(ts[m]) && TidyCall(lang, ts, m)
    ensures CallAt(ts, m) == c && CallEnd(ts, m) == m + |ct|
  {
    assert OpenPart(true);
    var part := Tokenize(lang.ds, c.source);
    CallFacts(lang, c);
    assert OpenWellFormed(true);
    CallSource(lang, c, part);
    CallReadBack(lang, ts, m, Name(lang, c), c, part);
  }

  lemma CallStep(lang: Language, ts: seq<string>, m: nat, item: Item, items: seq<Item>)
    requires m < |ts| && IsMacro(ts[m]) && TidyCall(lang, ts, m) && CallAt(ts, m) == item.call
    requires Yields(lang, ts, CallEnd(ts, m), Program(item.filler, items))
    ensures Yields(lang, ts, m, Program("", [item] + items))
  {
    assert OpenYields(true);
  }

  lemma FillerStep(lang: Language, ts: seq<string>, k: nat, pre: string, part: seq<string>, items: seq<Item>)
    requires Holds(ts, k, part) && NoMacros(part) && Concat(part) == pre
    requires Yields(lang, ts, k + |part|, Program("", items))
    ensures Yields(lang, ts, k, Program(pre, items))
  {
    assert OpenYields(true);
    FillerUnprinted(lang, ts, k, part, 0);
    assert pre + "" == pre && part[0..] == part && k + 0 == k;
  }

  // A call before what is unprinted already.
  lemma CallYields(lang: Language, ts: seq<string>, m: nat, item: Item, items: seq<Item>, ct: seq<string>)
    requires lang.Valid() && WellFormed(lang, item.call) && CallPart(lang, item.call, ct) && Holds(ts, m, ct)
    requires Yields(lang, ts, m + |ct|, Program(item.filler, items))
    ensures Yields(lang, ts, m, Program("", [item] + items))
  {
    CallUnprinted(lang, ts, m, item.call, ct);
    CallStep(lang, ts, m, item, items);
  }

  // A filler before it.
  lemma FillerYields(lang: Language, ts: seq<string>, k: nat, pre: string, part: seq<string>, items: seq<Item>)
    requires lang.Valid() && NameFree(lang, pre) && FillerPart(lang, pre, part) && Holds(ts, k, part)
    requires Yields(lang, ts, k + |part|, Program("", items))
    ensures Yields(lang, ts, k, Program(pre, items))
  {
    FillerTokens(lang, pre, part);
    FillerStep(lang, ts, k, pre, part, items);
  }

  lemma NothingYields(lang: Language, ts: seq<string>)
    ensures Yields(lang, ts, |ts|, Program("", []))
  {
  }

  lemma {:induction false} AllUnprinted(lang: Language, ts: seq<string>, k: nat, pre: string, items: seq<Item>,
                                        all: seq<string>)
    requires lang.Valid() && WellFormedAll(lang, pre, items) && ProgramPart(lang, pre, items, all)
    requires Holds(ts, k, all) && k + |all| == |ts|
    ensures Yields(lang, ts, k, Program(pre, items))
    decreases |items|
  {
    if items == [] {
      LastFiller(lang, pre, all);
      NothingYields(lang, ts);
      FillerYields(lang, ts, k, pre, all, []);
    } else {
      var part, ct, rest := FirstParts(lang, pre, items, all);
      var m := k + |part|;
      HoldsSplit(ts, k, part, ct + rest);
      HoldsSplit(ts, m, ct, rest);
      AllUnprinted(lang, ts, m + |ct|, items[0].filler, items[1..], rest);
      CallYields(lang, ts, m, items[0], items[1..], ct);
      FillerYields(lang, ts, k, pre, part, [items[0]] + items[1..]);
      assert [items[0]] + items[1..] == items;
    }
  }
}
