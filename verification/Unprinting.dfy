// Reading a list of calls and fillers off the tokens of a file: when that is
// possible, and that what is read is well formed and prints the file again.
module Unprinting {
  import opened Text
  import opened Tokens
  import opened Macros
  import opened ScrapeSpec
  import opened ScrapeLines
  import opened RoundTrip

  datatype Program = Program(pre: string, items: seq<Item>)

  // Where the source of the call named by token k starts.
  function SourceStart(ts: seq<string>, k: nat): nat
    requires k < |ts|
  {
    if IsCreate(ts[k]) then k + 6 else k + 4
  }

  // Token k begins a call that the parser reads, that is closed, and whose
  // device and stage are plain text.
  predicate TidyCall(lang: Language, ts: seq<string>, k: nat)
    requires k < |ts|
  {
    var s := SourceStart(ts, k);
    Macro(ts, k + 1, ts[k], 0).Found? && s <= |ts| && CloseAt(ts, s, 1) < |ts| &&
    Plain(lang, ts[s - 2]) && (IsCreate(ts[k]) ==> Plain(lang, ts[k + 2]))
  }

  function CallEnd(ts: seq<string>, k: nat): (n: nat)
    requires k < |ts| && SourceStart(ts, k) <= |ts|
    ensures n > k
  {
    CloseAt(ts, SourceStart(ts, k), 1) + 1
  }

  // Every macro name from token k on, outside the calls, begins a tidy call.
  predicate Tidy(lang: Language, ts: seq<string>, k: nat)
    decreases |ts| - k
  {
    k >= |ts| ||
    if !IsMacro(ts[k]) then Tidy(lang, ts, k + 1) else TidyCall(lang, ts, k) && Tidy(lang, ts, CallEnd(ts, k))
  }

  function CallAt(ts: seq<string>, k: nat): Call
    requires k < |ts| && SourceStart(ts, k) <= |ts|
  {
    var s := SourceStart(ts, k);
    Call(if IsCreate(ts[k]) then Some(ts[k + 2]) else None, ts[s - 2], Spell(ts, s, CloseAt(ts, s, 1)))
  }

  // The program that the tokens from k on are a printing of.
  function Unprint(lang: Language, ts: seq<string>, k: nat): Program
    requires Tidy(lang, ts, k)
    decreases |ts| - k
  {
    if k >= |ts| then Program("", [])
    else if !IsMacro(ts[k]) then
      var rest := Unprint(lang, ts, k + 1);
      Program(ts[k] + rest.pre, rest.items)
    else
      var rest := Unprint(lang, ts, CallEnd(ts, k));
      Program("", [Item(CallAt(ts, k), rest.pre)] + rest.items)
  }

  lemma TidyNext(lang: Language, ts: seq<string>, k: nat, eofLine: nat)
    requires k < |ts| && IsMacro(ts[k]) && TidyCall(lang, ts, k)
    ensures var m := Macro(ts, k + 1, ts[k], eofLine); m.Found? && m.next == CallEnd(ts, k)
  {
  }

  // Tidy tokens are scraped without error.
  lemma {:induction false} TidyScrapes(lang: Language, ts: seq<string>, k: nat, eofLine: nat)
    requires Tidy(lang, ts, k)
    ensures Scrape(ts, k, eofLine).error == None
    decreases |ts| - k
  {
    if k < |ts| {
      if !IsMacro(ts[k]) {
        TidyScrapes(lang, ts, k + 1, eofLine);
      } else {
        TidyNext(lang, ts, k, eofLine);
        ScrapeMacro(ts, k, eofLine, Macro(ts, k + 1, ts[k], eofLine));
        TidyScrapes(lang, ts, CallEnd(ts, k), eofLine);
      }
    }
  }

  // ----- printing gives the text back -----

  function TextFrom(ts: seq<string>, k: nat): string
    decreases |ts| - k
  {
    if k >= |ts| then "" else ts[k] + TextFrom(ts, k + 1)
  }

  lemma {:induction false} TextFromIs(ts: seq<string>, k: nat)
    requires k <= |ts|
    ensures TextFrom(ts, k) == Concat(ts[k..])
    decreases |ts| - k
  {
    if k < |ts| {
      TextFromIs(ts, k + 1);
      assert ts[k..][1..] == ts[k + 1..];
    }
  }

  lemma {:induction false} SpellThen(ts: seq<string>, k: nat, n: nat)
    requires k <= n <= |ts|
    ensures TextFrom(ts, k) == Spell(ts, k, n) + TextFrom(ts, n)
    decreases n
  {
    if k < n {
      SpellThen(ts, k, n - 1);
      Associative(Spell(ts, k, n - 1), ts[n - 1], TextFrom(ts, n));
    } else {
      assert "" + TextFrom(ts, n) == TextFrom(ts, n);
    }
  }

  lemma CallRegroups(name: string, args: string, source: string, rest: string)
    ensures name + ("(" + (args + (source + (")" + rest)))) == (name + ("(" + (args + (source + ")")))) + rest
  {
    Associative(source, ")", rest);
    Associative(args, source + ")", rest);
    Associative("(", args + (source + ")"), rest);
    Associative(name, "(" + (args + (source + ")")), rest);
  }

  lemma NameOf(lang: Language, t: string, c: Call)
    requires lang.Valid() && IsMacro(t) && IsCreate(t) == c.device.Some?
    ensures Name(lang, c) == t
  {
    assert OpenLanguage(true);
  }

  lemma TidyShape(lang: Language, ts: seq<string>, k: nat)
    requires k < |ts| && TidyCall(lang, ts, k)
    ensures var s := SourceStart(ts, k);
      ts[k + 1] == "(" && ts[s - 1] == "," && (IsCreate(ts[k]) ==> ts[k + 3] == ",")
  {
  }

  lemma CallSpelled(ts: seq<string>, k: nat, call: Call, s: nat, c: nat)
    requires k < s <= c < |ts| && s == SourceStart(ts, k) && ts[c] == ")" && call.source == Spell(ts, s, c)
    requires TextFrom(ts, k) == ts[k] + ("(" + (Arguments(call) + TextFrom(ts, s)))
    ensures TextFrom(ts, k) == (ts[k] + ("(" + (Arguments(call) + (call.source + ")")))) + TextFrom(ts, c + 1)
  {
    SpellThen(ts, s, c);
    CallRegroups(ts[k], Arguments(call), call.source, TextFrom(ts, c + 1));
  }

  // The call's text, token by token.
  lemma CallPrinted(lang: Language, ts: seq<string>, k: nat)
    requires lang.Valid() && k < |ts| && IsMacro(ts[k]) && TidyCall(lang, ts, k)
    ensures TextFrom(ts, k) == Print(lang, CallAt(ts, k)) + TextFrom(ts, CallEnd(ts, k))
  {
    var s, call := SourceStart(ts, k), CallAt(ts, k);
    TidyShape(lang, ts, k);
    ArgumentsPrinted(ts, k, call, s);
    CallSpelled(ts, k, call, s, CloseAt(ts, s, 1));
    NameOf(lang, ts[k], call);
  }

  lemma TextStep(ts: seq<string>, k: nat)
    requires k < |ts|
    ensures TextFrom(ts, k) == ts[k] + TextFrom(ts, k + 1)
  {
  }

  lemma ArgumentsRegroup(c: Call, rest: string)
    ensures Arguments(c) + rest ==
      (if c.device.Some? then c.device.value + ("," + (c.stage + ("," + rest))) else c.stage + ("," + rest))
  {
    Associative(c.stage, ",", rest);
    if c.device.Some? {
      Associative(c.device.value, ",", (c.stage + ",") + rest);
      Associative(c.device.value + ",", c.stage + ",", rest);
    } else {
      assert "" + (c.stage + ",") == c.stage + ",";
    }
  }

  lemma ArgumentsPrinted(ts: seq<string>, k: nat, call: Call, s: nat)
    requires k < |ts| && s == SourceStart(ts, k) <= |ts| && call == CallAt(ts, k)
    requires ts[k + 1] == "(" && ts[s - 1] == "," && (IsCreate(ts[k]) ==> ts[k + 3] == ",")
    ensures TextFrom(ts, k) == ts[k] + ("(" + (Arguments(call) + TextFrom(ts, s)))
  {
    TextStep(ts, k);
    TextStep(ts, k + 1);
    TextStep(ts, s - 2);
    TextStep(ts, s - 1);
    if IsCreate(ts[k]) {
      TextStep(ts, k + 2);
      TextStep(ts, k + 3);
    }
    ArgumentsRegroup(call, TextFrom(ts, s));
  }

  lemma {:induction false} UnprintPrints(lang: Language, ts: seq<string>, k: nat)
    requires lang.Valid() && Tidy(lang, ts, k)
    ensures var r := Unprint(lang, ts, k); PrintAll(lang, r.pre, r.items) == TextFrom(ts, k)
    decreases |ts| - k
  {
    if k < |ts| {
      if !IsMacro(ts[k]) {
        UnprintPrints(lang, ts, k + 1);
        var rest := Unprint(lang, ts, k + 1);
        if rest.items != [] {
          Associative(ts[k], rest.pre,
            Print(lang, rest.items[0].call) + PrintAll(lang, rest.items[0].filler, rest.items[1..]));
        }
      } else {
        var n := CallEnd(ts, k);
        UnprintPrints(lang, ts, n);
        CallPrinted(lang, ts, k);
        var rest := Unprint(lang, ts, n);
        var items := [Item(CallAt(ts, k), rest.pre)] + rest.items;
        assert items[1..] == rest.items;
        assert PrintAll(lang, "", items) == "" + (Print(lang, CallAt(ts, k)) + PrintAll(lang, rest.pre, rest.items));
      }
    }
  }

  // ----- the program is well formed -----

  // A delimiter that occurs in a text is one of its tokens.
  lemma {:induction false} OccurrenceIsToken(ds: seq<string>, ts: seq<string>, s: string, i: nat, d: string)
    requires Separable(ds) && Tokenized(ds, ts, s) && d in ds && i <= |s| && d <= s[i..]
    ensures d in ts
    decreases |ts|
  {
    assert NoOverlap(d, d);
    var t, us := ts[0], ts[1..];
    TokenizedTail(ds, ts, s);
    if i >= |t| {
      assert s[i..] == Concat(us)[i - |t|..];
      OccurrenceIsToken(ds, us, Concat(us), i - |t|, d);
    } else if t in ds {
      assert s[i] == t[i] == d[0];
      assert NoOverlap(t, d);
      assert s[0..] == s && t <= s;
      HeadDelimIs(ds, s, t);
      HeadDelimIs(ds, s, d);
    } else {
      NotInPlain(ds, t, us, i, d);
    }
  }

  // None begins inside a plain token.
  lemma NotInPlain(ds: seq<string>, t: string, us: seq<string>, i: nat, d: string)
    requires Separable(ds) && d in ds && i < |t| && DelimFree(ds, t)
    requires us == [] || us[0] in ds
    ensures !(d <= (t + Concat(us))[i..])
  {
    var p, q := t[i..], Concat(us);
    FirstDelimLeast(ds, t);
    assert (t + q)[i..] == p + q;
    if us != [] {
      SomeHead(ds, q, us[0]);
    }
    NoStraddle(ds, p, q);
    if d <= p + q {
      SomeHead(ds, p + q, d);
    }
  }

  lemma NoMacroIn(part: seq<string>, d: string)
    requires NoMacros(part) && IsMacro(d)
    ensures d !in part
  {
    forall j | 0 <= j < |part|
      ensures part[j] != d
    {
      assert NotMacro(part, j);
    }
  }

  lemma FillerNameFree(lang: Language, part: seq<string>, pre: string)
    requires lang.Valid() && Tokenized(lang.ds, part, pre) && NoMacros(part)
    ensures NameFree(lang, pre)
  {
    assert OpenLanguage(true);
    NoMacroIn(part, lang.info);
    NoMacroIn(part, lang.create);
    forall i | 0 <= i <= |pre|
      ensures !NameAt(lang, pre, i)
    {
      if NameAt(lang, pre, i) {
        OccurrenceIsToken(lang.ds, part, pre, i, if lang.info <= pre[i..] then lang.info else lang.create);
      }
    }
  }

  // The filler from token k on, as its own tokens.
  lemma {:induction false} FillerTokenized(lang: Language, ts: seq<string>, s: string, k: nat)
    returns (part: seq<string>)
    requires lang.Valid() && Tokenized(lang.ds, ts, s) && Tidy(lang, ts, k)
    ensures Tokenized(lang.ds, part, Unprint(lang, ts, k).pre) && NoMacros(part)
    ensures part == [] || (k < |ts| && part[0] == ts[k])
    decreases |ts| - k
  {
    if k >= |ts| || IsMacro(ts[k]) {
      part := [];
    } else {
      var rest := FillerTokenized(lang, ts, s, k + 1);
      part := [ts[k]] + rest;
      TokenizedCons(lang.ds, ts[k], rest, Unprint(lang, ts, k + 1).pre);
      forall i | 0 <= i < |part|
        ensures NotMacro(part, i)
      {
        assert i > 0 ==> NotMacro(rest, i - 1) && part[i] == rest[i - 1];
      }
    }
  }

  lemma {:induction false} SpellParens(lang: Language, ts: seq<string>, k: nat, n: nat)
    requires lang.Valid() && k <= n <= |ts| && forall i :: 0 <= i < |ts| ==> IsToken(lang.ds, ts[i])
    ensures Parens(Spell(ts, k, n)) == Depth(ts, k, n)
    decreases n
  {
    if k < n {
      SpellParens(lang, ts, k, n - 1);
      ParensAppend(Spell(ts, k, n - 1), ts[n - 1]);
      TokenParens(lang, ts[n - 1]);
    }
  }

  lemma TokenPrefix(lang: Language, t: string, m: nat)
    requires lang.Valid() && IsToken(lang.ds, t) && m <= |t|
    ensures Parens(t[..m]) == 0 || Parens(t[..m]) == Weight(t)
  {
    assert OpenLanguage(true);
    if t == "(" || t == ")" {
      assert t[..m] == "" || t[..m] == t;
      TokenParens(lang, t);
    } else {
      if t !in lang.ds {
        PlainHasNoParens(lang.ds, t);
      }
      NoParens(t[..m]);
    }
  }

  // What never closes more than it opens, token by token, does not character by
  // character either.
  lemma {:induction false} SpellOpenEnough(lang: Language, ts: seq<string>, k: nat, n: nat, m: nat)
    requires lang.Valid() && k <= n <= |ts| && forall i :: 0 <= i < |ts| ==> IsToken(lang.ds, ts[i])
    requires (forall j :: k <= j <= n ==> Depth(ts, k, j) >= 0) && m <= |Spell(ts, k, n)|
    ensures Parens(Spell(ts, k, n)[..m]) >= 0
    decreases n
  {
    if k < n {
      var before, t := Spell(ts, k, n - 1), ts[n - 1];
      if m <= |before| {
        SpellOpenEnough(lang, ts, k, n - 1, m);
        assert (before + t)[..m] == before[..m];
      } else {
        var x := m - |before|;
        assert (before + t)[..m] == before + t[..x];
        ParensAppend(before, t[..x]);
        SpellParens(lang, ts, k, n - 1);
        TokenPrefix(lang, t, x);
        assert Depth(ts, k, n - 1) >= 0 && Depth(ts, k, n) >= 0;
      }
    }
  }

  lemma SourceBalanced(lang: Language, ts: seq<string>, s: nat)
    requires lang.Valid() && s <= |ts| && CloseAt(ts, s, 1) < |ts|
    requires forall i :: 0 <= i < |ts| ==> IsToken(lang.ds, ts[i])
    ensures Balanced(Spell(ts, s, CloseAt(ts, s, 1)))
  {
    var c := CloseAt(ts, s, 1);
    var source := Spell(ts, s, c);
    CloseAtIsShortest(ts, s, c);
    SpellParens(lang, ts, s, c);
    forall m | 0 <= m <= |source|
      ensures OpenEnough(source, m)
    {
      SpellOpenEnough(lang, ts, s, c, m);
    }
  }

  lemma CallWellFormed(lang: Language, ts: seq<string>, k: nat)
    requires lang.Valid() && k < |ts| && TidyCall(lang, ts, k) && forall i :: 0 <= i < |ts| ==> IsToken(lang.ds, ts[i])
    ensures WellFormed(lang, CallAt(ts, k))
  {
    SourceBalanced(lang, ts, SourceStart(ts, k));
  }

  lemma WellFormedCons(lang: Language, item: Item, items: seq<Item>)
    requires NameFree(lang, "") && WellFormed(lang, item.call) && WellFormedAll(lang, item.filler, items)
    ensures WellFormedAll(lang, "", [item] + items)
  {
  }

  lemma {:induction false} UnprintWellFormed(lang: Language, ts: seq<string>, s: string, k: nat)
    requires lang.Valid() && Tokenized(lang.ds, ts, s) && Tidy(lang, ts, k)
    ensures var r := Unprint(lang, ts, k); WellFormedAll(lang, r.pre, r.items)
    decreases |ts| - k
  {
    var part := FillerTokenized(lang, ts, s, k);
    FillerNameFree(lang, part, Unprint(lang, ts, k).pre);
    if k < |ts| {
      if !IsMacro(ts[k]) {
        UnprintWellFormed(lang, ts, s, k + 1);
      } else {
        UnprintWellFormed(lang, ts, s, CallEnd(ts, k));
        CallWellFormed(lang, ts, k);
        var rest := Unprint(lang, ts, CallEnd(ts, k));
        WellFormedCons(lang, Item(CallAt(ts, k), rest.pre), rest.items);
      }
    }
  }
}
