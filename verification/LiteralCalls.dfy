// Macro calls as they stand in a source file, character by character, and the
// shaders the scraper makes of them.
module LiteralCalls {
  import opened Text
  import opened Tokens
  import opened Macros
  import opened Spaces
  import opened Rewriting
  import opened Occurrences
  import opened Shaders
  import opened ScrapeSpec
  import opened RoundTrip
  import opened Scraper
  import opened ScrapeFile

  ghost predicate NoMacroName(s: string) {
    !Contains(s, "qoShaderModuleCreateInfoGLSL") && !Contains(s, "qoCreateShaderModuleGLSL")
  }

  // An argument in one piece.
  ghost predicate OnePiece(s: string) {
    s != "" && '(' !in s && ')' !in s && ',' !in s && NoMacroName(s)
  }

  // What is free of delimiters holds none of them anywhere.
  lemma FreeIff(ds: seq<string>, s: string)
    requires Separable(ds)
    ensures DelimFree(ds, s) <==> forall d :: d in ds ==> !Contains(s, d)
  {
    FirstDelimLeast(ds, s);
    var n := FirstDelim(ds, s);
    forall d | d in ds
      ensures n == |s| ==> !Contains(s, d)
    {
      assert NoOverlap(d, d);
      ContainsIs(s, d);
      if i :| 0 <= i <= |s| && d <= s[i..] {
        SomeHead(ds, s[i..], d);
      }
    }
    if n < |s| {
      ContainsIs(s, HeadDelim(ds, s[n..]));
    }
  }

  lemma {:induction false} ContainsChar(s: string, c: char)
    ensures Contains(s, [c]) <==> c in s
  {
    if s != "" {
      ContainsChar(s[1..], c);
      assert s == [s[0]] + s[1..];
    }
  }

  // Plain text in the scraper's sense is an argument in one piece.
  lemma PlainIff(s: string)
    ensures Plain(ScraperLanguage(), s) <==> OnePiece(s)
  {
    DelimitersSeparable();
    FreeIff(Delimiters(), s);
    ContainsChar(s, '(');
    ContainsChar(s, ')');
    ContainsChar(s, ',');
    assert InfoMacro() in Delimiters() && CreateMacro() in Delimiters();
    assert "(" in Delimiters() && ")" in Delimiters() && "," in Delimiters();
  }

  lemma NameFreeIff(s: string)
    ensures NameFree(ScraperLanguage(), s) <==> NoMacroName(s)
  {
    MacroNames();
    ContainsIs(s, InfoMacro());
    ContainsIs(s, CreateMacro());
    assert forall i :: 0 <= i <= |s| ==>
      NameAt(ScraperLanguage(), s, i) == (InfoMacro() <= s[i..] || CreateMacro() <= s[i..]);
  }

  // ----- one call -----

  // A stage as source files write it: upper case, with blanks around it.
  predicate StageWord(w: string) {
    w != "" && forall i :: 0 <= i < |w| ==> 'A' <= w[i] <= 'Z' || w[i] == '_'
  }

  lemma StageIsUpper(a: string, w: string, b: string)
    requires Blank(a) && StageWord(w) && Blank(b)
    ensures Visible(w) && a + w + b != ""
    ensures forall c :: c in a + w + b ==> c !in "q(),"
  {
    assert forall c :: c in a + w + b ==> c in a || c in w || c in b;
  }

  lemma StageInOnePiece(a: string, w: string, b: string)
    requires Blank(a) && StageWord(w) && Blank(b)
    ensures OnePiece(a + w + b) && Strip(a + w + b) == w
  {
    StageIsUpper(a, w, b);
    StripBlanks(a, w, b);
    InfoShape(0);
    CreateShape(0);
    NoLowerCase(a + w + b, InfoMacro());
    NoLowerCase(a + w + b, CreateMacro());
  }

  lemma NoLowerCase(s: string, name: string)
    requires 'q' !in s && name != "" && name[0] == 'q'
    ensures !Contains(s, name)
  {
    ContainsIs(s, name);
  }

  lemma OneCallWellFormed(pre: string, c: Call, post: string)
    requires NoMacroName(pre) && NoMacroName(post) && OnePiece(c.stage) && Balanced(c.source)
    requires c.device.Some? ==> OnePiece(c.device.value)
    ensures WellFormedAll(ScraperLanguage(), pre, [Item(c, post)])
  {
    NameFreeIff(pre);
    NameFreeIff(post);
    PlainIff(c.stage);
    if c.device.Some? {
      PlainIff(c.device.value);
    }
  }

  // Always true: the trigger that keeps the definition of OneShader folded until
  // a proof names it.
  predicate OpenOneShader(w: bool) {
    true
  }

  // Scraping the text gives one shader; folded.
  ghost predicate OneShader(lang: Language, text: string, shot: Shot) {
    forall w {:trigger OpenOneShader(w)} :: OpenOneShader(w) ==>
      Scrape(Tokenize(lang.ds, text), 0, 1 + LinesIn(text)) == ScrapeResult([shot], None)
  }

  lemma OneShaderShot(text: string, shot: Shot)
    requires OneShader(ScraperLanguage(), text, shot)
    ensures Shots(text) == ScrapeResult([shot], None)
  {
    assert OpenOneShader(true);
  }

  lemma OneCallRead(lang: Language, pre: string, c: Call, post: string, text: string)
    requires lang.Valid() && WellFormedAll(lang, pre, [Item(c, post)]) && text == pre + (Print(lang, c) + post)
    ensures OneShader(lang, text, CallAfter(1, pre, c))
  {
    var items := [Item(c, post)];
    ScrapeRoundTrip(lang, pre, items, 1 + LinesIn(text));
    OneExpected(lang, 1, pre, c, post, items);
  }

  lemma OneExpected(lang: Language, line: nat, pre: string, c: Call, post: string, items: seq<Item>)
    requires items == [Item(c, post)]
    ensures Expected(line, pre, items) == [CallAfter(line, pre, c)]
    ensures PrintAll(lang, pre, items) == pre + (Print(lang, c) + post)
  {
    assert items[1..] == [];
  }

  lemma ArgumentsAre(c: Call, arguments: string)
    requires arguments == if c.device.Some? then c.device.value + "," + c.stage + "," else c.stage + ","
    ensures Arguments(c) == arguments
  {
  }

  // The text of a call in a file.
  lemma CallLaidOut(lang: Language, pre: string, name: string, c: Call, arguments: string, post: string)
    requires name == Name(lang, c) && Arguments(c) == arguments
    ensures pre + (Print(lang, c) + post) == pre + name + "(" + arguments + c.source + ")" + post
  {
    Regrouped(pre, name, arguments, c.source, post);
  }

  lemma Regrouped(pre: string, name: string, arguments: string, source: string, post: string)
    ensures pre + ((name + ("(" + (arguments + (source + ")")))) + post) ==
      pre + name + "(" + arguments + source + ")" + post
  {
  }

  lemma OneCallScraped(lang: Language, pre: string, c: Call, arguments: string, post: string, shot: Shot)
    requires lang.Valid() && WellFormedAll(lang, pre, [Item(c, post)]) && Arguments(c) == arguments
    requires shot.stage == Strip(c.stage) && shot.source == c.source && shot.startLine == 1 + Newlines(pre)
    requires shot.endLine == shot.startLine + Newlines(arguments) + Newlines(c.source)
    ensures OneShader(lang, pre + Name(lang, c) + "(" + arguments + c.source + ")" + post, shot)
  {
    CallLaidOut(lang, pre, Name(lang, c), c, arguments, post);
    ShotIs(1, pre, c, shot);
    OneCallRead(lang, pre, c, post, pre + (Print(lang, c) + post));
  }

  // What a call in a file makes.
  function CallShot(pre: string, arguments: string, stage: string, source: string): Shot {
    var start := 1 + Newlines(pre);
    Shot(stage, source, start, start + Newlines(arguments) + Newlines(source))
  }

  // The macro with a device, anywhere in a file: one shader, with the stage's
  // word, the source as it stands, and the lines of the call's parentheses.
  lemma CreateCallScraped(pre: string, device: string, a: string, w: string, b: string, source: string, post: string)
    requires NoMacroName(pre) && NoMacroName(post) && OnePiece(device) && Balanced(source)
    requires Blank(a) && StageWord(w) && Blank(b)
    ensures var arguments := device + "," + (a + w + b) + ",";
      OneShader(ScraperLanguage(), pre + "qoCreateShaderModuleGLSL" + "(" + arguments + source + ")" + post,
                CallShot(pre, arguments, w, source))
  {
    var c, arguments := Call(Some(device), a + w + b, source), device + "," + (a + w + b) + ",";
    StageInOnePiece(a, w, b);
    OneCallWellFormed(pre, c, post);
    LanguageValid();
    ArgumentsAre(c, arguments);
    OneCallScraped(ScraperLanguage(), pre, c, arguments, post, CallShot(pre, arguments, w, source));
  }

  // And the one without.
  lemma InfoCallScraped(pre: string, a: string, w: string, b: string, source: string, post: string)
    requires NoMacroName(pre) && NoMacroName(post) && Balanced(source)
    requires Blank(a) && StageWord(w) && Blank(b)
    ensures var arguments := a + w + b + ",";
      OneShader(ScraperLanguage(), pre + "qoShaderModuleCreateInfoGLSL" + "(" + arguments + source + ")" + post,
                CallShot(pre, arguments, w, source))
  {
    var c, arguments := Call(None, a + w + b, source), a + w + b + ",";
    StageInOnePiece(a, w, b);
    OneCallWellFormed(pre, c, post);
    LanguageValid();
    ArgumentsAre(c, arguments);
    OneCallScraped(ScraperLanguage(), pre, c, arguments, post, CallShot(pre, arguments, w, source));
  }

  // The parser, given the lines of such a file, finishes that shader.
  method ScrapeOneCall(lines: seq<string>, ghost shot: Shot) returns (parser: Parser, error: Option<Error>)
    requires AreLines(lines) && OneShader(ScraperLanguage(), Concat(lines), shot)
    ensures error == None && |parser.shaders| == 1 && parser.shaders[0].Shows(shot)
  {
    OneShaderShot(Concat(lines), shot);
    parser, error := ScrapeLinesOf(lines);
  }

  lemma {:induction false} ExpectedStage(line: nat, pre: string, items: seq<Item>, k: nat)
    requires k < |items|
    ensures k < |Expected(line, pre, items)| && Expected(line, pre, items)[k].stage == Strip(items[k].call.stage)
    decreases |items|
  {
    var next := line + Newlines(pre) + Height(items[0].call);
    var rest := Expected(next, items[0].filler, items[1..]);
    assert Expected(line, pre, items) == [CallAfter(line, pre, items[0].call)] + rest;
    if k > 0 {
      ExpectedStage(next, items[0].filler, items[1..], k - 1);
    }
  }

  // Among any calls, a stage is the word between its blanks.
  lemma StagesAre(pre: string, items: seq<Item>, k: nat, a: string, w: string, b: string)
    requires k < |items| && items[k].call.stage == a + w + b && Blank(a) && Visible(w) && Blank(b)
    ensures k < |Expected(1, pre, items)| && Expected(1, pre, items)[k].stage == w
  {
    ExpectedStage(1, pre, items, k);
    StripBlanks(a, w, b);
  }
}
