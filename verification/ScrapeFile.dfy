// The scraper from the lines of a file to the C file it writes.
module ScrapeFile {
  import opened Text
  import opened Tokens
  import opened Macros
  import opened ScrapeSpec
  import opened ScrapeLines
  import opened RoundTrip
  import opened Unprinting
  import opened ScrapeInverse
  import opened GeneratedNames
  import opened Scraper

  function ScraperLanguage(): Language {
    Language(Delimiters(), InfoMacro(), CreateMacro())
  }

  lemma NamesWordy()
    ensures Wordy(InfoMacro()) && Wordy(CreateMacro())
  {
    forall j
      ensures 0 <= j < |InfoMacro()| ==> InfoMacro()[j] !in ['(', ')', '\n']
      ensures 0 <= j < |CreateMacro()| ==> CreateMacro()[j] !in ['(', ')', '\n']
    {
      InfoShape(j);
      CreateShape(j);
    }
  }

  lemma LanguageValid()
    ensures ScraperLanguage().Valid()
  {
    DelimitersSeparable();
    MacroNames();
    NamesWordy();
  }

  // The shots of a whole file.
  function Shots(text: string): ScrapeResult {
    Scrape(Tokenize(Delimiters(), text), 0, 1 + LinesIn(text))
  }

  // In any file, shaders come in line order.
  lemma ShotsInOrder(text: string)
    ensures InOrder(Shots(text).shots, 1)
  {
    DelimitersSeparable();
    TextInOrder(Delimiters(), text);
  }

  lemma TextInOrder(ds: seq<string>, text: string)
    requires Separable(ds)
    ensures InOrder(Scrape(Tokenize(ds, text), 0, 1 + LinesIn(text)).shots, 1)
  {
    var ts := Tokenize(ds, text);
    TokenizeSound(ds, text);
    LineAtCounts(ts, |ts|);
    assert ts[..|ts|] == ts;
    ScrapeInOrder(ts, 0, 1 + LinesIn(text));
  }

  // In any file, the names written for the shaders resolve exactly when no
  // macro call starts on the line the call before it ends on.
  lemma NamesResolve(text: string)
    ensures Resolves(Shots(text).shots) <==> AllApart(Shots(text).shots)
  {
    ShotsInOrder(text);
    InOrderFrom(Shots(text).shots, 1, 0);
    ResolvesIffApart(Shots(text).shots);
  }

  // Any run of the parser over the lines of a file.
  method ScrapeLinesOf(lines: seq<string>) returns (parser: Parser, error: Option<Error>)
    requires AreLines(lines)
    ensures var r := Shots(Concat(lines));
      error == r.error && |parser.shaders| == |r.shots| &&
      forall i :: 0 <= i < |r.shots| ==> parser.shaders[i].Shows(r.shots[i])
  {
    parser := new Parser(lines);
    ghost var p := parser.progress;
    error := parser.Run();
    assert Shots(Concat(lines)) == Scrape(p.tokens, 0, p.eofLine);
  }

  // ----- printed programs -----

  // Printed calls have each other's lines to themselves exactly when the text
  // between any two of them has a newline.
  ghost predicate NewlinesBetween(items: seq<Item>) {
    forall k {:trigger items[k].filler} :: 0 <= k < |items| - 1 ==> '\n' in items[k].filler
  }

  lemma {:induction false} ExpectedLines(line: nat, pre: string, items: seq<Item>, k: nat)
    requires k < |items|
    ensures |Expected(line, pre, items)| == |items|
    ensures k + 1 < |items| ==>
      Expected(line, pre, items)[k + 1].startLine == Expected(line, pre, items)[k].endLine + Newlines(items[k].filler)
    decreases |items|
  {
    var next := line + Newlines(pre) + Height(items[0].call);
    var rest := Expected(next, items[0].filler, items[1..]);
    assert Expected(line, pre, items) == [CallAfter(line, pre, items[0].call)] + rest;
    if |items| > 1 {
      ExpectedLines(next, items[0].filler, items[1..], if k == 0 then 0 else k - 1);
      if k == 0 {
        assert rest[0] == CallAfter(next, items[0].filler, items[1].call);
      }
    }
  }

  // Scraping a printed program finds its calls, and the names written for them
  // resolve exactly when the calls are on lines of their own.
  lemma PrintedProgram(pre: string, items: seq<Item>)
    requires WellFormedAll(ScraperLanguage(), pre, items)
    ensures Shots(PrintAll(ScraperLanguage(), pre, items)) == ScrapeResult(Expected(1, pre, items), None)
    ensures Resolves(Expected(1, pre, items)) <==> NewlinesBetween(items)
  {
    var text := PrintAll(ScraperLanguage(), pre, items);
    var shots := Expected(1, pre, items);
    LanguageValid();
    ScrapeRoundTrip(ScraperLanguage(), pre, items, 1 + LinesIn(text));
    NamesResolve(text);
    ApartIffNewlines(pre, items);
  }

  lemma ApartIffNewlines(pre: string, items: seq<Item>)
    ensures AllApart(Expected(1, pre, items)) <==> NewlinesBetween(items)
  {
    var shots := Expected(1, pre, items);
    forall k: nat | k < |items| - 1
      ensures |shots| == |items| && (LinesApart(shots, k) <==> '\n' in items[k].filler)
    {
      ExpectedLines(1, pre, items, k);
      HasNewline(items[k].filler);
    }
    if items != [] {
      ExpectedLines(1, pre, items, 0);
    }
  }

  // Any file whose calls are tidy is a printed program, of one list of calls and
  // fillers only, and its shaders are those calls.
  lemma TidyFile(text: string) returns (r: Program)
    requires Tidy(ScraperLanguage(), Tokenize(Delimiters(), text), 0)
    ensures Prints(ScraperLanguage(), r, text) && forall p :: Prints(ScraperLanguage(), p, text) ==> p == r
    ensures Shots(text) == ScrapeResult(Expected(1, r.pre, r.items), None)
  {
    LanguageValid();
    r := TidyProgram(ScraperLanguage(), text);
    PrintsScrapes(ScraperLanguage(), r, text, 1 + LinesIn(text));
  }

  // The parser, given the lines of a printed program, finishes
  // one shader for each call.
  method ScrapePrinted(lines: seq<string>, ghost pre: string, ghost items: seq<Item>)
    returns (parser: Parser, error: Option<Error>)
    requires AreLines(lines) && WellFormedAll(ScraperLanguage(), pre, items)
    requires Concat(lines) == PrintAll(ScraperLanguage(), pre, items)
    ensures error == None && |parser.shaders| == |Expected(1, pre, items)|
    ensures forall i :: 0 <= i < |parser.shaders| ==> parser.shaders[i].Shows(Expected(1, pre, items)[i])
  {
    PrintedProgram(pre, items);
    parser, error := ScrapeLinesOf(lines);
  }

  // ----- two calls on one line -----

  lemma NoDelimiterIn(c: char)
    requires c !in ['q', '(', ')', ',']
    ensures DelimFree(Delimiters(), [c])
  {
    var d := HeadDelim(Delimiters(), [c]);
    if d != "" {
      DelimiterShape(d, 0);
    }
  }

  lemma SameLineWellFormed(c: Call, items: seq<Item>)
    requires c == Call(None, "F", "") && items == [Item(c, " "), Item(c, "")]
    ensures WellFormedAll(ScraperLanguage(), "", items)
  {
    NoDelimiterIn('F');
    InfoShape(0);
    CreateShape(0);
    assert Balanced(c.source) && Plain(ScraperLanguage(), c.stage);
  }

  // qoShaderModuleCreateInfoGLSL(F,) twice with a space between: both are
  // scraped, and their names do not resolve.
  lemma SameLineClashes(c: Call, items: seq<Item>)
    requires c == Call(None, "F", "") && items == [Item(c, " "), Item(c, "")]
    ensures Shots(PrintAll(ScraperLanguage(), "", items)) == ScrapeResult(Expected(1, "", items), None)
    ensures |Expected(1, "", items)| == 2 && !Resolves(Expected(1, "", items))
  {
    SameLineWellFormed(c, items);
    PrintedProgram("", items);
    ExpectedLines(1, "", items, 0);
    assert '\n' !in items[0].filler;
  }
}
