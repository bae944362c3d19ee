// The scraper's parser: a lazy tokenizer over the lines of a file, driven by a
// parser of macro calls that reads the tokenizer's line counter as it goes.
module Scraper {
  import opened Text
  import opened Tokens
  import opened Macros
  import opened Spaces
  import opened Streaming
  import opened Shaders
  import opened ScrapeSpec

  lemma NothingBefore(s: string)
    ensures "" + s == s
  {
  }

  class Parser {
    const delims: seq<string>  // what the token expression matches
    var frame: Frame  // the suspended tokenizer
    var lineNumber: nat
    var currentShader: Shader?
    var shaders: seq<Shader>
    ghost var progress: Progress

    constructor (lines: seq<string>)
      requires AreLines(lines)
      ensures Valid() && shaders == [] && lineNumber == 1
      ensures progress == Progress(Delimiters(), Tokenize(Delimiters(), Concat(lines)), 1 + LinesIn(Concat(lines)), 0)
    {
      delims, frame, lineNumber := Delimiters(), Frame(lines, "", 0, "", NextLine), 1;
      currentShader, shaders := null, [];
      progress := Progress(Delimiters(), Tokenize(Delimiters(), Concat(lines)), 1 + LinesIn(Concat(lines)), 0);
      new;
      DelimitersSeparable();
      StartFile(progress, lines);
    }

    ghost predicate Valid()
      reads `frame, `lineNumber, `progress
    {
      progress.delims == delims && "(" in delims && ")" in delims && "," in delims &&
      Suspended(progress, frame, lineNumber)
    }

    // The state k tokens on.
    twostate predicate Advanced(k: nat)
      reads `frame, `lineNumber, `progress
    {
      Valid() && progress == old(progress).(taken := k)
    }

    // The next token of leftmost matching on the whole file, with the line
    // counter where that token's delivery leaves it.
    method Next() returns (t: Option<string>)
      requires Valid()
      modifies `frame, `lineNumber, `progress
      ensures t.None? ==>
        Advanced(old(progress).taken) && progress.taken == |progress.tokens| && lineNumber == progress.eofLine
      ensures t.Some? ==> Delivers(old(progress), t.value, lineNumber) && Advanced(old(progress).taken + 1)
    {
      t, frame, lineNumber := Tokenizer(delims, frame, lineNumber, progress);
      if t.Some? {
        progress := progress.(taken := progress.taken + 1);
      }
    }

    // Collect tokens into the current shader up to the parenthesis that closes
    // the macro; the line counter is then on that parenthesis' line.
    method HandleShaderSrc()
      requires Valid() && currentShader != null && currentShader.stream.Some?
      modifies `frame, `lineNumber, `progress, currentShader`stream
      ensures old(progress).taken <= |progress.tokens|
      ensures var ts, k := progress.tokens, old(progress).taken; var c := CloseAt(ts, k, 1);
        Advanced(if c < |ts| then c + 1 else c) &&
        lineNumber == (if c < |ts| then LineAt(ts, c + 1) else progress.eofLine) &&
        currentShader.stream == Some(old(currentShader.stream.value) + Spell(ts, k, c))
    {
      ghost var ts, k, before := progress.tokens, progress.taken, currentShader.stream.value;
      var depth := 1;
      assert before + "" == before;
      while true
        invariant Advanced(progress.taken) && k <= progress.taken && depth > 0
        invariant CloseAt(ts, progress.taken, depth) == CloseAt(ts, k, 1)
        invariant currentShader.stream == Some(before + Spell(ts, k, progress.taken))
        decreases |ts| - progress.taken
      {
        ghost var j := progress.taken;
        var t := Next();
        if t.None? {
          return;
        }
        if t.value == "(" {
          depth := depth + 1;
        } else if t.value == ")" {
          depth := depth - 1;
          if depth == 0 {
            return;
          }
        }
        Associative(before, Spell(ts, k, j), t.value);
        currentShader.AddText(t.value);
      }
    }

    // What a call that adds a finished shader, or fails, does to the parser.
    twostate predicate Adds(m: MacroResult, new error: Option<Error>)
      reads `frame, `lineNumber, `progress, `shaders, shaders
    {
      var n := |old(shaders)|;
      match m
      case Failed(e) => error == Some(e) && Advanced(progress.taken) && shaders == old(shaders)
      case Found(shot, next) =>
        error == None && Advanced(next) && |shaders| == n + 1 && shaders == old(shaders) + [shaders[n]] &&
        fresh(shaders[n]) && shaders[n].Shows(shot)
    }

    // Read one macro call after its name and finish its shader.
    method HandleMacro(name: string) returns (error: Option<Error>)
      requires Valid()
      modifies `frame, `lineNumber, `progress, `currentShader, `shaders
      ensures Adds(Macro(progress.tokens, old(progress).taken, name, progress.eofLine), error)
    {
      error := Expect("(");
      if error.Some? {
        return;
      }
      var startLine := lineNumber;
      if IsCreate(name) {
        var device := Next();
        if device.None? {
          return Some(StopIteration);
        }
        error := Expect(",");
        if error.Some? {
          return;
        }
      }
      error := HandleStage(startLine);
    }

    // The next token, which has to be t.
    method Expect(t: string) returns (error: Option<Error>)
      requires Valid() && t in ["(", ","]
      modifies `frame, `lineNumber, `progress
      ensures var ts, k := progress.tokens, old(progress).taken;
        Advanced(if k < |ts| then k + 1 else k) &&
        error == (if k == |ts| then Some(StopIteration) else if ts[k] == t then None else Some(AssertionError)) &&
        (error.None? ==> lineNumber == LineAt(ts, k + 1))
    {
      var next := Next();
      return if next.None? then Some(StopIteration) else if next.value == t then None else Some(AssertionError);
    }

    // The stage, a comma and the source.
    method HandleStage(startLine: nat) returns (error: Option<Error>)
      requires Valid()
      modifies `frame, `lineNumber, `progress, `currentShader, `shaders
      ensures Adds(StageAndBody(progress.tokens, old(progress).taken, startLine, progress.eofLine), error)
    {
      var stage := Next();
      if stage.None? {
        return Some(StopIteration);
      }
      error := Expect(",");
      if error.Some? {
        return;
      }
      error := HandleBody(Strip(stage.value), startLine);
    }

    // The source, in a new shader.
    method HandleBody(stage: string, startLine: nat) returns (error: Option<Error>)
      requires Valid() && progress.taken <= |progress.tokens|
      modifies `frame, `lineNumber, `progress, `currentShader, `shaders
      ensures old(progress).taken <= |progress.tokens|
      ensures Adds(Body(progress.tokens, old(progress).taken, stage, startLine, progress.eofLine), error)
    {
      ghost var ts, k := progress.tokens, progress.taken;
      var shader := new Shader(stage);
      currentShader := shader;
      HandleShaderSrc();
      NothingBefore(Spell(ts, k, CloseAt(ts, k, 1)));
      error := None;
      shader.FinishText(startLine, lineNumber);
      shaders, currentShader := shaders + [shader], null;
    }

    // The finished shaders, one for each macro call.
    ghost predicate ShowsAll(shots: seq<Shot>)
      reads `shaders, shaders
    {
      |shaders| == |shots| && forall i :: 0 <= i < |shots| ==> shaders[i].Shows(shots[i])
    }

    // Scrape the whole file.
    method Run() returns (error: Option<Error>)
      requires Valid() && shaders == [] && progress.taken == 0
      modifies `frame, `lineNumber, `progress, `currentShader, `shaders
      ensures var r := Scrape(progress.tokens, 0, progress.eofLine);
        Advanced(progress.taken) && error == r.error && ShowsAll(r.shots)
    {
      ghost var ts, eofLine := progress.tokens, progress.eofLine;
      ghost var shots: seq<Shot> := [];
      FindsNothing(ts, 0, eofLine);
      while true
        invariant Advanced(progress.taken) && ShowsAll(shots)
        invariant Finds(ts, 0, progress.taken, eofLine, shots)
        decreases |ts| - progress.taken
      {
        ghost var k := progress.taken;
        var t := Next();
        if t.None? {
          FindsAll(ts, 0, eofLine, shots);
          return None;
        }
        if IsMacro(t.value) {
          ghost var m := Macro(ts, k + 1, t.value, eofLine);
          error := HandleMacroCall(t.value, shots);
          if error.Some? {
            FindsError(ts, 0, k, eofLine, shots, error.value);
            return;
          }
          ReadsMacro(ts, k, eofLine, m);
          FindsMacro(ts, k, eofLine, m.shot, m.next);
          FindsJoin(ts, 0, k, m.next, eofLine, shots, [m.shot]);
          shots := shots + [m.shot];
        } else {
          FindsOther(ts, k, eofLine);
          FindsJoin(ts, 0, k, k + 1, eofLine, shots, []);
          assert shots + [] == shots;
        }
      }
    }

    // One call among those already finished.
    method HandleMacroCall(name: string, ghost shots: seq<Shot>) returns (error: Option<Error>)
      requires Valid() && ShowsAll(shots)
      modifies `frame, `lineNumber, `progress, `currentShader, `shaders
      ensures match Macro(progress.tokens, old(progress).taken, name, progress.eofLine)
        case Failed(e) => error == Some(e) && Advanced(progress.taken) && ShowsAll(shots)
        case Found(shot, next) => error == None && Advanced(next) && ShowsAll(shots + [shot])
    {
      error := HandleMacro(name);
    }
  }
}
