// The shader object the parser fills with text and then finishes.
module Shaders {
  import opened Text
  import opened FinishText

  // A macro call as the parser sees it.
  datatype Shot = Shot(stage: string, source: string, startLine: nat, endLine: nat)

  // Always true: the trigger that keeps the definition of Shows folded until a
  // proof names it.
  predicate OpenShows(w: bool) {
    true
  }

  class Shader {
    const stage: string
    var stream: Option<string>
    var glsl: Option<string>
    var targetEnv: string
    var startLine: nat
    var endLine: nat

    constructor (stage: string)
      ensures this.stage == stage && stream == Some("") && glsl == None && targetEnv == ""
    {
      this.stage := stage;
      stream, glsl, targetEnv := Some(""), None, "";
      startLine, endLine := 0, 0;
    }

    method AddText(s: string)
      requires stream.Some?
      modifies this`stream
      ensures stream == Some(old(stream.value) + s)
    {
      stream := Some(stream.value + s);
    }

    method FinishText(start: nat, end: nat)
      requires stream.Some? && targetEnv == ""
      modifies this
      ensures Shows(Shot(stage, old(stream.value), start, end))
    {
      var text, env := FinishGlsl(stream.value);
      stream, glsl := None, Some(text);
      if env.Some? {
        targetEnv := env.value;
      }
      startLine, endLine := start, end;
    }

    // The finished shader of a macro call, folded.
    ghost predicate Shows(shot: Shot)
      reads this
    {
      forall w {:trigger OpenShows(w)} :: OpenShows(w) ==>
        stage == shot.stage && startLine == shot.startLine && endLine == shot.endLine && stream == None &&
        glsl == Some(FinishedSource(shot.source)) && targetEnv == EnvironmentOf(shot.source)
    }
  }
}
