// What Shader.finish_text does to the collected GLSL text.
module FinishText {
  import opened Text
  import opened Rewriting
  import opened Occurrences
  import opened Finishing
  import opened TargetEnvironment
  import opened EnvironmentRewriting
  import opened Spaces

  function ExtensionRule(): Rule {
    Rule("QO_EXTENSION", "#extension")
  }

  function DefineRule(): Rule {
    Rule("QO_DEFINE", "#define")
  }

  function TargetEnvRule(): Rule {
    Rule("QO_TARGET_ENV", "// --target-env")
  }

  function VersionRule(): Rule {
    Rule("QO_VERSION", "#version")
  }

  function GlslRules(): seq<Rule> {
    [ExtensionRule(), DefineRule(), TargetEnvRule(), VersionRule()]
  }

  function VersionHeader(): string {
    VersionRule().put + " 450\n"
  }

  function GlslStyle(): Style {
    Style(GlslRules(), VersionRule(), VersionHeader())
  }

  // ----- the four keywords do not interfere -----

  predicate IsKeyChar(c: char) {
    'A' <= c <= 'Z' || c == '_'
  }

  // Keywords are upper case with their only Q in front; replacements are not.
  predicate KeyShape(r: Rule) {
    ShapedKey(r.key) && ShapedPut(r.put)
  }

  predicate ShapedKey(key: string) {
    |key| > 3 && key[0] == 'Q' && forall j :: 0 < j < |key| ==> key[j] != 'Q' && IsKeyChar(key[j])
  }

  predicate ShapedPut(put: string) {
    put != "" && forall j :: 0 <= j < |put| ==> !IsKeyChar(put[j]) && put[j] != '\n'
  }

  // A directive, and a comment.
  predicate HashPut(put: string, c: char) {
    |put| > 1 && put[0] == '#' && put[1] == c && forall j :: 0 < j < |put| ==> put[j] != '#' && put[j] != '/'
  }

  predicate SlashPut(put: string) {
    |put| > 2 && put[0] == '/' && put[1] == '/' && put[2] == ' ' &&
    forall j :: 1 < j < |put| ==> put[j] != '#' && put[j] != '/'
  }

  lemma ExtensionShape()
    ensures KeyShape(ExtensionRule()) && ExtensionRule().key[3] == 'E'
    ensures HashPut(ExtensionRule().put, 'e')
  {
  }

  lemma DefineShape()
    ensures KeyShape(DefineRule()) && DefineRule().key[3] == 'D'
    ensures HashPut(DefineRule().put, 'd')
  {
  }

  lemma TargetEnvShape()
    ensures KeyShape(TargetEnvRule()) && TargetEnvRule().key[3] == 'T'
    ensures SlashPut(TargetEnvRule().put)
  {
  }

  lemma VersionShape()
    ensures KeyShape(VersionRule()) && VersionRule().key[3] == 'V'
    ensures HashPut(VersionRule().put, 'v')
  {
  }

  lemma FourClean(a: Rule, b: Rule, c: Rule, d: Rule)
    requires KeyShape(a) && KeyShape(b) && KeyShape(c) && KeyShape(d)
    requires a.key[3] != b.key[3] && a.key[3] != c.key[3] && a.key[3] != d.key[3]
    requires b.key[3] != c.key[3] && b.key[3] != d.key[3] && c.key[3] != d.key[3]
    ensures Clean([a, b, c, d])
  {
    var rs := [a, b, c, d];
    forall r, q | r in rs && q in rs
      ensures Proper(r) && Apart(r, q)
    {
    }
  }

  lemma RulesClean()
    ensures Clean(GlslRules()) && forall r :: r in GlslRules() ==> KeyShape(r)
  {
    ExtensionShape();
    DefineShape();
    TargetEnvShape();
    VersionShape();
    FourClean(ExtensionRule(), DefineRule(), TargetEnvRule(), VersionRule());
  }

  lemma FourSolid(a: Rule, b: Rule, c: Rule, d: Rule)
    requires forall r :: r in [a, b, c, d] ==> Proper(r)
    requires HashPut(a.put, 'e') && HashPut(b.put, 'd') && SlashPut(c.put) && HashPut(d.put, 'v')
    ensures Solid([a, b, c, d])
  {
  }

  lemma RulesSolid()
    ensures Clean(GlslRules()) && Solid(GlslRules())
  {
    RulesClean();
    ExtensionShape();
    DefineShape();
    TargetEnvShape();
    VersionShape();
    FourSolid(ExtensionRule(), DefineRule(), TargetEnvRule(), VersionRule());
  }

  lemma HeaderShape()
    ensures forall c :: c in VersionHeader() ==> !IsKeyChar(c)
    ensures Newlines(" 450\n") == 1
  {
    VersionShape();
    assert " 450\n" == " 450" + "\n";
    NewlinesAppend(" 450", "\n");
    NewlineFree(" 450");
    assert forall i :: 0 <= i < |" 450\n"| ==> !IsKeyChar(" 450\n"[i]);
  }

  lemma StyleValid()
    ensures GlslStyle().Valid()
  {
    RulesClean();
    HeaderShape();
    assert VersionRule() in GlslRules();
  }

  // Whatever the text: no keyword is left, there is a version line, and only a
  // missing QO_VERSION adds a line.
  lemma FinishedGlsl(s: string)
    ensures GlslStyle().Valid()
    ensures forall r :: r in GlslRules() ==> !Contains(Finished(GlslStyle(), s), r.key)
    ensures Contains(Finished(GlslStyle(), s), "#version")
    ensures Newlines(Finished(GlslStyle(), s)) == Newlines(s) + (if Contains(s, "QO_VERSION") then 0 else 1)
  {
    StyleValid();
    HeaderShape();
    FinishedText(GlslStyle(), s, " 450\n");
  }

  // The same for the replacements in the source's order or in any other.
  lemma FinishGlslInAnyOrder(order: seq<Rule>, s: string)
    requires NoDuplicates(order) && forall r :: r in order <==> r in GlslRules()
    ensures (forall r :: r in order ==> Proper(r)) && FinishIn(GlslStyle(), order, s) == Finished(GlslStyle(), s)
  {
    StyleValid();
    FinishInAnyOrder(GlslStyle(), order, s);
  }

  // ----- the finished shader -----

  function FinishedSource(s: string): string {
    StyleValid();
    Finished(GlslStyle(), s)
  }

  // ----- in characters -----

  // The text with its keywords replaced.
  function Replaced(s: string): string {
    RulesClean();
    Rewrite(GlslRules(), s)
  }

  // What each keyword becomes, wherever it is.
  lemma ReplacedAround(p: string, q: string)
    ensures Replaced(p + ("QO_EXTENSION" + q)) == Replaced(p) + ("#extension" + Replaced(q))
    ensures Replaced(p + ("QO_DEFINE" + q)) == Replaced(p) + ("#define" + Replaced(q))
    ensures Replaced(p + ("QO_TARGET_ENV" + q)) == Replaced(p) + ("// --target-env" + Replaced(q))
    ensures Replaced(p + ("QO_VERSION" + q)) == Replaced(p) + ("#version" + Replaced(q))
  {
    RulesClean();
    RewriteSplit(GlslRules(), p, ExtensionRule(), q);
    RewriteSplit(GlslRules(), p, DefineRule(), q);
    RewriteSplit(GlslRules(), p, TargetEnvRule(), q);
    RewriteSplit(GlslRules(), p, VersionRule(), q);
  }

  ghost predicate NoKeyword(s: string) {
    !Contains(s, "QO_EXTENSION") && !Contains(s, "QO_DEFINE") && !Contains(s, "QO_TARGET_ENV") &&
    !Contains(s, "QO_VERSION")
  }

  // Nothing else is replaced.
  lemma ReplacedPlain(s: string)
    requires NoKeyword(s)
    ensures Replaced(s) == s
  {
    RulesClean();
    NothingToRewrite(GlslRules(), s);
  }

  // The result is that text, after a version line if there is none in it.
  lemma FinishedIs(s: string)
    ensures FinishedSource(s) == (if Contains(s, "QO_VERSION") then "" else "#version 450\n") + Replaced(s)
  {
    StyleValid();
    HeaderIs(GlslStyle(), s);
  }

  lemma HeaderIs(st: Style, s: string)
    requires st.Valid()
    ensures Finished(st, s) == (if Contains(s, st.version.key) then "" else st.header) + Rewrite(st.rules, s)
  {
  }

  lemma KeysAre(s: string)
    requires forall r :: r in GlslRules() ==> !Contains(s, r.key)
    ensures NoKeyword(s)
  {
    assert !Contains(s, ExtensionRule().key) && !Contains(s, DefineRule().key);
    assert !Contains(s, TargetEnvRule().key) && !Contains(s, VersionRule().key);
  }

  lemma FinishedHasNoKeyword(s: string)
    ensures NoKeyword(FinishedSource(s))
  {
    FinishedGlsl(s);
    KeysAre(FinishedSource(s));
  }

  // Each replacement occurs as often as it and its keyword did in the source; a
  // version line is added where there was no keyword for one.
  lemma DirectivesCounted(s: string)
    ensures var f := FinishedSource(s);
      CountOf(f, "#extension") == CountOf(s, "#extension") + CountOf(s, "QO_EXTENSION") &&
      CountOf(f, "#define") == CountOf(s, "#define") + CountOf(s, "QO_DEFINE") &&
      CountOf(f, "// --target-env") == CountOf(s, "// --target-env") + CountOf(s, "QO_TARGET_ENV") &&
      CountOf(f, "#version") == CountOf(s, "#version") + CountOf(s, "QO_VERSION") +
        if CountOf(s, "QO_VERSION") == 0 then 1 else 0
  {
    RulesSolid();
    ContainsIs(s, VersionRule().key);
    HeaderCounted(s, ExtensionRule());
    HeaderCounted(s, DefineRule());
    HeaderCounted(s, TargetEnvRule());
    HeaderCounted(s, VersionRule());
  }

  lemma HeaderCounted(s: string, r: Rule)
    requires r in GlslRules()
    ensures CountOf(FinishedSource(s), r.put) == CountOf(s, r.put) + CountOf(s, r.key) +
      if r == VersionRule() && !Contains(s, VersionRule().key) then 1 else 0
  {
    RulesSolid();
    StyleValid();
    var body := Rewrite(GlslRules(), s);
    CountRewritten(GlslRules(), r, s);
    if Contains(s, VersionRule().key) {
      assert "" + body == body;
    } else {
      PutOnce(GlslRules(), VersionRule(), r, " 450\n" + body);
      RestOfHeader(r, body);
      Associative(VersionRule().put, " 450\n", body);
    }
  }

  lemma RestOfHeader(r: Rule, body: string)
    requires r in GlslRules()
    ensures CountOf(" 450\n" + body, r.put) == CountOf(body, r.put)
  {
    ExtensionShape();
    DefineShape();
    TargetEnvShape();
    VersionShape();
    CountSkip(" 450\n", body, r.put);
  }

  // The environment is read when the first two replacements are done.
  function EnvironmentOf(s: string): string {
    StyleValid();
    TargetEnv(TargetEnvRule().key, Rewrite([ExtensionRule(), DefineRule()], s)).GetOr("")
  }

  // The source's replacements, one after the other.
  lemma SourceOrder(s: string, a: string, b: string, c: string)
    requires ExtensionRule().key != "" && DefineRule().key != "" && TargetEnvRule().key != "" && VersionRule().key != ""
    requires a == Replace(s, ExtensionRule().key, ExtensionRule().put)
    requires b == Replace(a, DefineRule().key, DefineRule().put)
    requires c == Replace(b, TargetEnvRule().key, TargetEnvRule().put)
    ensures FinishedSource(s) ==
      if Contains(c, VersionRule().key) then Replace(c, VersionRule().key, VersionRule().put) else VersionHeader() + c
    ensures EnvironmentOf(s) == TargetEnv(TargetEnvRule().key, b).GetOr("")
  {
    StyleValid();
    DistinctRules();
    ChainOfFour(GlslStyle(), ExtensionRule(), DefineRule(), TargetEnvRule(), VersionRule(), s);
    FinishGlslInAnyOrder(GlslRules(), s);
  }

  // In terms of the source itself: the environment is the first word that has a
  // keyword before it, with the first two replacements made in the word.
  lemma EnvironmentOfSource(s: string)
    requires ExtensionRule().key != "" && DefineRule().key != ""
    ensures var word := TargetEnv(TargetEnvRule().key, s);
      EnvironmentOf(s) ==
        if word.None? then ""
        else Replace(Replace(word.value, ExtensionRule().key, ExtensionRule().put), DefineRule().key, DefineRule().put)
  {
    StyleValid();
    var word := TargetEnv(TargetEnvRule().key, s);
    TwoRules();
    EnvironmentRewritten([ExtensionRule(), DefineRule()], TargetEnvRule(), s);
    if word.Some? {
      TwoReplacements(word.value);
    }
  }

  // After the first keyword, a gap and a word: that word is found.
  lemma WordFound(p: string, a: string, w: string, b: string)
    requires !Contains(p, TargetEnvRule().key) && Blank(a) && a != "" && Visible(w) && (b == "" || Blank(b[..1]))
    ensures TargetEnv(TargetEnvRule().key, p + (TargetEnvRule().key + (a + (w + b)))) == Some(w)
  {
    var r, t := TargetEnvRule(), a + (w + b);
    TargetEnvShape();
    forall j | 0 <= j < |p|
      ensures !(r.key <= p[j..] + (r.key + t))
    {
      NoneBefore(r.key, p, t, j);
    }
    SearchSkips(r.key, p, r.key + t);
    BlankAndVisible(a, w);
    assert b != "" ==> b[..1][0] == b[0] && IsSpace(b[0]);
    WordIs(a, w, b);
    assert (r.key + t)[|r.key|..] == t;
  }

  // So the environment is that word, when the word holds no keyword itself.
  lemma EnvironmentIs(p: string, a: string, w: string, b: string)
    requires !Contains(p, "QO_TARGET_ENV") && Blank(a) && a != "" && Visible(w) && (b == "" || Blank(b[..1]))
    requires !Contains(w, "QO_EXTENSION") && !Contains(w, "QO_DEFINE")
    ensures EnvironmentOf(p + ("QO_TARGET_ENV" + (a + (w + b)))) == w
  {
    WordFound(p, a, w, b);
    EnvironmentOfSource(p + (TargetEnvRule().key + (a + (w + b))));
    ReplaceAbsent(w, ExtensionRule().key, ExtensionRule().put);
    ReplaceAbsent(w, DefineRule().key, DefineRule().put);
  }

  // And without the keyword there is none.
  lemma NoEnvironment(p: string)
    requires !Contains(p, "QO_TARGET_ENV")
    ensures EnvironmentOf(p) == ""
  {
    EnvironmentOfSource(p);
    if TargetEnv(TargetEnvRule().key, p).Some? {
      var gap := TargetEnvFound(TargetEnvRule().key, p);
      var i := EnvIndex(TargetEnvRule().key, p);
      assert TargetEnvRule().key <= p[i..];
      ContainsIs(p, TargetEnvRule().key);
    }
  }

  lemma TwoRules()
    ensures Spaceless([ExtensionRule(), DefineRule()]) && ClearOf([ExtensionRule(), DefineRule()], TargetEnvRule())
  {
    RulesClean();
    DistinctRules();
    ExtensionShape();
    DefineShape();
    TargetEnvShape();
    assert forall r :: r in [ExtensionRule(), DefineRule()] ==> r in GlslRules();
    assert TargetEnvRule() in GlslRules();
    ShapedSpaceless(ExtensionRule());
    ShapedSpaceless(DefineRule());
  }

  lemma ShapedSpaceless(r: Rule)
    requires KeyShape(r) && forall i :: 0 <= i < |r.put| ==> !IsSpace(r.put[i])
    ensures Proper(r) && NoSpace(r.key) && NoSpace(r.put)
  {
  }

  lemma TwoReplacements(word: string)
    requires ExtensionRule().key != "" && DefineRule().key != ""
    requires forall r :: r in [ExtensionRule(), DefineRule()] ==> Proper(r)
    ensures Rewrite([ExtensionRule(), DefineRule()], word) ==
      Replace(Replace(word, ExtensionRule().key, ExtensionRule().put), DefineRule().key, DefineRule().put)
  {
    StyleValid();
    DistinctRules();
    ChainOfFour(GlslStyle(), ExtensionRule(), DefineRule(), TargetEnvRule(), VersionRule(), word);
  }

  lemma DistinctRules()
    ensures NoDuplicates(GlslRules())
    ensures ExtensionRule() != DefineRule() && ExtensionRule() != VersionRule()
    ensures DefineRule() != VersionRule() && TargetEnvRule() != VersionRule()
  {
  }

  // The replacements as the source makes them, with the target environment
  // looked up on the way.
  method FinishGlsl(source: string) returns (glsl: string, env: Option<string>)
    ensures glsl == FinishedSource(source) && env.GetOr("") == EnvironmentOf(source)
  {
    var extended := Replace(source, ExtensionRule().key, ExtensionRule().put);
    var defined := Replace(extended, DefineRule().key, DefineRule().put);
    env := TargetEnv(TargetEnvRule().key, defined);
    var commented := Replace(defined, TargetEnvRule().key, TargetEnvRule().put);
    if Contains(commented, VersionRule().key) {
      glsl := Replace(commented, VersionRule().key, VersionRule().put);
    } else {
      glsl := VersionHeader() + commented;
    }
    SourceOrder(source, extended, defined, commented);
  }
}
