// The delimiters of the scraper's token expression.
module Macros {
  import opened Tokens

  function InfoMacro(): string {
    "qoShaderModuleCreateInfoGLSL"
  }

  function CreateMacro(): string {
    "qoCreateShaderModuleGLSL"
  }

  function Delimiters(): seq<string> {
    [InfoMacro(), CreateMacro(), "(", ")", ","]
  }

  // Always true: the triggers that keep the definitions of IsCreate and IsMacro folded until a
  // proof names them.
  predicate OpenCreate(w: bool) {
    true
  }

  predicate OpenMacro(w: bool) {
    true
  }

  // The macro that takes a device as well, folded.
  predicate IsCreate(t: string) {
    forall w {:trigger OpenCreate(w)} :: OpenCreate(w) ==> t == CreateMacro()
  }

  predicate IsMacro(t: string) {
    forall w {:trigger OpenMacro(w)} :: OpenMacro(w) ==> t == InfoMacro() || t == CreateMacro()
  }

  lemma MacroNames()
    ensures IsMacro(InfoMacro()) && !IsCreate(InfoMacro()) && IsMacro(CreateMacro()) && IsCreate(CreateMacro())
    ensures forall t :: IsMacro(t) ==> t == InfoMacro() || t == CreateMacro()
  {
    assert OpenCreate(true) && OpenMacro(true);
    CreateShape(2);
    InfoShape(2);
  }

  lemma InfoShape(j: int)
    ensures |InfoMacro()| > 2 && InfoMacro()[0] == 'q' && InfoMacro()[2] == 'S'
    ensures 0 < j < |InfoMacro()| ==> InfoMacro()[j] !in ['q', '(', ')', ',']
    ensures 0 <= j < |InfoMacro()| ==> InfoMacro()[j] != '\n'
  {
  }

  lemma CreateShape(j: int)
    ensures |CreateMacro()| > 2 && CreateMacro()[0] == 'q' && CreateMacro()[2] == 'C'
    ensures 0 < j < |CreateMacro()| ==> CreateMacro()[j] !in ['q', '(', ')', ',']
    ensures 0 <= j < |CreateMacro()| ==> CreateMacro()[j] != '\n'
  {
  }

  lemma DelimiterShape(d: string, j: int)
    requires d in Delimiters()
    ensures |d| > 0 && d[0] in ['q', '(', ')', ','] && (|d| == 1 <==> d[0] != 'q')
    ensures 0 < j < |d| ==> d[j] !in ['q', '(', ')', ',']
    ensures 0 <= j < |d| ==> d[j] != '\n'
  {
    InfoShape(j);
    CreateShape(j);
  }

  lemma DelimitersSeparable()
    ensures Separable(Delimiters())
  {
    forall d, e | d in Delimiters() && e in Delimiters()
      ensures NoOverlap(d, e)
    {
      DelimiterShape(d, 0);
      DelimiterShape(e, 0);
      InfoShape(2);
      CreateShape(2);
      forall j | 0 <= j < |d|
        ensures d[j] != '\n' && (j > 0 ==> d[j] != e[0])
      {
        DelimiterShape(d, j);
      }
    }
  }
}
