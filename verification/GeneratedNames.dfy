// The C file the scraper writes: the names it gives to each shader, and what a
// C compiler makes of a use of one of its macros on a given line.
module GeneratedNames {
  import opened Text
  import opened Shaders
  import opened ScrapeLines
  import Decimal

  function Prefix(line: nat): string {
    "__qonos_shader" + Decimal.Print(line)
  }

  function InfoName(line: nat): string {
    Prefix(line) + "_info"
  }

  function SourceName(line: nat): string {
    Prefix(line) + "_spir_v_src"
  }

  // What is written for a shader. The owner is the shader's place in the list;
  // it is not part of the text.
  datatype Line =
    | ArrayDef(name: string, owner: nat)
    | InfoDef(name: string, source: string, owner: nat)
    | Define(name: string, body: string)

  function Emit(shot: Shot, owner: nat): seq<Line> {
    [ArrayDef(SourceName(shot.endLine), owner),
     InfoDef(InfoName(shot.endLine), SourceName(shot.endLine), owner),
     Define(InfoName(shot.startLine), InfoName(shot.endLine))]
  }

  function EmitFirst(shots: seq<Shot>, n: nat): seq<Line>
    requires n <= |shots|
  {
    if n == 0 then [] else EmitFirst(shots, n - 1) + Emit(shots[n - 1], n - 1)
  }

  // ----- the compiler -----

  datatype Info = Info(source: string, owner: nat)

  datatype TranslationUnit = TranslationUnit(
    macros: map<string, string>, arrays: map<string, nat>, infos: map<string, Info>)

  // Replace a name by its macro's body until none applies; a name is not
  // replaced again inside its own replacement.
  function Expand(macros: map<string, string>, name: string, hidden: set<string>): string
    decreases macros.Keys - hidden
  {
    if name in macros && name !in hidden then Expand(macros, macros[name], hidden + {name}) else name
  }

  // One line of the file; None if it redefines a macro or an object.
  function Process(u: TranslationUnit, l: Line): Option<TranslationUnit> {
    match l
    case ArrayDef(name, owner) =>
      var nm := Expand(u.macros, name, {});
      if nm in u.arrays then None else Some(u.(arrays := u.arrays[nm := owner]))
    case InfoDef(name, source, owner) =>
      var nm := Expand(u.macros, name, {});
      if nm in u.infos then None
      else Some(u.(infos := u.infos[nm := Info(Expand(u.macros, source, {}), owner)]))
    case Define(name, body) =>
      if name in u.macros && u.macros[name] != body then None
      else Some(u.(macros := u.macros[name := body]))
  }

  function Compile(ls: seq<Line>): Option<TranslationUnit> {
    if ls == [] then Some(TranslationUnit(map[], map[], map[]))
    else
      match Compile(ls[..|ls| - 1])
      case None => None
      case Some(u) => Process(u, ls[|ls| - 1])
  }

  // What the file's macros paste together from the line a call is on.
  function Pasted(line: nat): string {
    "__qonos_shader" + (Decimal.Print(line) + "_info")
  }

  lemma PastedIs(line: nat)
    ensures Pasted(line) == InfoName(line)
  {
  }

  // The names of a shader that ends on line 12.
  lemma NamesOfTwelve()
    ensures InfoName(12) == "__qonos_shader12_info" && SourceName(12) == "__qonos_shader12_spir_v_src"
  {
    assert Decimal.Print(12) == "12";
  }

  // The shader whose info, and through it whose words, a macro call on the
  // given line names.
  function Lookup(u: TranslationUnit, line: nat): Option<nat> {
    var nm := Expand(u.macros, Pasted(line), {});
    if nm in u.infos && u.infos[nm].source in u.arrays && u.arrays[u.infos[nm].source] == u.infos[nm].owner
    then Some(u.infos[nm].owner) else None
  }

  // The file compiles, and a call of shader i reaches shader i whether the
  // compiler takes the call to be on its first or on its last line.
  ghost predicate Resolves(shots: seq<Shot>) {
    var u := Compile(EmitFirst(shots, |shots|));
    u.Some? && forall i :: 0 <= i < |shots| ==>
      Lookup(u.value, shots[i].startLine) == Some(i) && Lookup(u.value, shots[i].endLine) == Some(i)
  }

  // Every shader starts on a later line than the one before it ends.
  ghost predicate Separated(shots: seq<Shot>) {
    (forall i :: 0 <= i < |shots| ==> shots[i].startLine <= shots[i].endLine) &&
    forall i, j :: 0 <= i < j < |shots| ==> shots[i].endLine < shots[j].startLine
  }

  // ----- names -----

  lemma NamesDistinct(m: nat, n: nat)
    ensures InfoName(m) == InfoName(n) ==> m == n
    ensures SourceName(m) == SourceName(n) ==> m == n
    ensures InfoName(m) != SourceName(n)
  {
    var p := |"__qonos_shader"|;
    assert InfoName(m)[p..|InfoName(m)| - 5] == Decimal.Print(m);
    assert InfoName(n)[p..|InfoName(n)| - 5] == Decimal.Print(n);
    assert SourceName(m)[p..|SourceName(m)| - 11] == Decimal.Print(m);
    assert SourceName(n)[p..|SourceName(n)| - 11] == Decimal.Print(n);
    Decimal.PrintInjective(m, n);
    assert InfoName(m)[|InfoName(m)| - 1] == 'o' && SourceName(n)[|SourceName(n)| - 1] == 'c';
  }

  // ----- what the file says after n shaders -----

  ghost predicate NamesOnly(names: set<string>, shots: seq<Shot>, n: nat, ends: bool, sources: bool)
    requires n <= |shots|
  {
    forall nm :: nm in names ==> exists i :: 0 <= i < n && nm == TheName(shots[i], ends, sources)
  }

  // One of the names written for a shader.
  function TheName(shot: Shot, end: bool, source: bool): string {
    var line := if end then shot.endLine else shot.startLine;
    if source then SourceName(line) else InfoName(line)
  }

  ghost predicate Entered(u: TranslationUnit, shots: seq<Shot>, n: nat, i: nat)
    requires i < n <= |shots|
  {
    var start, end := TheName(shots[i], false, false), TheName(shots[i], true, false);
    var source := TheName(shots[i], true, true);
    start in u.macros && u.macros[start] == end &&
    source in u.arrays && u.arrays[source] == i &&
    end in u.infos && u.infos[end] == Info(source, i)
  }

  ghost predicate Describes(u: TranslationUnit, shots: seq<Shot>, n: nat)
    requires n <= |shots|
  {
    (forall i {:trigger Entered(u, shots, n, i)} :: 0 <= i < n ==> Entered(u, shots, n, i)) &&
    NamesOnly(u.macros.Keys, shots, n, false, false) &&
    NamesOnly(u.arrays.Keys, shots, n, true, true) &&
    NamesOnly(u.infos.Keys, shots, n, true, false)
  }

  lemma NotMacro(u: TranslationUnit, shots: seq<Shot>, n: nat, line: nat, source: bool)
    requires n <= |shots| && Describes(u, shots, n)
    requires source || forall i :: 0 <= i < n ==> shots[i].startLine != line
    ensures (if source then SourceName(line) else InfoName(line)) !in u.macros
  {
    var nm := if source then SourceName(line) else InfoName(line);
    if nm in u.macros {
      var i :| 0 <= i < n && nm == TheName(shots[i], false, false);
      NamesDistinct(shots[i].startLine, line);
    }
  }

  lemma NotDefined(u: TranslationUnit, shots: seq<Shot>, n: nat, line: nat)
    requires n <= |shots| && Describes(u, shots, n)
    requires forall i :: 0 <= i < n ==> shots[i].endLine != line
    ensures SourceName(line) !in u.arrays && InfoName(line) !in u.infos
  {
    if SourceName(line) in u.arrays {
      var i :| 0 <= i < n && SourceName(line) == TheName(shots[i], true, true);
      NamesDistinct(shots[i].endLine, line);
    }
    if InfoName(line) in u.infos {
      var i :| 0 <= i < n && InfoName(line) == TheName(shots[i], true, false);
      NamesDistinct(shots[i].endLine, line);
    }
  }

  // The three lines of a shader, when none of its names is taken.
  function Add(u: TranslationUnit, shot: Shot, n: nat): TranslationUnit {
    TranslationUnit(
      u.macros[InfoName(shot.startLine) := InfoName(shot.endLine)],
      u.arrays[SourceName(shot.endLine) := n],
      u.infos[InfoName(shot.endLine) := Info(SourceName(shot.endLine), n)])
  }

  lemma CompileEmit(ls: seq<Line>, u: TranslationUnit, shot: Shot, n: nat)
    requires Compile(ls) == Some(u)
    requires InfoName(shot.endLine) !in u.macros && SourceName(shot.endLine) !in u.macros
    requires InfoName(shot.startLine) !in u.macros
    requires SourceName(shot.endLine) !in u.arrays && InfoName(shot.endLine) !in u.infos
    ensures Compile(ls + Emit(shot, n)) == Some(Add(u, shot, n))
  {
    var e := Emit(shot, n);
    CompileSnoc(ls, e[0]);
    CompileSnoc(ls + [e[0]], e[1]);
    CompileSnoc(ls + [e[0]] + [e[1]], e[2]);
    assert ls + e == ls + [e[0]] + [e[1]] + [e[2]];
  }

  lemma CompileSnoc(ls: seq<Line>, l: Line)
    requires Compile(ls).Some?
    ensures Compile(ls + [l]) == Process(Compile(ls).value, l)
  {
    assert (ls + [l])[..|ls + [l]| - 1] == ls;
  }

  lemma AddEntered(u: TranslationUnit, shots: seq<Shot>, n: nat, i: nat)
    requires Separated(shots) && i < n < |shots| && Entered(u, shots, n, i)
    ensures Entered(Add(u, shots[n], n), shots, n + 1, i)
  {
    NamesDistinct(shots[i].startLine, shots[n].startLine);
    NamesDistinct(shots[i].endLine, shots[n].endLine);
  }

  lemma AddNames(names: set<string>, shots: seq<Shot>, n: nat, end: bool, source: bool)
    requires n < |shots| && NamesOnly(names, shots, n, end, source)
    ensures NamesOnly(names + {TheName(shots[n], end, source)}, shots, n + 1, end, source)
  {
  }

  lemma AddDescribes(u: TranslationUnit, shots: seq<Shot>, n: nat)
    requires Separated(shots) && n < |shots| && Describes(u, shots, n)
    ensures Describes(Add(u, shots[n], n), shots, n + 1)
  {
    var v, m := Add(u, shots[n], n), n + 1;
    forall i | 0 <= i < m
      ensures Entered(v, shots, m, i)
    {
      if i < n {
        assert Entered(u, shots, n, i);
        AddEntered(u, shots, n, i);
      }
    }
    AddKeys(u, shots[n], n);
    AddNames(u.macros.Keys, shots, n, false, false);
    AddNames(u.arrays.Keys, shots, n, true, true);
    AddNames(u.infos.Keys, shots, n, true, false);
  }

  lemma AddKeys(u: TranslationUnit, shot: Shot, n: nat)
    ensures var v := Add(u, shot, n);
      v.macros.Keys == u.macros.Keys + {TheName(shot, false, false)} &&
      v.arrays.Keys == u.arrays.Keys + {TheName(shot, true, true)} &&
      v.infos.Keys == u.infos.Keys + {TheName(shot, true, false)}
  {
  }

  // Nothing written before clashes with the names of shader n.
  lemma NextIsNew(u: TranslationUnit, shots: seq<Shot>, n: nat)
    requires Separated(shots) && n < |shots| && Describes(u, shots, n)
    ensures InfoName(shots[n].endLine) !in u.macros && SourceName(shots[n].endLine) !in u.macros
    ensures InfoName(shots[n].startLine) !in u.macros
    ensures SourceName(shots[n].endLine) !in u.arrays && InfoName(shots[n].endLine) !in u.infos
  {
    NotMacro(u, shots, n, shots[n].startLine, false);
    NotMacro(u, shots, n, shots[n].endLine, false);
    NotMacro(u, shots, n, shots[n].endLine, true);
    NotDefined(u, shots, n, shots[n].endLine);
  }

  lemma CompileNext(ls: seq<Line>, before: TranslationUnit, shots: seq<Shot>, n: nat) returns (u: TranslationUnit)
    requires Separated(shots) && n < |shots| && Describes(before, shots, n) && Compile(ls) == Some(before)
    ensures Compile(ls + Emit(shots[n], n)) == Some(u) && Describes(u, shots, n + 1)
  {
    NextIsNew(before, shots, n);
    CompileEmit(ls, before, shots[n], n);
    AddDescribes(before, shots, n);
    u := Add(before, shots[n], n);
  }

  lemma {:induction false} CompileFirst(shots: seq<Shot>, n: nat) returns (u: TranslationUnit)
    requires Separated(shots) && n <= |shots|
    ensures Compile(EmitFirst(shots, n)) == Some(u) && Describes(u, shots, n)
    decreases n
  {
    if n == 0 {
      u := TranslationUnit(map[], map[], map[]);
    } else {
      var before := CompileFirst(shots, n - 1);
      u := CompileNext(EmitFirst(shots, n - 1), before, shots, n - 1);
    }
  }

  // ----- looking names up -----

  lemma ExpandTwice(macros: map<string, string>, name: string, body: string)
    requires name in macros && macros[name] == body && (body in macros ==> body == name)
    ensures Expand(macros, name, {}) == body
  {
    assert {} + {name} == {name};
  }

  lemma LookupEnd(u: TranslationUnit, shots: seq<Shot>, i: nat)
    requires Separated(shots) && i < |shots| && Describes(u, shots, |shots|)
    ensures Lookup(u, shots[i].endLine) == Some(i) && Lookup(u, shots[i].startLine) == Some(i)
  {
    var n, start, end := |shots|, shots[i].startLine, shots[i].endLine;
    PastedIs(start);
    PastedIs(end);
    assert Entered(u, shots, n, i);
    if start == end {
      ExpandTwice(u.macros, InfoName(start), InfoName(end));
    } else {
      forall j | 0 <= j < n
        ensures shots[j].startLine != end
      {
        if j > i {
          assert shots[i].endLine < shots[j].startLine;
        } else if j < i {
          assert shots[j].endLine < shots[i].startLine;
        }
      }
      NotMacro(u, shots, n, end, false);
      ExpandTwice(u.macros, InfoName(start), InfoName(end));
    }
  }

  // Lines in file order are separated as soon as neighbours are.
  lemma {:induction false} SeparatedByNeighbours(shots: seq<Shot>, i: nat, j: nat)
    requires forall k :: 0 <= k < |shots| ==> shots[k].startLine <= shots[k].endLine
    requires AllApart(shots) && i < j < |shots|
    ensures shots[i].endLine < shots[j].startLine
    decreases j - i
  {
    assert LinesApart(shots, j - 1);
    if i + 1 < j {
      SeparatedByNeighbours(shots, i, j - 1);
    }
  }

  // Neighbouring shaders share no line.
  ghost predicate LinesApart(shots: seq<Shot>, k: nat)
    requires k + 1 < |shots|
  {
    shots[k].endLine < shots[k + 1].startLine
  }

  ghost predicate AllApart(shots: seq<Shot>) {
    forall k {:trigger LinesApart(shots, k)} :: 0 <= k < |shots| - 1 ==> LinesApart(shots, k)
  }

  lemma SeparatedResolves(shots: seq<Shot>)
    requires Separated(shots)
    ensures Resolves(shots)
  {
    var u := CompileFirst(shots, |shots|);
    forall i | 0 <= i < |shots|
      ensures Lookup(u, shots[i].startLine) == Some(i) && Lookup(u, shots[i].endLine) == Some(i)
    {
      LookupEnd(u, shots, i);
    }
  }

  // One name cannot reach two shaders.
  lemma SharedLine(shots: seq<Shot>, k: nat)
    requires k + 1 < |shots| && shots[k].endLine == shots[k + 1].startLine
    ensures !Resolves(shots)
  {
  }

  // Generated names resolve exactly when no shader starts on the line the
  // shader before it ends on.
  lemma ResolvesIffApart(shots: seq<Shot>)
    requires InOrder(shots, 0)
    ensures Resolves(shots) <==> AllApart(shots)
  {
    OrderFacts(shots, 0);
    if AllApart(shots) {
      forall i, j | 0 <= i < j < |shots|
        ensures shots[i].endLine < shots[j].startLine
      {
        SeparatedByNeighbours(shots, i, j);
      }
      SeparatedResolves(shots);
    } else {
      var k: nat :| k < |shots| - 1 && !LinesApart(shots, k);
      SharedLine(shots, k);
    }
  }

  lemma {:induction false} OrderFacts(shots: seq<Shot>, from: nat)
    requires InOrder(shots, from)
    ensures forall k :: 0 <= k < |shots| ==> shots[k].startLine <= shots[k].endLine
    ensures forall k {:trigger shots[k].endLine} :: 0 <= k < |shots| - 1 ==> shots[k].endLine <= shots[k + 1].startLine
    decreases |shots|
  {
    if shots != [] {
      OrderFacts(shots[1..], shots[0].endLine);
      assert forall k :: 1 <= k < |shots| ==> shots[k] == shots[1..][k - 1];
    }
  }
}
