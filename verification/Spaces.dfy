// White space as Python strings and regular expressions see it.
module Spaces {

  predicate IsSpace(c: char) {
    var n := c as int;
    0x09 <= n <= 0x0D || 0x1C <= n <= 0x20 || n == 0x85 || n == 0xA0 || n == 0x1680
    || 0x2000 <= n <= 0x200A || n == 0x2028 || n == 0x2029 || n == 0x202F || n == 0x205F || n == 0x3000
  }

  predicate AllSpace(s: string) {
    forall i :: 0 <= i < |s| ==> IsSpace(s[i])
  }

  predicate NoSpace(s: string) {
    forall i :: 0 <= i < |s| ==> !IsSpace(s[i])
  }

  // Length of the longest prefix of white space (space) or of anything else (!space).
  function Run(s: string, space: bool): (n: nat)
    ensures n <= |s|
    ensures forall i :: 0 <= i < n ==> IsSpace(s[i]) == space
    ensures n < |s| ==> IsSpace(s[n]) != space
  {
    if s == "" || IsSpace(s[0]) != space then 0 else 1 + Run(s[1..], space)
  }

  function DropTrailing(s: string): (r: string)
    ensures r <= s && AllSpace(s[|r|..])
    ensures r != "" ==> !IsSpace(r[|r| - 1])
  {
    if s == "" || !IsSpace(s[|s| - 1]) then s
    else
      var r := DropTrailing(s[..|s| - 1]);
      assert forall i :: |r| <= i < |s| - 1 ==> s[i] == s[..|s| - 1][|r|..][i - |r|];
      r
  }

  // str.strip()
  function Strip(s: string): string {
    DropTrailing(s[Run(s, true)..])
  }

  lemma {:induction false} DropTrailingUnique(r: string, b: string)
    requires AllSpace(b) && (r != "" ==> !IsSpace(r[|r| - 1]))
    ensures DropTrailing(r + b) == r
    decreases |b|
  {
    if b == "" {
      assert r + b == r;
    } else {
      var n := |b| - 1;
      assert (r + b)[|r + b| - 1] == b[n];
      assert (r + b)[..|r + b| - 1] == r + b[..n];
      DropTrailingUnique(r, b[..n]);
    }
  }

  // Strip is the one way to cut white space off both ends and leave none there.
  lemma StripUnique(a: string, r: string, b: string)
    requires AllSpace(a) && AllSpace(b)
    requires r != "" ==> !IsSpace(r[0]) && !IsSpace(r[|r| - 1])
    ensures Strip(a + r + b) == r
  {
    var s := a + r + b;
    var n := Run(s, true);
    if r == "" {
      assert AllSpace(s) && n == |s|;
      DropTrailingUnique("", "");
      assert s[n..] == "" + "";
    } else {
      assert s[|a|] == r[0] && n == |a|;
      assert s[n..] == r + b;
      DropTrailingUnique(r, b);
    }
  }

  // ----- in characters -----

  // The characters for which str.isspace() holds.
  lemma SpacesAre(c: char)
    ensures IsSpace(c) <==>
      c in "\t\n\r \U{b}\U{c}\U{1c}\U{1d}\U{1e}\U{1f}\U{85}\U{a0}\U{1680}" ||
      c in "\U{2000}\U{2001}\U{2002}\U{2003}\U{2004}\U{2005}\U{2006}\U{2007}\U{2008}\U{2009}\U{200a}" ||
      c in "\U{2028}\U{2029}\U{202f}\U{205f}\U{3000}"
  {
  }

  // Blanks as source files have them.
  predicate Blank(s: string) {
    forall i :: 0 <= i < |s| ==> s[i] == ' ' || s[i] == '\t' || s[i] == '\n' || s[i] == '\r'
  }

  // A word in visible ASCII characters.
  predicate Visible(w: string) {
    w != "" && forall i :: 0 <= i < |w| ==> '!' <= w[i] <= '~'
  }

  lemma BlankAndVisible(a: string, w: string)
    ensures Blank(a) ==> AllSpace(a)
    ensures Visible(w) ==> NoSpace(w)
  {
  }

  // A word between blanks is what stripping leaves.
  lemma StripBlanks(a: string, w: string, b: string)
    requires Blank(a) && Visible(w) && Blank(b)
    ensures Strip(a + w + b) == w
  {
    BlankAndVisible(a, w);
    BlankAndVisible(b, w);
    StripUnique(a, w, b);
  }
}
