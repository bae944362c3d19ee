// Reading a 32-bit integer argument with the C library's strtol.
module ParseInt {
  import opened Machine
  import opened Text
  import opened Decimal

  // isspace in the C locale.
  predicate IsCSpace(c: char) {
    c == ' ' || '\t' as int <= c as int <= '\r' as int
  }

  predicate IsSign(c: char) {
    c == '+' || c == '-'
  }

  // How many characters of s from position i on satisfy p.
  function Span(p: char -> bool, s: string, i: nat): (n: nat)
    requires i <= |s|
    ensures i + n <= |s|
    ensures forall j :: i <= j < i + n ==> p(s[j])
    ensures i + n < |s| ==> !p(s[i + n])
    decreases |s| - i
  {
    if i == |s| || !p(s[i]) then 0 else 1 + Span(p, s, i + 1)
  }

  function Saturate(v: int): Int64 {
    if v < -0x8000_0000_0000_0000 then -0x8000_0000_0000_0000
    else if v > 0x7fff_ffff_ffff_ffff then 0x7fff_ffff_ffff_ffff
    else v
  }

  function Signed(minus: bool, digits: string): int
    requires AllDigits(digits)
  {
    if minus then 0 - Value(digits) else Value(digits)
  }

  // Where the white space and the sign before the digits end.
  function SpaceEnd(s: string): (a: nat)
    ensures a <= |s|
  {
    Span(IsCSpace, s, 0)
  }

  function SignEnd(s: string): (b: nat)
    ensures b <= |s|
  {
    var a := SpaceEnd(s);
    if a < |s| && IsSign(s[a]) then a + 1 else a
  }

  // strtol(s, &endptr, 10): the long and where it ends, which is 0 when there
  // are no digits.
  function Strtol(s: string): (r: (Int64, nat))
    ensures r.1 <= |s|
  {
    var b := SignEnd(s);
    var n := Span(IsDigit, s, b);
    if n == 0 then (0, 0) else (Saturate(Signed(Minus(s[SpaceEnd(s)..b]), s[b..b + n])), b + n)
  }

  function ParseI32(str: string): Option<Int32> {
    if str == "" then None
    else
      var (l, end) := Strtol(str);
      if end < |str| then None
      else if l < -0x8000_0000 || l > 0x7fff_ffff then None
      else Some(l)
  }

  // ----- what it accepts -----

  // White space, an optional sign and digits.
  predicate Parts(s: string, space: string, sign: string, digits: string) {
    s == space + sign + digits &&
    (forall i :: 0 <= i < |space| ==> IsCSpace(space[i])) &&
    (sign == "" || (|sign| == 1 && IsSign(sign[0]))) && digits != "" && AllDigits(digits)
  }

  predicate Minus(sign: string) {
    sign != "" && sign[0] == '-'
  }

  // s is the notation of an integer v.
  ghost predicate Denotes(s: string, v: int) {
    exists space, sign, digits :: Parts(s, space, sign, digits) && v == Signed(Minus(sign), digits)
  }

  lemma SpanIs(p: char -> bool, s: string, i: nat, n: nat)
    requires i + n <= |s| && (forall j :: i <= j < i + n ==> p(s[j])) && (i + n < |s| ==> !p(s[i + n]))
    ensures Span(p, s, i) == n
  {
  }

  lemma EndsOfParts(s: string, space: string, sign: string, digits: string)
    requires Parts(s, space, sign, digits)
    ensures SpaceEnd(s) == |space| && SignEnd(s) == |space| + |sign|
    ensures Span(IsDigit, s, SignEnd(s)) == |digits| && |s| == |space| + |sign| + |digits|
  {
    var a, b := |space|, |space| + |sign|;
    assert s[..a] == space && s[a..b] == sign && s[b..] == digits;
    assert s[b] == digits[0] && IsDigit(s[b]) && (sign != "" ==> s[a] == sign[0]);
    forall j | 0 <= j < a
      ensures IsCSpace(s[j])
    {
      assert s[j] == space[j];
    }
    forall j | b <= j < |s|
      ensures IsDigit(s[j])
    {
      assert s[j] == digits[j - b];
    }
    SpanIs(IsCSpace, s, 0, a);
    SpanIs(IsDigit, s, b, |digits|);
  }

  lemma StrtolOfParts(s: string, space: string, sign: string, digits: string)
    requires Parts(s, space, sign, digits)
    ensures Strtol(s) == (Saturate(Signed(Minus(sign), digits)), |s|)
  {
    EndsOfParts(s, space, sign, digits);
    var a, b := |space|, |space| + |sign|;
    assert s[a..b] == sign && s[b..b + |digits|] == digits;
  }

  lemma PiecesAreParts(s: string, a: nat, b: nat, k: nat)
    requires a <= b < k <= |s| && b <= a + 1 && (a < b ==> IsSign(s[a]))
    requires (forall i :: 0 <= i < a ==> IsCSpace(s[i])) && forall i :: b <= i < k ==> IsDigit(s[i])
    ensures Parts(s[..k], s[..a], s[a..b], s[b..k])
  {
    assert forall i :: 0 <= i < k - b ==> s[b..k][i] == s[b + i];
  }

  lemma PartsOfStrtol(s: string) returns (space: string, sign: string, digits: string)
    requires s != "" && Strtol(s).1 == |s|
    ensures Parts(s, space, sign, digits)
  {
    var a, b := SpaceEnd(s), SignEnd(s);
    space, sign, digits := s[..a], s[a..b], s[b..];
    PiecesAreParts(s, a, b, |s|);
    assert s[..|s|] == s;
  }

  // A string is accepted, with value v, exactly when it denotes v and v fits in
  // 32 signed bits.
  lemma ParseI32Correct(s: string, v: int)
    ensures ParseI32(s) == Some(v) <==> Denotes(s, v) && -0x8000_0000 <= v <= 0x7fff_ffff
  {
    if s != "" && Strtol(s).1 == |s| {
      var space, sign, digits := PartsOfStrtol(s);
      StrtolOfParts(s, space, sign, digits);
    }
    forall space, sign, digits | Parts(s, space, sign, digits)
      ensures Strtol(s) == (Saturate(Signed(Minus(sign), digits)), |s|)
    {
      StrtolOfParts(s, space, sign, digits);
    }
  }

  function PrintI32(v: Int32): string {
    if v < 0 then "-" + Print(0 - v) else Print(v)
  }

  lemma StrtolOfPrint(sign: string, n: nat)
    requires sign == "" || (|sign| == 1 && IsSign(sign[0]))
    ensures Strtol(sign + Print(n)) == (Saturate(if Minus(sign) then 0 - n else n), |sign + Print(n)|)
    ensures Print(n) != ""
  {
    PrintValue(n);
    StrtolOfDigits(sign, Print(n));
  }

  lemma StrtolOfDigits(sign: string, digits: string)
    requires (sign == "" || (|sign| == 1 && IsSign(sign[0]))) && digits != "" && AllDigits(digits)
    ensures Strtol(sign + digits) == (Saturate(Signed(Minus(sign), digits)), |sign + digits|)
  {
    assert "" + sign + digits == sign + digits;
    StrtolOfParts(sign + digits, "", sign, digits);
  }

  // Parsing the decimal notation of any 32-bit integer gives it back.
  lemma PrintParse(v: Int32)
    ensures ParseI32(PrintI32(v)) == Some(v)
  {
    if v < 0 {
      StrtolOfPrint("-", 0 - v);
    } else {
      assert "" + Print(v) == Print(v);
      StrtolOfPrint("", v);
    }
  }

  // The characters that isspace takes in the C locale.
  lemma CSpacesAre(c: char)
    ensures IsCSpace(c) <==> c in " \t\n\U{b}\U{c}\r"
  {
  }

  // White space and either sign may come before a number.
  lemma SignRead(space: string, sign: string, digits: string)
    requires (forall i :: 0 <= i < |space| ==> IsCSpace(space[i])) && sign in ["", "+", "-"]
    requires digits != "" && AllDigits(digits) && Value(digits) < 0x8000_0000
    ensures ParseI32(space + sign + digits) == Some(if sign == "-" then 0 - Value(digits) else Value(digits))
  {
    StrtolOfParts(space + sign + digits, space, sign, digits);
  }

  // ----- the device id: no check of the range or of what follows -----

  // strtol with no end pointer, cut to the low 32 bits of the long.
  function ReadInt(str: string): Int32 {
    Truncate32(Strtol(str).0)
  }

  // The first k characters are white space, an optional sign and digits, and no
  // further digit follows.
  predicate Leading(s: string, k: nat, space: string, sign: string, digits: string) {
    k <= |s| && Parts(s[..k], space, sign, digits) && (k < |s| ==> !IsDigit(s[k]))
  }

  // s begins with the notation of v.
  ghost predicate Leads(s: string, v: int) {
    exists k, space, sign, digits :: Leading(s, k, space, sign, digits) && v == Signed(Minus(sign), digits)
  }

  lemma EndsOfLeading(s: string, k: nat, space: string, sign: string, digits: string)
    requires Leading(s, k, space, sign, digits)
    ensures SpaceEnd(s) == |space| && SignEnd(s) == |space| + |sign| && Span(IsDigit, s, SignEnd(s)) == |digits|
  {
    var a, b := |space|, |space| + |sign|;
    var t := s[..k];
    assert t[..a] == space && t[a..b] == sign && t[b..] == digits;
    assert t[b] == digits[0] && IsDigit(t[b]) && (sign != "" ==> t[a] == sign[0]);
    forall j | 0 <= j < a
      ensures IsCSpace(s[j])
    {
      assert t[j] == space[j];
    }
    forall j | b <= j < k
      ensures IsDigit(s[j])
    {
      assert t[j] == digits[j - b];
    }
    assert s[b] == t[b] && (sign != "" ==> s[a] == t[a]);
    SpanIs(IsCSpace, s, 0, a);
    SpanIs(IsDigit, s, b, |digits|);
  }

  lemma StrtolOfLeading(s: string, k: nat, space: string, sign: string, digits: string)
    requires Leading(s, k, space, sign, digits)
    ensures Strtol(s) == (Saturate(Signed(Minus(sign), digits)), k)
  {
    EndsOfLeading(s, k, space, sign, digits);
    var a, b := |space|, |space| + |sign|;
    assert s[..k][a..b] == sign && s[..k][b..] == digits;
    assert s[a..b] == sign && s[b..k] == digits;
  }

  lemma LeadingOfStrtol(s: string) returns (k: nat, space: string, sign: string, digits: string)
    requires Strtol(s).1 > 0
    ensures Leading(s, k, space, sign, digits)
  {
    var a, b := SpaceEnd(s), SignEnd(s);
    k := b + Span(IsDigit, s, b);
    space, sign, digits := s[..a], s[a..b], s[b..k];
    PiecesAreParts(s, a, b, k);
  }

  // For every string: the number it begins with, saturated and cut, or 0.
  lemma ReadIntIs(s: string, v: int)
    ensures Leads(s, v) ==> ReadInt(s) == Truncate32(Saturate(v))
    ensures Strtol(s).1 == 0 <==> forall w :: !Leads(s, w)
    ensures Strtol(s).1 == 0 ==> ReadInt(s) == 0
  {
    forall k: nat, space, sign, digits | Leading(s, k, space, sign, digits)
      ensures Strtol(s) == (Saturate(Signed(Minus(sign), digits)), k) && k > 0
    {
      StrtolOfLeading(s, k, space, sign, digits);
    }
    if Strtol(s).1 > 0 {
      var k, space, sign, digits := LeadingOfStrtol(s);
      assert Leads(s, Signed(Minus(sign), digits));
    }
  }

  lemma TruncateKeeps(v: Int64)
    ensures Truncate32(v) == v <==> -0x8000_0000 <= v < 0x8000_0000
  {
  }

  // An id is accepted exactly when the number it begins with is positive once
  // saturated and cut to 32 bits.
  lemma ReadIntPositive(s: string)
    ensures ReadInt(s) > 0 <==> exists v :: Leads(s, v) && Truncate32(Saturate(v)) > 0
  {
    ReadIntIs(s, 0);
    if Strtol(s).1 > 0 {
      var w :| Leads(s, w);
      ReadIntIs(s, w);
    }
    forall v | Leads(s, v)
      ensures ReadInt(s) == Truncate32(Saturate(v))
    {
      ReadIntIs(s, v);
    }
  }

  predicate Fits(v: int) {
    -0x8000_0000 <= v <= 0x7fff_ffff
  }

  lemma LeadingOnce(s: string, k: nat, a: string, b: string, c: string, k': nat, a': string, b': string, c': string)
    requires Leading(s, k, a, b, c) && Leading(s, k', a', b', c')
    ensures b == b' && c == c'
  {
    EndsOfLeading(s, k, a, b, c);
    EndsOfLeading(s, k', a', b', c');
    assert s[..k][|a|..|a| + |b|] == b && s[..k][|a| + |b|..] == c;
    assert s[..k'][|a'|..|a'| + |b'|] == b' && s[..k'][|a'| + |b'|..] == c';
  }

  lemma LeadsOnce(s: string, v: int, w: int)
    requires Leads(s, v) && Leads(s, w)
    ensures v == w
  {
    var k: nat, a, b, c :| Leading(s, k, a, b, c) && v == Signed(Minus(b), c);
    var k': nat, a', b', c' :| Leading(s, k', a', b', c') && w == Signed(Minus(b'), c');
    LeadingOnce(s, k, a, b, c, k', a', b', c');
  }

  lemma ReadIntAgrees(s: string, v: int)
    requires Leads(s, v) && ReadInt(s) > 0
    ensures ParseI32(s) == Some(ReadInt(s)) <==> Denotes(s, v) && Fits(v)
  {
    ReadIntIs(s, v);
    ParseI32Correct(s, v);
    if Fits(v) {
      TruncateKeeps(v);
    }
    var r := ReadInt(s);
    ParseI32Correct(s, r);
    if Denotes(s, r) {
      DenotesLeads(s, r);
      LeadsOnce(s, r, v);
    }
  }

  lemma DenotesLeads(s: string, v: int)
    requires Denotes(s, v)
    ensures Leads(s, v)
  {
    var space, sign, digits :| Parts(s, space, sign, digits) && v == Signed(Minus(sign), digits);
    assert s[..|s|] == s;
    assert Leading(s, |s|, space, sign, digits);
  }

  // It is accepted although parse_i32 would not read it so exactly when that
  // number does not fit in 32 bits or something follows it.
  lemma ReadIntWrong(s: string)
    ensures ReadInt(s) > 0 && ParseI32(s) != Some(ReadInt(s)) <==>
      exists v :: Leads(s, v) && Truncate32(Saturate(v)) > 0 && !(Denotes(s, v) && Fits(v))
  {
    ReadIntPositive(s);
    if ReadInt(s) > 0 {
      var v :| Leads(s, v) && Truncate32(Saturate(v)) > 0;
      ReadIntAgrees(s, v);
      forall w | Leads(s, w)
        ensures w == v
      {
        LeadsOnce(s, v, w);
      }
    }
  }

  lemma LeadingDigits(digits: string, rest: string)
    requires digits != "" && AllDigits(digits) && (rest == "" || !IsDigit(rest[0]))
    ensures Leading(digits + rest, |digits|, "", "", digits)
  {
    assert (digits + rest)[..|digits|] == digits == "" + "" + digits;
  }

  lemma ReadIntOfPrintThen(n: nat, rest: string)
    requires rest == "" || !IsDigit(rest[0])
    ensures Strtol(Print(n) + rest) == (Saturate(n), |Print(n)|)
  {
    PrintValue(n);
    LeadingDigits(Print(n), rest);
    StrtolOfLeading(Print(n) + rest, |Print(n)|, "", "", Print(n));
  }

  // A decimal number is read as itself only below 2^31; larger ones stand for
  // their low 32 bits, or -1 once they saturate, where parse_i32 rejects them.
  lemma ReadIntOfPrint(n: nat)
    ensures ReadInt(Print(n)) == Truncate32(Saturate(n))
    ensures ReadInt(Print(n)) == n <==> n < 0x8000_0000
    ensures ParseI32(Print(n)) == if n < 0x8000_0000 then Some(n) else None
  {
    PrintValue(n);
    assert Print(n) + "" == Print(n);
    ReadIntOfPrintThen(n, "");
    TruncateKeeps(Saturate(n));
  }

  // Beyond 64 bits a positive number is read as -1 and a negative one as 0.
  lemma ReadIntSaturated(n: nat)
    requires n > 0x7fff_ffff_ffff_ffff
    ensures ReadInt(Print(n)) == -1 && ReadInt("-" + Print(n)) == 0
  {
    ReadIntOfPrint(n);
    StrtolOfPrint("-", n);
  }

  // So it is accepted as another device exactly in this range.
  lemma PrintReadWrong(n: nat)
    ensures ReadInt(Print(n)) > 0 && ReadInt(Print(n)) != n <==>
      0x8000_0000 <= n <= 0x7fff_ffff_ffff_ffff && 0 < n % SIZE_32 < 0x8000_0000
  {
    ReadIntOfPrint(n);
  }

  // And one that fits is accepted with anything but a digit after it.
  lemma SuffixIgnored(n: nat, rest: string)
    requires rest != "" && !IsDigit(rest[0])
    ensures ReadInt(Print(n) + rest) == Truncate32(Saturate(n)) && ParseI32(Print(n) + rest) == None
  {
    ReadIntOfPrintThen(n, rest);
  }

  // The number one above 2^32, however it is written, stands for device 1.
  lemma WrongDevice(s: string)
    requires Denotes(s, 0x1_0000_0001)
    ensures ReadInt(s) == 1 && ParseI32(s) == None
  {
    DenotesLeads(s, 0x1_0000_0001);
    ReadIntIs(s, 0x1_0000_0001);
    forall r: Int32 | Denotes(s, r)
      ensures false
    {
      DenotesLeads(s, r);
      LeadsOnce(s, r, 0x1_0000_0001);
    }
    ParseI32Correct(s, if ParseI32(s) == None then 0 else ParseI32(s).value);
  }

  lemma SuffixReadAs(n: nat, rest: string, s: string)
    requires rest != "" && !IsDigit(rest[0]) && s == Print(n) + rest && n < 0x8000_0000
    ensures ReadInt(s) == n && ParseI32(s) == None
  {
    SuffixIgnored(n, rest);
  }

  lemma WrongSuffix()
    ensures ReadInt("3abc") == 3 && ParseI32("3abc") == None
  {
    assert Print(3) == "3" && "3abc" == "3" + "abc";
    SuffixReadAs(3, "abc", "3abc");
  }
}
