// SPIR-V bytes as 32-bit words, and their dump as a C array.
module Spirv {
  import opened Machine
  import opened Text

  type Byte = x: int | 0 <= x < 256

  // ----- bytes and words -----

  // The four bytes of a word, in the machine's order.
  function Bytes(d: UInt32, little: bool): (b: seq<Byte>)
    ensures |b| == 4
  {
    var b0, high := d % 256, d / 256;
    var b1, higher := high % 256, high / 256;
    var b2, b3 := higher % 256, higher / 256;
    if little then [b0, b1, b2, b3] else [b3, b2, b1, b0]
  }

  // struct.unpack('I', b)
  function Word(b: seq<Byte>, little: bool): (d: UInt32)
    requires |b| == 4
    ensures Bytes(d, little) == b
  {
    if little then Push(Push(Push(b[3], b[2]), b[1]), b[0]) else Push(Push(Push(b[0], b[1]), b[2]), b[3])
  }

  function Push(high: nat, low: Byte): (d: nat)
    ensures d % 256 == low && d / 256 == high
  {
    256 * high + low
  }

  // The number of four bytes, lowest first.
  function Sum(b0: nat, b1: nat, b2: nat, b3: nat): nat {
    b0 + 0x100 * b1 + 0x1_0000 * b2 + 0x100_0000 * b3
  }

  lemma WordIs(b: seq<Byte>)
    requires |b| == 4
    ensures Word(b, true) == Sum(b[0], b[1], b[2], b[3])
    ensures Word(b, false) == Sum(b[3], b[2], b[1], b[0])
  {
  }

  // The first word of every module, as a little-endian machine stores it.
  lemma MagicNumber()
    ensures Word([0x03, 0x02, 0x23, 0x07], true) == 0x0723_0203
  {
  }

  // Writing the words out again.
  function Repack(ds: seq<UInt32>, little: bool): seq<Byte> {
    if ds == [] then [] else Repack(ds[..|ds| - 1], little) + Bytes(ds[|ds| - 1], little)
  }

  // Word d is bytes at to at + 4.
  ghost predicate Holds(spirv: seq<Byte>, at: nat, d: nat, little: bool)
    requires at + 4 <= |spirv|
  {
    d == if little then Sum(spirv[at], spirv[at + 1], spirv[at + 2], spirv[at + 3])
         else Sum(spirv[at + 3], spirv[at + 2], spirv[at + 1], spirv[at])
  }

  // Word by word, ds are the numbers that the bytes are.
  ghost predicate AreWords(spirv: seq<Byte>, ds: seq<nat>, little: bool) {
    4 * |ds| <= |spirv| && forall i {:trigger ds[i]} :: 0 <= i < |ds| ==> Holds(spirv, 4 * i, ds[i], little)
  }

  lemma OneMoreWord(spirv: seq<Byte>, ds: seq<UInt32>, b: seq<Byte>, little: bool)
    requires AreWords(spirv, ds, little)
    requires 4 * |ds| + 4 <= |spirv| && b == spirv[4 * |ds|..4 * |ds| + 4]
    ensures AreWords(spirv, ds + [Word(b, little)], little)
  {
    WordIs(b);
  }

  // Read four bytes at a time; None when the last read comes up short.
  method Unpack(spirv: seq<Byte>, little: bool) returns (r: Option<seq<UInt32>>)
    ensures r.Some? <==> |spirv| % 4 == 0
    ensures r.Some? ==> 4 * |r.value| == |spirv| && AreWords(spirv, r.value, little)
    ensures r.Some? ==> Repack(r.value, little) == spirv
  {
    var dwords: seq<UInt32> := [];
    var at := 0;
    while true
      invariant 0 <= at <= |spirv| && at == 4 * |dwords| && AreWords(spirv, dwords, little)
      invariant Repack(dwords, little) == spirv[..at]
      decreases |spirv| - at
    {
      var dword := spirv[at..if at + 4 <= |spirv| then at + 4 else |spirv|];
      if dword == [] {
        assert spirv[..at] == spirv;
        return Some(dwords);
      }
      if |dword| != 4 {
        return None;
      }
      OneMoreWord(spirv, dwords, dword, little);
      dwords := dwords + [Word(dword, little)];
      at := at + 4;
    }
  }

  // ----- the dump -----

  function HexDigit(d: nat): char
    requires d < 16
  {
    if d < 10 then '0' + d as char else 'a' + (d - 10) as char
  }

  // The low n hexadecimal digits of d.
  function Hex(d: nat, n: nat): string {
    if n == 0 then "" else Hex(d / 16, n - 1) + [HexDigit(d % 16)]
  }

  function Entry(d: UInt32): string {
    " 0x" + Hex(d, 8) + ","
  }

  function Entries(ds: seq<UInt32>): string {
    if ds == [] then "" else Entry(ds[0]) + Entries(ds[1..])
  }

  const ROW := 6

  function Rows(ds: seq<UInt32>): seq<seq<UInt32>> {
    if ds == [] then [] else if |ds| <= ROW then [ds] else [ds[..ROW]] + Rows(ds[ROW..])
  }

  function RowsText(rows: seq<seq<UInt32>>): string {
    if rows == [] then "\n};\n" else "\n    " + Entries(rows[0]) + RowsText(rows[1..])
  }

  function Flatten(rows: seq<seq<UInt32>>): seq<UInt32> {
    if rows == [] then [] else rows[0] + Flatten(rows[1..])
  }

  // Every word is in a row once, in order, and a row has at most six.
  lemma {:induction false} RowsHold(ds: seq<UInt32>)
    ensures Flatten(Rows(ds)) == ds
    ensures forall i :: 0 <= i < |Rows(ds)| ==> 1 <= |Rows(ds)[i]| <= 6
    ensures forall i :: 0 <= i < |Rows(ds)| - 1 ==> |Rows(ds)[i]| == 6
  {
    if |ds| > ROW {
      RowsHold(ds[ROW..]);
    }
  }

  // ----- reading it back, as a C compiler reads the initializer -----

  datatype Mode = Between | Prefix | Number(v: nat)

  function HexValue(c: char): Option<nat> {
    if '0' <= c <= '9' then Some(c as nat - '0' as nat)
    else if 'a' <= c <= 'f' then Some(c as nat - 'a' as nat + 10)
    else if 'A' <= c <= 'F' then Some(c as nat - 'A' as nat + 10)
    else None
  }

  // Hexadecimal digits of either case.
  lemma HexDigitsAre(v: nat)
    requires v < 16
    ensures HexValue("0123456789abcdef"[v]) == Some(v) && HexValue("0123456789ABCDEF"[v]) == Some(v)
  {
  }

  function Listed(v: nat, more: Option<seq<nat>>): Option<seq<nat>> {
    if more.Some? then Some([v] + more.value) else None
  }

  // The numbers up to the closing brace; None when the text is anything else.
  function Read(s: string, mode: Mode): Option<seq<nat>> {
    if s == "" then None
    else
      var c, rest := s[0], s[1..];
      match mode
      case Between =>
        if c == ' ' || c == '\n' then Read(rest, Between)
        else if c == '0' then Read(rest, Prefix)
        else if c == '}' then Some([])
        else None
      case Prefix =>
        if c == 'x' then Read(rest, Number(0)) else None
      case Number(v) =>
        if c == ',' then Listed(v, Read(rest, Between))
        else if HexValue(c).Some? then Read(rest, Number(16 * v + HexValue(c).value))
        else None
  }

  function Power16(n: nat): nat {
    if n == 0 then 1 else 16 * Power16(n - 1)
  }

  lemma {:induction false} HexReads(d: nat, n: nat, v: nat, rest: string)
    requires d < Power16(n)
    ensures Read(Hex(d, n) + rest, Number(v)) == Read(rest, Number(v * Power16(n) + d))
    decreases n
  {
    if n == 0 {
      assert Hex(d, n) + rest == rest;
    } else {
      var more := [HexDigit(d % 16)] + rest;
      assert Hex(d, n) + rest == Hex(d / 16, n - 1) + more;
      HexReads(d / 16, n - 1, v, more);
      assert more[1..] == rest;
      Powers(v, Power16(n - 1), d / 16, d);
    }
  }

  lemma Powers(v: nat, p: nat, q: nat, d: nat)
    requires q == d / 16
    ensures 16 * (v * p + q) + d % 16 == v * (16 * p) + d
  {
  }

  lemma CharRead(c: char, rest: string, mode: Mode, next: Mode)
    requires match mode
      case Between => (c == ' ' && next == Between) || (c == '0' && next == Prefix)
      case Prefix => c == 'x' && next == Number(0)
      case Number(_) => false
    ensures Read([c] + rest, mode) == Read(rest, next)
  {
    assert ([c] + rest)[1..] == rest;
  }

  lemma PrefixReads(number: string)
    ensures Read(" " + ("0" + ("x" + number)), Between) == Read(number, Number(0))
  {
    CharRead(' ', "0" + ("x" + number), Between, Between);
    CharRead('0', "x" + number, Between, Prefix);
    CharRead('x', number, Prefix, Number(0));
  }

  lemma EntryRegroups(hex: string, rest: string)
    ensures " 0x" + hex + "," + rest == " " + ("0" + ("x" + (hex + ("," + rest))))
  {
  }

  lemma NumberReads(d: nat, n: nat, rest: string, number: string)
    requires d < Power16(n) && number == Hex(d, n) + ("," + rest)
    ensures Read(number, Number(0)) == Listed(d, Read(rest, Between))
  {
    HexReads(d, n, 0, "," + rest);
  }

  lemma EntryReads(d: UInt32, rest: string)
    ensures Read(Entry(d) + rest, Between) == Listed(d, Read(rest, Between))
  {
    var number := Hex(d, 8) + ("," + rest);
    assert Power16(8) == SIZE_32;
    NumberReads(d, 8, rest, number);
    EntryRegroups(Hex(d, 8), rest);
    PrefixReads(number);
  }

  // White space between entries does not matter.
  lemma {:induction false} Skips(blank: string, rest: string)
    requires forall i :: 0 <= i < |blank| ==> blank[i] == ' ' || blank[i] == '\n'
    ensures Read(blank + rest, Between) == Read(rest, Between)
  {
    if blank == "" {
      assert blank + rest == rest;
    } else {
      assert (blank + rest)[1..] == blank[1..] + rest;
      Skips(blank[1..], rest);
    }
  }

  lemma {:induction false} EntriesRead(ds: seq<UInt32>, rest: string)
    ensures Read(Entries(ds) + rest, Between) ==
      if Read(rest, Between).Some? then Some(ds + Read(rest, Between).value) else None
  {
    if ds == [] {
      assert Entries(ds) + rest == rest;
      if Read(rest, Between).Some? {
        assert ds + Read(rest, Between).value == Read(rest, Between).value;
      }
    } else {
      var more := Entries(ds[1..]) + rest;
      assert Entries(ds) + rest == Entry(ds[0]) + more;
      EntryReads(ds[0], more);
      EntriesRead(ds[1..], rest);
      if Read(rest, Between).Some? {
        var tail := Read(rest, Between).value;
        assert [ds[0] as nat] + (ds[1..] + tail) == ds + tail;
      }
    }
  }

  lemma RowRead(row: seq<UInt32>, more: string)
    requires Read(more, Between).Some?
    ensures Read("\n    " + Entries(row) + more, Between) == Some(row + Read(more, Between).value)
  {
    var blank := "\n    ";
    Associative(blank, Entries(row), more);
    Skips(blank, Entries(row) + more);
    EntriesRead(row, more);
  }

  lemma {:induction false} RowsRead(rows: seq<seq<UInt32>>)
    ensures Read(RowsText(rows), Between) == Some(Flatten(rows))
  {
    if rows == [] {
      Skips("\n", "};\n");
      assert "\n" + "};\n" == "\n};\n";
    } else {
      RowsRead(rows[1..]);
      RowRead(rows[0], RowsText(rows[1..]));
    }
  }

  // ----- the dump loop -----

  lemma RowsAt(ds: seq<UInt32>, at: nat)
    requires at < |ds|
    ensures var end := if at + ROW < |ds| then at + ROW else |ds|; Rows(ds[at..]) == [ds[at..end]] + Rows(ds[end..])
  {
    if at + ROW < |ds| {
      assert ds[at..][..ROW] == ds[at..at + ROW] && ds[at..][ROW..] == ds[at + ROW..];
    } else {
      assert ds[|ds|..] == [] && ds[at..|ds|] == ds[at..];
    }
  }

  // The body of the array, from its opening brace to the end of the
  // declaration: rows of at most six words.
  method Dump(dwords: seq<UInt32>) returns (f: string)
    ensures f == RowsText(Rows(dwords))
  {
    f := "";
    var lineStart := 0;
    while lineStart < |dwords|
      invariant lineStart >= 0
      invariant lineStart <= |dwords| ==> f + RowsText(Rows(dwords[lineStart..])) == RowsText(Rows(dwords))
      invariant lineStart > |dwords| ==> f + RowsText([]) == RowsText(Rows(dwords))
    {
      var end := if lineStart + ROW < |dwords| then lineStart + ROW else |dwords|;
      var row := DumpRow(dwords, lineStart, end);
      RowsAt(dwords, lineStart);
      Associative(f, row, RowsText(Rows(dwords[end..])));
      f := f + row;
      lineStart := lineStart + ROW;
    }
    f := f + "\n};\n";
  }

  method DumpRow(dwords: seq<UInt32>, start: nat, end: nat) returns (row: string)
    requires start <= end <= |dwords|
    ensures row == "\n    " + Entries(dwords[start..end])
  {
    row := "\n    ";
    for i := start to end
      invariant row + Entries(dwords[i..end]) == "\n    " + Entries(dwords[start..end])
    {
      Associative(row, Entry(dwords[i]), Entries(dwords[i + 1..end]));
      row := row + Entry(dwords[i]);
    }
  }

  // From the compiler's bytes to the dumped array: reading the array gives the
  // numbers that the bytes are, four at a time, and writing those out in the same
  // order gives back the bytes.
  method DumpBytes(spirv: seq<Byte>, little: bool) returns (f: Option<string>)
    ensures f.Some? <==> |spirv| % 4 == 0
    ensures f.Some? ==> exists ds: seq<UInt32> ::
      Read(f.value, Between) == Some(ds) && 4 * |ds| == |spirv| && AreWords(spirv, ds, little) &&
      Repack(ds, little) == spirv
  {
    var dwords := Unpack(spirv, little);
    if dwords.None? {
      return None;
    }
    var text := Dump(dwords.value);
    RowsHold(dwords.value);
    RowsRead(Rows(dwords.value));
    return Some(text);
  }
}
