/** What the address functions accept, store and print, spelled out in characters, digits and bytes. */
module Spelled {
  import opened Text
  import opened Grammar
  import opened Scan
  import opened Compress
  import opened N = InetNtop
  import opened RoundTrip

  const LOWER := "0123456789abcdef"
  const UPPER := "0123456789ABCDEF"

  // ------------------------------------------------------------- digits

  lemma DigitsValued(d: int)
    requires 0 <= d < 16
    ensures IsHexDigit(LOWER[d]) && DigitValue(LOWER[d]) == d && DigitChar(d) == LOWER[d]
    ensures IsHexDigit(UPPER[d]) && DigitValue(UPPER[d]) == d
    ensures IsDigit(LOWER[d]) <==> d < 10
  {
  }

  lemma InRows(c: char)
    requires IsHexDigit(c)
    ensures if 'A' <= c <= 'F' then UPPER[DigitValue(c)] == c else LOWER[DigitValue(c)] == c
  {
  }

  /** Each character of the two rows stands for its place in its row, the decimal digits are the first
      ten, and no other character is a digit; what is printed is from the first row. */
  lemma DigitsSpelled(c: char)
    ensures forall d :: 0 <= d < 16 ==>
      && IsHexDigit(LOWER[d]) && DigitValue(LOWER[d]) == d && DigitChar(d) == LOWER[d]
      && IsHexDigit(UPPER[d]) && DigitValue(UPPER[d]) == d && (IsDigit(LOWER[d]) <==> d < 10)
    ensures IsHexDigit(c) <==> c in LOWER || c in UPPER
    ensures IsDigit(c) ==> c in LOWER
  {
    forall d | 0 <= d < 16
      ensures IsHexDigit(LOWER[d]) && DigitValue(LOWER[d]) == d && DigitChar(d) == LOWER[d]
      ensures IsHexDigit(UPPER[d]) && DigitValue(UPPER[d]) == d && (IsDigit(LOWER[d]) <==> d < 10)
    {
      DigitsValued(d);
    }
    if IsHexDigit(c) {
      InRows(c);
    }
  }

  // ------------------------------------------------------------- upper and lower case

  function ToLower(c: char): char {
    if 'A' <= c <= 'F' then (c as int - 'A' as int + 'a' as int) as char else c
  }

  function Lowered(t: string): (r: string)
    ensures |r| == |t| && forall k :: 0 <= k < |t| ==> r[k] == ToLower(t[k])
  {
    seq(|t|, k requires 0 <= k < |t| => ToLower(t[k]))
  }

  lemma LoweredParts(t: string, j: nat)
    requires j <= |t|
    ensures Lowered(t)[..j] == Lowered(t[..j]) && Lowered(t)[j..] == Lowered(t[j..])
  {
  }

  lemma DigitCase(c: char, b: Base)
    ensures IsDigitOf(ToLower(c), b) <==> IsDigitOf(c, b)
    ensures IsHexDigit(c) ==> DigitValue(ToLower(c)) == DigitValue(c)
    ensures ToLower(c) == ':' <==> c == ':'
    ensures ToLower(c) == '.' <==> c == '.'
    ensures ToLower(c) == '0' <==> c == '0'
  {
  }

  lemma {:induction false} ValueCase(s: string, b: Base)
    requires AllDigits(s, b)
    ensures AllDigits(Lowered(s), b) && Value(Lowered(s), b) == Value(s, b)
  {
    forall k | 0 <= k < |s|
      ensures IsDigitOf(Lowered(s)[k], b)
    {
      DigitCase(s[k], b);
    }
    if s == [] {
    } else {
      ValueCase(s[..|s| - 1], b);
      LoweredParts(s, |s| - 1);
      DigitCase(s[|s| - 1], b);
    }
  }

  lemma {:induction false} DigitRunCase(t: string, b: Base, limit: nat)
    ensures DigitRun(Lowered(t), b, limit) == DigitRun(t, b, limit)
    decreases limit
  {
    if limit == 0 || t == [] {
    } else {
      DigitCase(t[0], b);
      LoweredParts(t, 1);
      DigitRunCase(t[1..], b, limit - 1);
    }
  }

  /** The digits read first and their value are the same, and so is what follows them. */
  lemma ReadCase(t: string, b: Base, limit: nat)
    ensures var j, low := DigitRun(t, b, limit), Lowered(t);
      && DigitRun(low, b, limit) == j && Value(low[..j], b) == Value(t[..j], b) && low[j..] == Lowered(t[j..])
      && (j < |t| ==> low[j + 1..] == Lowered(t[j + 1..]))
      && (j < |t| ==> (low[j] == ':' <==> t[j] == ':') && (low[j] == '.' <==> t[j] == '.'))
      && (t != [] ==> (low[0] == ':' <==> t[0] == ':') && (low[0] == '0' <==> t[0] == '0'))
  {
    var j := DigitRun(t, b, limit);
    DigitRunCase(t, b, limit);
    LoweredParts(t, j);
    ValueCase(t[..j], b);
    if j < |t| {
      LoweredParts(t, j + 1);
      DigitCase(t[j], b);
    }
    if t != [] {
      DigitCase(t[0], b);
    }
  }

  lemma {:induction false} QuadCase(t: string, acc: seq<Byte>)
    requires |acc| < 4
    ensures ScanQuad(Lowered(t), acc) == ScanQuad(t, acc)
    decreases 4 - |acc|
  {
    var j := DigitRun(t, 10, 3);
    ReadCase(t, 10, 3);
    if j == 0 || (j > 1 && t[0] == '0') || Value(t[..j], 10) > 255 {
    } else if |acc| < 3 && j < |t| && t[j] == '.' {
      QuadCase(t[j + 1..], acc + [Value(t[..j], 10)]);
    }
  }

  function Recased(d: Scanned): Scanned {
    match d
    case Reject => Reject
    case Done(groups, brk, None) => d
    case Done(groups, brk, Some(q)) => Done(groups, brk, Some(Lowered(q)))
  }

  lemma {:induction false} GroupsCase(t: string, brk: int, acc: seq<Group>)
    requires |acc| <= 7 && -1 <= brk < |acc|
    ensures ScanGroups(Lowered(t), brk, acc) == Recased(ScanGroups(t, brk, acc))
    decreases |t|
  {
    ReadCase(t, 16, 4);
    if t != [] && t[0] == ':' && brk < 0 {
      LoweredParts(t, 1);
      if |t| > 1 && |acc| < 7 {
        GroupsCase(t[1..], |acc|, acc + [0]);
      }
    } else {
      var j := DigitRun(t, 16, 4);
      if j > 0 {
        H16Value(t[..j]);
        if j < |t| && |acc| < 7 && t[j] == ':' {
          GroupsCase(t[j + 1..], brk, acc + [Value(t[..j], 16)]);
        }
      }
    }
  }

  lemma QuadBytesCase(d: Scanned)
    requires d.Done?
    ensures QuadBytes(Recased(d).quad) == QuadBytes(d.quad) && Words(Recased(d).quad) == Words(d.quad)
  {
    if d.quad.Some? {
      QuadCase(d.quad.value, []);
    }
  }

  lemma ScanTextCase(t: string)
    ensures ScanText(Lowered(t)) == Recased(ScanText(t))
  {
    if t != [] {
      DigitCase(t[0], 16);
      LoweredParts(t, 1);
    }
    if |t| > 1 {
      DigitCase(t[1], 16);
    }
    if t != [] && t[0] == ':' {
      if |t| > 1 && t[1] == ':' {
        GroupsCase(t[1..], -1, []);
      }
    } else {
      GroupsCase(t, -1, []);
    }
  }

  /** Writing the hex digits of a text in lower case changes nothing of what is stored for it. */
  lemma CaseDoesNotMatter(t: string)
    ensures Parse6(Lowered(t)) == Parse6(t)
  {
    ScanTextCase(t);
    if ScanText(t).Done? {
      QuadBytesCase(ScanText(t));
    }
  }

  // ------------------------------------------------------------- what is stored

  /** The value of a digit string, digit by digit. */
  lemma ValueSpelled(s: string, c: char, b: Base)
    requires AllDigits(s, b) && IsDigitOf(c, b)
    ensures AllDigits(s + [c], b) && Value(s + [c], b) == b * Value(s, b) + DigitValue(c)
    ensures Value("", b) == 0
  {
    assert (s + [c])[..|s|] == s;
  }

  lemma FourDigits(s: string)
    requires |s| == 4 && AllDigits(s, 16)
    ensures Value(s, 16) ==
      0x1000 * DigitValue(s[0]) + 0x100 * DigitValue(s[1]) + 0x10 * DigitValue(s[2]) + DigitValue(s[3])
  {
    var a, b, c := s[..3], s[..2], s[..1];
    assert a[..2] == b && b[..1] == c && c[..0] == [];
    assert Value(c, 16) == DigitValue(s[0]);
    assert Value(b, 16) == Value(c, 16) * 16 + DigitValue(s[1]);
    assert Value(a, 16) == Value(b, 16) * 16 + DigitValue(s[2]);
  }

  lemma GroupsAreStored(fs: seq<string>)
    requires |fs| == 8 && AllH16(fs)
    ensures Parse6(Join(':', fs)) == Some(GroupBytes(Groups(fs)))
  {
    var f := Form(fs, false, [], []);
    MeaningOfGroups(f);
    RenderOfGroups(f);
    ParseComplete(f);
    var bytes := GroupBytes(Groups(fs));
    assert bytes + [] + [] == bytes;
  }

  /** The value of group k. */
  function GroupAt(b: seq<Byte>, k: nat): (g: Group)
    requires |b| == 16 && k < 8
  {
    0x100 * (b[2 * k] as int) + b[2 * k + 1] as int
  }

  lemma GroupOfBytes(g: seq<Group>, rest: seq<Byte>, k: nat)
    requires k < |g| && 2 * |g| + |rest| == 16
    ensures GroupAt(GroupBytes(g) + rest, k) == g[k]
  {
    GroupBytesAt(g, k);
  }

  /** The groups before the elision, zeros, and the groups after it. */
  ghost function SlotsSpelled(f: Form): (g: seq<Group>)
    requires WellFormed(f)
    ensures |g| == 8 - Width(f.octets)
  {
    Groups(f.left) + ZeroGroups(8 - Width(f.octets) - |f.left| - |f.right|) + Groups(f.right)
  }

  lemma MeaningInSlots(f: Form)
    requires WellFormed(f)
    ensures Meaning(f) == GroupBytes(SlotsSpelled(f)) + Octets(f.octets)
  {
    var n := 8 - Width(f.octets) - |f.left| - |f.right|;
    BytesOfThree(Groups(f.left), ZeroGroups(n), Groups(f.right));
    GroupBytesZeros(n);
  }

  lemma SlotsAt(f: Form)
    requires WellFormed(f)
    ensures var g, n := SlotsSpelled(f), 8 - Width(f.octets) - |f.right|;
      && (forall i :: 0 <= i < |f.left| ==> g[i] == Value(f.left[i], 16))
      && (forall i :: |f.left| <= i < n ==> g[i] == 0)
      && (forall i :: 0 <= i < |f.right| ==> g[n + i] == Value(f.right[i], 16))
  {
  }

  /** A text of the grammar stores the groups before the elision in front, those after it behind, zeros in
      between, and the octets of a dotted end last. */
  lemma FormStored(f: Form)
    requires WellFormed(f)
    ensures Parse6(Render(f)).Some?
    ensures var b, n := Parse6(Render(f)).value, 8 - Width(f.octets) - |f.right|;
      && (forall i :: 0 <= i < |f.left| ==> GroupAt(b, i) == Value(f.left[i], 16))
      && (forall i :: |f.left| <= i < n ==> GroupAt(b, i) == 0)
      && (forall i :: 0 <= i < |f.right| ==> GroupAt(b, n + i) == Value(f.right[i], 16))
      && (forall i :: 0 <= i < |f.octets| ==> AllDigits(f.octets[i], 10) && b[12 + i] == Value(f.octets[i], 10))
  {
    ParseComplete(f);
    MeaningInSlots(f);
    var g, o := SlotsSpelled(f), Octets(f.octets);
    forall k | 0 <= k < |g|
      ensures GroupAt(Meaning(f), k) == g[k]
    {
      GroupOfBytes(g, o, k);
    }
    SlotsAt(f);
    assert forall i :: 0 <= i < |f.octets| ==> Meaning(f)[12 + i] == o[i];
  }

  /** Of eight groups of four digits each pair of digits is a byte, in the order of the text. */
  lemma DigitsAreBytes(fs: seq<string>)
    requires |fs| == 8 && forall k :: 0 <= k < 8 ==> |fs[k]| == 4 && forall i :: 0 <= i < 4 ==> IsHexDigit(fs[k][i])
    ensures Parse6(Join(':', fs)).Some?
    ensures var bytes := Parse6(Join(':', fs)).value;
      forall k :: 0 <= k < 8 ==>
        && bytes[2 * k] == 0x10 * DigitValue(fs[k][0]) + DigitValue(fs[k][1])
        && bytes[2 * k + 1] == 0x10 * DigitValue(fs[k][2]) + DigitValue(fs[k][3])
  {
    assert AllH16(fs);
    var bytes := GroupBytes(Groups(fs));
    GroupsAreStored(fs);
    forall k | 0 <= k < 8
      ensures bytes[2 * k] == 0x10 * DigitValue(fs[k][0]) + DigitValue(fs[k][1])
      ensures bytes[2 * k + 1] == 0x10 * DigitValue(fs[k][2]) + DigitValue(fs[k][3])
    {
      FourDigits(fs[k]);
      GroupBytesAt(Groups(fs), k);
    }
  }

  // ------------------------------------------------------------- what is printed

  /** A number below 1000 in decimal. */
  function Decimal(n: nat): string
    requires n < 1000
  {
    if n < 10 then [DigitChar(n)]
    else if n < 100 then [DigitChar(n / 10), DigitChar(n % 10)]
    else [DigitChar(n / 100), DigitChar(n / 10 % 10), DigitChar(n % 10)]
  }

  /** A group in hex. */
  function Hex(n: Group): string {
    if n < 0x10 then [DigitChar(n)]
    else if n < 0x100 then [DigitChar(n / 0x10), DigitChar(n % 0x10)]
    else if n < 0x1000 then [DigitChar(n / 0x100), DigitChar(n / 0x10 % 0x10), DigitChar(n % 0x10)]
    else [DigitChar(n / 0x1000), DigitChar(n / 0x100 % 0x10), DigitChar(n / 0x10 % 0x10), DigitChar(n % 0x10)]
  }

  lemma DecimalStep(n: nat)
    requires 10 <= n < 1000
    ensures Decimal(n) == Decimal(n / 10) + [DigitChar(n % 10)]
  {
  }

  lemma {:induction false} DecimalSpelled(n: nat)
    requires n < 1000
    ensures Numeral(n, 10) == Decimal(n)
    decreases n
  {
    if n < 10 {
    } else {
      DecimalStep(n);
      DecimalSpelled(n / 10);
    }
  }

  lemma HexStep(n: Group)
    requires 0x10 <= n
    ensures Hex(n) == Hex(n / 0x10) + [DigitChar(n % 0x10)]
  {
  }

  lemma {:induction false} HexSpelled(n: Group)
    ensures Numeral(n, 16) == Hex(n)
    decreases n
  {
    if n < 0x10 {
    } else {
      HexStep(n);
      HexSpelled(n / 0x10);
    }
  }

  /** A number in decimal or hex, digit by digit. */
  lemma NumeralSpelled(n: nat, b: Base)
    ensures Numeral(n, b) == (if n < b then "" else Numeral(n / b, b)) + [DigitChar(n % b)]
  {
    Division(n, b);
  }

  lemma JoinOfTwo(fs: seq<string>, x: string, y: string)
    requires |fs| == 2 && fs[0] == x && fs[1] == y
    ensures Join('.', fs) == x + "." + y
  {
    assert fs[1..] == [y] && [y][1..] == [];
    assert Tail('.', [y]) == "." + y;
    assert x + ("." + y) == x + "." + y;
  }

  lemma JoinOfFour(fs: seq<string>, w: string, x: string, y: string, z: string)
    requires |fs| == 4 && fs[0] == w && fs[1] == x && fs[2] == y && fs[3] == z
    ensures Join('.', fs) == w + "." + x + "." + y + "." + z
  {
    var a, b := fs[..2], fs[2..];
    assert fs == a + b;
    JoinSplit('.', a, b);
    JoinOfTwo(a, w, x);
    JoinOfTwo(b, y, z);
    var l, r := w + "." + x, y + "." + z;
    assert l + ['.'] + (y + "." + z) == l + "." + y + "." + z;
  }

  /** Four bytes in decimal, in their order, with dots between. */
  lemma Text4Spelled(b: seq<Byte>)
    requires |b| == 4
    ensures Text4(b) == Decimal(b[0]) + "." + Decimal(b[1]) + "." + Decimal(b[2]) + "." + Decimal(b[3])
  {
    var o := OctetTexts(b);
    DecimalSpelled(b[0]);
    DecimalSpelled(b[1]);
    DecimalSpelled(b[2]);
    DecimalSpelled(b[3]);
    JoinOfFour(o, Decimal(b[0]), Decimal(b[1]), Decimal(b[2]), Decimal(b[3]));
  }

  lemma DotInText4(b: seq<Byte>)
    requires |b| == 4
    ensures '.' in Text4(b)
  {
    Text4Spelled(b);
    var w := Decimal(b[0]);
    assert Text4(b)[|w|] == '.';
  }

  /** The bytes 0 to 9 are 0, and 10 and 11 are 255. */
  predicate MappedPrefix(b: seq<Byte>)
    requires |b| == 16
  {
    && b[0] == 0 && b[1] == 0 && b[2] == 0 && b[3] == 0 && b[4] == 0 && b[5] == 0
    && b[6] == 0 && b[7] == 0 && b[8] == 0 && b[9] == 0 && b[10] == 255 && b[11] == 255
  }

  /** An address that starts so is printed as "::ffff:" and the last four bytes in decimal. */
  lemma MappedSpelled(b: seq<Byte>)
    requires |b| == 16 && MappedPrefix(b)
    ensures Text6(b) == "::ffff:" + Text4(b[12..])
  {
    var fs, dotted := Fields(b), Text4(b[12..]);
    MappedChoice(b);
    MappedFields(b);
    assert fs[..0] == [] && fs[5..] == ["ffff", dotted];
    assert ["ffff", dotted][1..] == [dotted] && Tail(':', [dotted]) == ":" + dotted;
    assert "" + "::" + ("ffff" + (":" + dotted)) == "::ffff:" + dotted;
  }

  lemma CutFree(text: string, x: nat, y: nat, c: char)
    requires c !in text && c != ':' && x <= |text| && y <= |text|
    ensures c !in text[..x] + "::" + text[y..]
  {
  }

  /** What is in no field is not in the text. */
  lemma FreeOf(fs: seq<string>, c: char)
    requires c != ':' && forall k :: 0 <= k < |fs| ==> c !in fs[k]
    ensures c !in Compressed(fs)
  {
    TailFree(':', fs, c);
    var (g, w) := Choice(fs, |fs|);
    if w > 2 {
      CutRun(fs, g);
      CutFree(Join(':', fs), At(fs, g), At(fs, g) + w, c);
    }
  }

  /** Hex digits in lower case contain neither a dot nor an upper-case letter. */
  lemma HexFree(n: Group, c: char)
    requires c == '.' || 'A' <= c <= 'Z'
    ensures c !in Hex(n)
  {
    assert forall d :: 0 <= d < 16 ==> DigitChar(d) != c;
  }

  /** Its groups in hex. */
  function HexTexts(b: seq<Byte>): (fs: seq<string>)
    requires |b| == 16
    ensures |fs| == 8 && forall k :: 0 <= k < 8 ==> fs[k] == Hex(GroupAt(b, k))
  {
    seq(8, k requires 0 <= k < 8 => Hex(GroupAt(b, k)))
  }

  lemma FieldsSpelled(b: seq<Byte>)
    requires |b| == 16 && !Mapped(b)
    ensures Fields(b) == HexTexts(b)
    ensures forall k :: 0 <= k < 8 ==> (Fields(b)[k] == "0" <==> GroupAt(b, k) == 0)
  {
    GroupTextsWellFormed(b);
    forall k | 0 <= k < 8
      ensures Fields(b)[k] == Hex(GroupAt(b, k)) && (Fields(b)[k] == "0" <==> GroupAt(b, k) == 0)
    {
      GroupTextsAt(b, k);
      HexSpelled(GroupAt(b, k));
      assert Word(b, k) == GroupAt(b, k);
    }
  }

  lemma FieldsFree(b: seq<Byte>, c: char)
    requires |b| == 16 && !MappedPrefix(b) && (c == '.' || 'A' <= c <= 'Z')
    ensures c !in Text6(b)
  {
    FieldsSpelled(b);
    forall k | 0 <= k < 8
      ensures c !in Fields(b)[k]
    {
      HexFree(GroupAt(b, k), c);
    }
    FreeOf(Fields(b), c);
  }

  lemma Behind(a: string, b: string, c: char)
    requires c in b
    ensures c in a + b
  {
    var k :| 0 <= k < |b| && b[k] == c;
    assert (a + b)[|a| + k] == c;
  }

  lemma DotInMapped(b: seq<Byte>)
    requires |b| == 16 && MappedPrefix(b)
    ensures '.' in Text6(b)
  {
    var prefix, dotted := "::ffff:", Text4(b[12..]);
    MappedSpelled(b);
    DotInText4(b[12..]);
    Behind(prefix, dotted, '.');
  }

  /** An address is printed with a dotted end exactly if its first twelve bytes say so. */
  lemma DottedExactly(b: seq<Byte>)
    requires |b| == 16
    ensures '.' in Text6(b) <==> MappedPrefix(b)
  {
    if MappedPrefix(b) {
      DotInMapped(b);
    } else {
      FieldsFree(b, '.');
    }
  }

  lemma DecimalFree(n: nat, c: char)
    requires n < 1000 && 'A' <= c <= 'Z'
    ensures c !in Decimal(n)
  {
    assert forall d :: 0 <= d < 10 ==> DigitChar(d) != c;
  }

  lemma Text4Free(b: seq<Byte>, c: char)
    requires |b| == 4 && 'A' <= c <= 'Z'
    ensures c !in Text4(b)
  {
    forall k | 0 <= k < 4
      ensures c !in OctetTexts(b)[k]
    {
      DecimalSpelled(b[k]);
      DecimalFree(b[k], c);
    }
    TailFree('.', OctetTexts(b), c);
  }

  /** Nothing is printed in upper case. */
  lemma NoUpperCase(b: seq<Byte>, c: char)
    requires |b| == 16 && 'A' <= c <= 'Z'
    ensures c !in Text6(b)
  {
    if MappedPrefix(b) {
      MappedSpelled(b);
      Text4Free(b[12..], c);
      var prefix := "::ffff:";
      assert c !in prefix;
    } else {
      FieldsFree(b, c);
    }
  }

  // ------------------------------------------------------------- which groups are elided

  /** The groups from g to g + k are zero, and those next to them are not. */
  predicate ZeroRun(b: seq<Byte>, g: nat, k: nat)
    requires |b| == 16
  {
    && 0 < k && g + k <= 8 && (forall i :: g <= i < g + k ==> GroupAt(b, i) == 0)
    && (g > 0 ==> GroupAt(b, g - 1) != 0) && (g + k < 8 ==> GroupAt(b, g + k) != 0)
  }

  /** Twice the length, and one more for a run inside. */
  function Rank(g: nat, k: nat): nat {
    2 * k + if 0 < g && g + k < 8 then 1 else 0
  }

  /** The first run of the highest rank, if it is worth it. */
  predicate ElidedRun(b: seq<Byte>, g: nat, k: nat)
    requires |b| == 16
  {
    && ZeroRun(b, g, k) && Rank(g, k) > 2
    && forall h: nat, j: nat :: h < 8 && j <= 8 && ZeroRun(b, h, j) ==>
         Rank(h, j) < Rank(g, k) || (Rank(h, j) == Rank(g, k) && g <= h)
  }

  lemma RunIsZeroRun(b: seq<Byte>, g: nat, k: nat)
    requires |b| == 16 && !Mapped(b) && ZeroRun(b, g, k)
    ensures Run(Fields(b), g) == k
  {
    FieldsSpelled(b);
    var fs, j := Fields(b), Run(Fields(b), g);
    assert g + j < 8 ==> GroupAt(b, g + j) != 0;
    assert g + k < 8 ==> fs[g + k] != "0";
  }

  /** No run ranks before the longest one. */
  lemma LongestRanks(fs: seq<string>, g: nat, h: nat)
    requires |fs| == 8 && g < 8 && h < 8 && LongestRun(fs, g) && Run(fs, h) > 0
    ensures var k, j := Run(fs, g), Run(fs, h); Rank(h, j) < Rank(g, k) || (Rank(h, j) == Rank(g, k) && g <= h)
  {
    assert Run(fs, h) <= Run(fs, g);
  }

  lemma LongestIsZeroRun(b: seq<Byte>, g: nat)
    requires |b| == 16 && !Mapped(b) && g < 8 && Choice(Fields(b), 8).1 > 2 && g == Choice(Fields(b), 8).0
    ensures LongestRun(Fields(b), g) && ZeroRun(b, g, Run(Fields(b), g)) && Rank(g, Run(Fields(b), g)) > 2
  {
    FieldsSpelled(b);
    ChoiceIsLongest(Fields(b), g);
    WeightBounds(Fields(b), g);
  }

  lemma LongestIsElided(b: seq<Byte>, g: nat)
    requires |b| == 16 && !Mapped(b) && g < 8 && Choice(Fields(b), 8).1 > 2 && g == Choice(Fields(b), 8).0
    ensures ElidedRun(b, g, Run(Fields(b), g))
  {
    var k := Run(Fields(b), g);
    LongestIsZeroRun(b, g);
    forall h: nat, j: nat | h < 8 && j <= 8 && ZeroRun(b, h, j)
      ensures Rank(h, j) < Rank(g, k) || (Rank(h, j) == Rank(g, k) && g <= h)
    {
      RunIsZeroRun(b, h, j);
      LongestRanks(Fields(b), g, h);
    }
  }

  lemma OneElidedRun(b: seq<Byte>, g: nat, k: nat, h: nat, j: nat)
    requires |b| == 16 && ElidedRun(b, g, k) && ElidedRun(b, h, j)
    ensures g == h && k == j
  {
    assert ZeroRun(b, g, k) && ZeroRun(b, h, j);
  }

  /** Every address without a dotted end is printed as its groups in hex, colons between, with "::" for
      the first zero run of the highest rank, if there is one above 2. */
  lemma Text6Spelled(b: seq<Byte>)
    requires |b| == 16 && !MappedPrefix(b)
    ensures forall g: nat, k: nat :: g < 8 && k <= 8 && ElidedRun(b, g, k) ==>
      Text6(b) == Join(':', HexTexts(b)[..g]) + "::" + Join(':', HexTexts(b)[g + k..])
    ensures (forall g: nat, k: nat :: g < 8 && k <= 8 ==> !ElidedRun(b, g, k)) ==> Text6(b) == Join(':', HexTexts(b))
  {
    var fs := Fields(b);
    var (c, w) := Choice(fs, 8);
    FieldsSpelled(b);
    if w > 2 {
      LongestIsElided(b, c);
    }
    forall g: nat, k: nat | g < 8 && k <= 8 && ElidedRun(b, g, k)
      ensures w > 2 && g == c && k == Run(fs, c)
    {
      RunIsZeroRun(b, g, k);
      NoChoice(fs);
      assert Rank(g, k) > 2;
      if w > 2 {
        OneElidedRun(b, g, k, c, Run(fs, c));
      }
    }
  }
}
