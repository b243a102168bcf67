/** The printer and the parser undo each other. */
module RoundTrip {
  import opened Text
  import opened Grammar
  import opened Scan
  import opened Compress
  import opened N = InetNtop
  import P = InetPton

  // ---------------------------------------------------------------- IPv4

  /** Every four bytes survive printing and parsing; the text is an IPv4address of at most 15 characters. */
  lemma PrintThenParse4(b: seq<Byte>)
    requires |b| == 4
    ensures IPv4address(Text4(b)) && |Text4(b)| <= 15
    ensures forall c :: P.Denotes4(Text4(b), c) ==> c == b
  {
    OctetTextsWellFormed(b);
    Text4Facts(b);
    assert |OctetTexts(b)| == 4 && Text4(b) == Join('.', OctetTexts(b));
  }

  /** Every accepted text is the one the printer gives for its bytes. */
  lemma ParseThenPrint4(text: string, b: seq<Byte>)
    requires IPv4address(text) && P.Denotes4(text, b)
    ensures |b| == 4 && Text4(b) == text
  {
    var o :| |o| == 4 && AllOctets(o) && text == Join('.', o);
    assert b == Octets(o);
    forall k | 0 <= k < 4
      ensures OctetTexts(b)[k] == o[k]
    {
      DecOctetCanonical(o[k]);
      NumeralOfValue(o[k]);
    }
    assert OctetTexts(b) == o;
  }

  // ---------------------------------------------------------------- IPv6

  /** The printed text, taken apart. */
  ghost function FormOf(b: seq<Byte>): Form
    requires |b| == 16
  {
    if Mapped(b) then Form([], true, ["ffff"], OctetTexts(b[12..]))
    else
      var fs := GroupTexts(b);
      var g := Choice(fs, 8).0;
      if Choice(fs, 8).1 > 2 then Form(fs[..g], true, fs[g + Run(fs, g)..], []) else Form(fs, false, [], [])
  }

  /** Of five leading zero groups before a nonzero one, with one field more, those five are elided. */
  lemma LeadingFive(fs: seq<string>)
    requires |fs| == 7 && fs[5] != "0" && forall k :: 0 <= k < 5 ==> fs[k] == "0"
    ensures Choice(fs, 7) == (0, 10) && Run(fs, 0) == 5
  {
    RunStep(fs, 0);
    RunStep(fs, 1);
    RunStep(fs, 2);
    RunStep(fs, 3);
    RunStep(fs, 4);
    assert fs[5..][0] == fs[5] && Run(fs, 5) == 0;
    assert Weight(fs, 0) == 10;
    ChoiceIsHeaviest(fs);
    var g := Choice(fs, 7).0;
    ChoiceIsLongest(fs, g);
    assert LongestRun(fs, g) && Run(fs, 0) <= Run(fs, g) && g <= 2;
  }

  /** In a mapped address the five leading zero groups are what is elided. */
  lemma MappedChoice(b: seq<Byte>)
    requires |b| == 16 && Mapped(b)
    ensures var fs := Fields(b); |fs| == 7 && Choice(fs, 7) == (0, 10) && Run(fs, 0) == 5
  {
    MappedFields(b);
    LeadingFive(Fields(b));
  }

  lemma MappedBytes(b: seq<Byte>)
    requires |b| == 16 && Mapped(b)
    ensures GroupBytes(Groups([])) + ZeroBytes(10) + [255, 255] + b[12..] == b
  {
    assert b == b[..12] + b[12..];
    assert b[..12] == [] + ZeroBytes(10) + [255, 255];
  }

  lemma FfffGroup()
    ensures AllH16(["ffff"]) && GroupBytes(Groups(["ffff"])) == [255, 255]
  {
    assert Numeral(15, 16) == "f";
    assert Numeral(255, 16) == "ff";
    assert Numeral(4095, 16) == "fff";
    assert Numeral(65535, 16) == "ffff";
    GroupTextWellFormed(65535);
    assert Groups(["ffff"]) == [65535];
    assert GroupBytes([65535]) == [65535 / 256, 65535 % 256] + GroupBytes([]);
  }

  lemma MappedPrint(b: seq<Byte>)
    requires |b| == 16 && Mapped(b)
    ensures WellFormed(FormOf(b)) && Render(FormOf(b)) == Text6(b) && Meaning(FormOf(b)) == b
  {
    var fs, f := Fields(b), FormOf(b);
    var o := OctetTexts(b[12..]);
    MappedChoice(b);
    MappedFields(b);
    OctetTextsWellFormed(b[12..]);
    assert o != [] && Dotted(o) == [Text4(b[12..])];
    assert fs[..0] == [] && fs[5..] == ["ffff"] + Dotted(o);
    FfffGroup();
    MappedBytes(b);
  }

  lemma ZerosInside(gs: seq<Group>, g: nat, k: nat)
    requires g + k <= |gs| && forall i :: g <= i < g + k ==> gs[i] == 0
    ensures gs == gs[..g] + ZeroGroups(k) + gs[g + k..]
  {
  }

  lemma BytesOfThree(a: seq<Group>, b: seq<Group>, c: seq<Group>)
    ensures GroupBytes(a + b + c) == GroupBytes(a) + GroupBytes(b) + GroupBytes(c)
  {
    GroupBytesSplit(a + b, c);
    GroupBytesSplit(a, b);
  }

  lemma ZerosAround(gs: seq<Group>, g: nat, k: nat)
    requires g + k <= |gs| && forall i :: g <= i < g + k ==> gs[i] == 0
    ensures GroupBytes(gs[..g]) + ZeroBytes(2 * k) + GroupBytes(gs[g + k..]) == GroupBytes(gs)
  {
    ZerosInside(gs, g, k);
    BytesOfThree(gs[..g], ZeroGroups(k), gs[g + k..]);
    GroupBytesZeros(k);
  }

  lemma GroupsOfParts(fs: seq<string>, i: nat)
    requires AllH16(fs) && i <= |fs|
    ensures AllH16(fs[..i]) && Groups(fs[..i]) == Groups(fs)[..i]
    ensures AllH16(fs[i..]) && Groups(fs[i..]) == Groups(fs)[i..]
  {
  }

  lemma ValueOfZero()
    ensures Value("0", 16) == 0
  {
    assert "0"[..0] == "";
  }

  /** Groups elided are zero, so what is left around them says it all. */
  lemma ElidedBytes(fs: seq<string>, g: nat, k: nat)
    requires g + k <= |fs| && AllH16(fs) && forall i :: g <= i < g + k ==> fs[i] == "0"
    ensures AllH16(fs[..g]) && AllH16(fs[g + k..])
    ensures GroupBytes(Groups(fs[..g])) + ZeroBytes(2 * k) + GroupBytes(Groups(fs[g + k..])) == GroupBytes(Groups(fs))
  {
    GroupsOfParts(fs, g);
    GroupsOfParts(fs, g + k);
    ValueOfZero();
    ZerosAround(Groups(fs), g, k);
  }

  /** Without a dotted end only the groups count. */
  lemma MeaningOfGroups(f: Form)
    requires WellFormed(f) && f.octets == []
    ensures Meaning(f) ==
      GroupBytes(Groups(f.left)) + ZeroBytes(16 - 2 * (|f.left| + |f.right|)) + GroupBytes(Groups(f.right))
  {
    var bytes := GroupBytes(Groups(f.left)) + ZeroBytes(16 - 2 * (|f.left| + |f.right|)) + GroupBytes(Groups(f.right));
    assert bytes + [] == bytes;
  }

  lemma RenderOfGroups(f: Form)
    requires f.octets == []
    ensures Render(f) == if f.elided then Join(':', f.left) + "::" + Join(':', f.right) else Join(':', f.left)
  {
    assert f.right + Dotted(f.octets) == f.right && f.left + Dotted(f.octets) == f.left;
  }

  lemma FormOfParts(left: seq<string>, k: nat, right: seq<string>)
    requires AllH16(left) && AllH16(right) && k > 0 && |left| + k + |right| == 8
    ensures var f := Form(left, true, right, []);
      && WellFormed(f) && Meaning(f) == GroupBytes(Groups(left)) + ZeroBytes(2 * k) + GroupBytes(Groups(right))
      && Render(f) == Join(':', left) + "::" + Join(':', right)
  {
    var f := Form(left, true, right, []);
    MeaningOfGroups(f);
    RenderOfGroups(f);
  }

  /** Groups with a run of zeros elided are a form for all of them. */
  lemma ElidedForm(fs: seq<string>, g: nat, k: nat)
    requires |fs| == 8 && g + k <= 8 && k > 0 && AllH16(fs) && forall i :: g <= i < g + k ==> fs[i] == "0"
    ensures var f := Form(fs[..g], true, fs[g + k..], []);
      && WellFormed(f) && Meaning(f) == GroupBytes(Groups(fs))
      && Render(f) == Join(':', fs[..g]) + "::" + Join(':', fs[g + k..])
  {
    ElidedBytes(fs, g, k);
    FormOfParts(fs[..g], k, fs[g + k..]);
  }

  lemma PlainElided(b: seq<Byte>)
    requires |b| == 16 && !Mapped(b) && Choice(GroupTexts(b), 8).1 > 2
    ensures WellFormed(FormOf(b)) && Render(FormOf(b)) == Text6(b) && Meaning(FormOf(b)) == b
  {
    var fs := GroupTexts(b);
    var g := Choice(fs, 8).0;
    assert Weight(fs, g) > 2;
    GroupTextsWellFormed(b);
    ElidedForm(fs, g, Run(fs, g));
  }

  lemma PlainFull(b: seq<Byte>)
    requires |b| == 16 && !Mapped(b) && Choice(GroupTexts(b), 8).1 <= 2
    ensures WellFormed(FormOf(b)) && Render(FormOf(b)) == Text6(b) && Meaning(FormOf(b)) == b
  {
    var f := FormOf(b);
    GroupTextsWellFormed(b);
    MeaningOfGroups(f);
    RenderOfGroups(f);
    assert GroupBytes(Groups(f.right)) == [] && b + [] + [] == b;
  }

  lemma PrintedForm(b: seq<Byte>)
    requires |b| == 16
    ensures WellFormed(FormOf(b)) && Render(FormOf(b)) == Text6(b) && Meaning(FormOf(b)) == b
  {
    if Mapped(b) {
      MappedPrint(b);
    } else if Choice(GroupTexts(b), 8).1 > 2 {
      PlainElided(b);
    } else {
      PlainFull(b);
    }
  }

  /** What the parser makes of a printed text. */
  lemma PrintThenScan6(b: seq<Byte>)
    requires |b| == 16
    ensures Parse6(Text6(b)) == Some(b)
  {
    PrintedForm(b);
    ParseComplete(FormOf(b));
  }

  /** Every printed text is in the grammar. */
  lemma PrintedIsAddress(b: seq<Byte>)
    requires |b| == 16
    ensures IPv6address(Text6(b))
  {
    PrintedForm(b);
    GrammarIsForms(Text6(b));
  }

  /** Every sixteen bytes, IPv4-mapped or not, survive printing and parsing: whatever bytes the text
      denotes are the ones printed. */
  lemma PrintThenParse6(b: seq<Byte>)
    requires |b| == 16
    ensures forall c :: P.Denotes6(Text6(b), c) ==> c == b
  {
    PrintedForm(b);
  }

  /** Different addresses print differently. */
  lemma PrintIsInjective(b: seq<Byte>, c: seq<Byte>)
    requires |b| == 16 && |c| == 16 && Text6(b) == Text6(c)
    ensures b == c
  {
    PrintThenScan6(b);
    PrintThenScan6(c);
  }

  // ---------------------------------------------------------------- texts RFC 5952 forbids

  const EQUAL_RUNS: seq<Group> := [0, 0, 1, 0, 0, 1, 1, 1]

  const SINGLE_ZERO: seq<Group> := [1, 0, 1, 1, 1, 1, 1, 1]

  lemma OneDigit()
    ensures Numeral(0, 16) == "0" && Numeral(1, 16) == "1"
  {
  }

  /** The fields of an address whose groups are all 0 or 1. */
  lemma BinaryFields(g: seq<Group>)
    requires |g| == 8 && forall k :: 0 <= k < 8 ==> g[k] <= 1
    ensures var fs := Fields(GroupBytes(g));
      |fs| == 8 && forall k :: 0 <= k < 8 ==> fs[k] == if g[k] == 0 then "0" else "1"
  {
    var b := GroupBytes(g);
    OneDigit();
    GroupBytesAt(g, 5);
    assert !Mapped(b);
    forall k | 0 <= k < 8
      ensures Fields(b)[k] == if g[k] == 0 then "0" else "1"
    {
      GroupTextsAt(b, k);
      GroupBytesAt(g, k);
      assert Word(b, k) == g[k];
    }
  }

  lemma TwoRunsFields()
    ensures var fs := Fields(GroupBytes(EQUAL_RUNS));
      |fs| == 8 && forall g :: 0 <= g < 8 ==> fs[g] == if g < 2 || 3 <= g < 5 then "0" else "1"
  {
    BinaryFields(EQUAL_RUNS);
  }

  lemma ElidedBetween(fs: seq<string>, a: seq<string>, zeros: seq<string>, b: seq<string>)
    requires fs == a + zeros + b && |a| < |fs| && Run(fs, |a|) == |zeros|
    requires Choice(fs, |fs|).0 == |a| && Choice(fs, |fs|).1 > 2
    ensures Compressed(fs) == Join(':', a) + "::" + Join(':', b)
  {
    assert fs[..|a|] == a && fs[|a| + |zeros|..] == b;
  }

  lemma JoinOfThree(fs: seq<string>, x: string, y: string, z: string)
    requires |fs| == 3 && fs[0] == x && fs[1] == y && fs[2] == z
    ensures Join(':', fs) == x + ":" + y + ":" + z
  {
    assert fs[1..][0] == y && fs[1..][1..] == [z];
    assert Tail(':', [z]) == ":" + z;
    assert Tail(':', fs[1..]) == ":" + y + (":" + z);
    assert x + (":" + y + (":" + z)) == x + ":" + y + ":" + z;
  }

  lemma TwoRunsText(fs: seq<string>)
    requires |fs| == 8 && (forall g :: 0 <= g < 8 ==> fs[g] == if g < 2 || 3 <= g < 5 then "0" else "1")
    requires Choice(fs, 8).0 == 3 && Choice(fs, 8).1 > 2 && Run(fs, 3) == 2
    ensures Compressed(fs) == "0:0:1::1:1:1"
  {
    var a, zeros, b := fs[..3], fs[3..5], fs[5..];
    assert fs == a + zeros + b;
    ElidedBetween(fs, a, zeros, b);
    JoinOfThree(a, "0", "0", "1");
    JoinOfThree(b, "1", "1", "1");
  }

  lemma NoRun(fs: seq<string>, g: nat)
    requires g < |fs| && fs[g] != "0"
    ensures Run(fs, g) == 0
  {
    assert fs[g..][0] == fs[g];
  }

  lemma RunsOfTwo(fs: seq<string>)
    requires |fs| == 8 && forall g :: 0 <= g < 8 ==> (fs[g] == "0" <==> g < 2 || 3 <= g < 5)
    ensures Run(fs, 3) == 2 && Choice(fs, 8).1 > 2 && Choice(fs, 8).0 == 3
  {
    NoRun(fs, 2);
    NoRun(fs, 5);
    NoRun(fs, 6);
    NoRun(fs, 7);
    RunStep(fs, 0);
    RunStep(fs, 1);
    RunStep(fs, 3);
    RunStep(fs, 4);
    ChoiceIsHeaviest(fs);
    assert Weight(fs, 3) == 5;
    ChoiceIsLongest(fs, 3);
  }

  /** Of two runs of two zero groups the second is elided, against section 4.2.3: the text would have
      to be "::1:0:0:1:1:1". */
  lemma SecondRunElided()
    ensures Text6(GroupBytes(EQUAL_RUNS)) == "0:0:1::1:1:1"
  {
    TwoRunsFields();
    var fs := Fields(GroupBytes(EQUAL_RUNS));
    RunsOfTwo(fs);
    TwoRunsText(fs);
  }

  lemma SingleZeroFields()
    ensures var fs := Fields(GroupBytes(SINGLE_ZERO));
      |fs| == 8 && forall g :: 0 <= g < 8 ==> fs[g] == if g == 1 then "0" else "1"
  {
    BinaryFields(SINGLE_ZERO);
  }

  lemma SingleZeroText(fs: seq<string>)
    requires |fs| == 8 && (forall g :: 0 <= g < 8 ==> fs[g] == if g == 1 then "0" else "1")
    requires Choice(fs, 8).0 == 1 && Choice(fs, 8).1 > 2 && Run(fs, 1) == 1
    ensures Compressed(fs) == "1::1:1:1:1:1:1"
  {
    var a, zeros, b, c := fs[..1], fs[1..2], fs[2..5], fs[5..];
    assert fs == a + zeros + (b + c);
    ElidedBetween(fs, a, zeros, b + c);
    assert a == ["1"] && Join(':', ["1"]) == "1";
    JoinSplit(':', b, c);
    JoinOfThree(b, "1", "1", "1");
    JoinOfThree(c, "1", "1", "1");
  }

  lemma RunOfOne(fs: seq<string>)
    requires |fs| == 8 && forall g :: 0 <= g < 8 ==> (fs[g] == "0" <==> g == 1)
    ensures Run(fs, 1) == 1 && Choice(fs, 8).1 > 2 && Choice(fs, 8).0 == 1
  {
    forall g | 0 <= g < 8 && g != 1
      ensures Run(fs, g) == 0
    {
      NoRun(fs, g);
    }
    RunStep(fs, 1);
    ChoiceIsHeaviest(fs);
    assert Weight(fs, 1) == 3;
    ChoiceIsLongest(fs, 1);
  }

  /** A single zero group inside is elided, against section 4.2.2. */
  lemma SingleZeroElided()
    ensures Text6(GroupBytes(SINGLE_ZERO)) == "1::1:1:1:1:1:1"
  {
    SingleZeroFields();
    var fs := Fields(GroupBytes(SINGLE_ZERO));
    RunOfOne(fs);
    SingleZeroText(fs);
  }

  // ---------------------------------------------------------------- lengths

  lemma CutIsPlain(text: string, x: nat, y: nat)
    requires Plain(text) && x + 2 <= y <= |text|
    ensures var cut := text[..x] + "::" + text[y..]; Plain(cut) && |cut| <= |text|
  {
    assert Plain("::") && Plain(text[..x]) && Plain(text[y..]);
  }

  lemma CompressedFits(fs: seq<string>)
    requires Plain(Join(':', fs))
    ensures Plain(Compressed(fs)) && |Compressed(fs)| <= |Join(':', fs)|
  {
    var (g, w) := Choice(fs, |fs|);
    if w > 2 {
      CutRun(fs, g);
      CutIsPlain(Join(':', fs), At(fs, g), At(fs, g) + w);
    }
  }

  /** Every printed IPv6 text has at most 39 characters. */
  lemma TextFits(b: seq<Byte>)
    requires |b| == 16
    ensures |Text6(b)| <= 39
  {
    FieldsLegible(b);
    CompressedFits(Fields(b));
  }

  /** Every printed IPv6 text consists of hex digits, dots and colons. */
  lemma TextIsPlain(b: seq<Byte>)
    requires |b| == 16
    ensures Plain(Text6(b))
  {
    FieldsLegible(b);
    CompressedFits(Fields(b));
  }
}
