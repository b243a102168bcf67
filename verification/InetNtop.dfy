/** inet_ntop: prints all groups, then elides a run of zeros in the character buffer. */
module InetNtop {
  import opened Text
  import opened Grammar
  import opened Compress

  // ------------------------------------------------------------- the text printed

  /** The octets of a dotted quad, "%d" each. */
  function OctetTexts(b: seq<Byte>): (o: seq<string>)
    ensures |o| == |b|
  {
    seq(|b|, k requires 0 <= k < |b| => Numeral(b[k], 10))
  }

  function Text4(b: seq<Byte>): string {
    Join('.', OctetTexts(b))
  }

  /** The group that bytes 2k and 2k+1 make. */
  function Word(b: seq<Byte>, k: nat): (g: Group)
    requires 2 * k + 1 < |b|
    ensures g / 256 == b[2 * k] && g % 256 == b[2 * k + 1]
    ensures g == 0 <==> b[2 * k] == 0 && b[2 * k + 1] == 0
  {
    256 * (b[2 * k] as int) + b[2 * k + 1] as int
  }

  /** The groups of an even number of bytes, "%x" each. */
  function GroupTexts(b: seq<Byte>): (h: seq<string>)
    requires |b| % 2 == 0
    ensures |h| == |b| / 2
  {
    if b == [] then [] else [Numeral(Word(b, 0), 16)] + GroupTexts(b[2..])
  }

  lemma {:induction false} GroupTextsAt(b: seq<Byte>, k: nat)
    requires |b| % 2 == 0 && 2 * k < |b|
    ensures GroupTexts(b)[k] == Numeral(Word(b, k), 16)
  {
    if k == 0 {
    } else {
      GroupTextsAt(b[2..], k - 1);
    }
  }

  /** The prefix of an IPv4-mapped address (section 2.5.5.2 of RFC 4291). */
  predicate Mapped(b: seq<Byte>)
    requires |b| == 16
  {
    (forall k :: 0 <= k < 10 ==> b[k] == 0) && b[10] == 255 && b[11] == 255
  }

  function MappedTexts(b: seq<Byte>): seq<string>
    requires |b| == 16
  {
    GroupTexts(b[..12]) + [Text4(b[12..])]
  }

  /** What stands between the colons before any elision. */
  function Fields(b: seq<Byte>): (fs: seq<string>)
    requires |b| == 16
    ensures |fs| == if Mapped(b) then 7 else 8
  {
    if Mapped(b) then MappedTexts(b) else GroupTexts(b)
  }

  ghost function Text6(b: seq<Byte>): string
    requires |b| == 16
  {
    Compressed(Fields(b))
  }

  // ------------------------------------------------------------- facts about the fields

  lemma OctetTextsWellFormed(b: seq<Byte>)
    ensures AllOctets(OctetTexts(b)) && Octets(OctetTexts(b)) == b
    ensures forall k :: 0 <= k < |b| ==> |OctetTexts(b)[k]| <= 3
  {
    var o := OctetTexts(b);
    forall k | 0 <= k < |b|
      ensures DecOctet(o[k]) && Value(o[k], 10) == b[k] && |o[k]| <= 3
    {
      NumeralRoundTrip(b[k], 10);
      assert Pow(10, 0) == 1 && Pow(10, 1) == 10 && Pow(10, 2) == 100 && Pow(10, 3) == 1000;
      NumeralLength(b[k], 10, 3);
      if b[k] == 0 {
        assert o[k] == "0";
      }
      DecOctetCanonical(o[k]);
    }
  }

  lemma GroupTextWellFormed(n: Group)
    ensures var h := Numeral(n, 16);
      H16(h) && Value(h, 16) == n && (h[0] == '0' <==> h == "0") && (h == "0" <==> n == 0)
  {
    NumeralRoundTrip(n, 16);
    assert Pow(16, 0) == 1 && Pow(16, 1) == 16 && Pow(16, 2) == 256 && Pow(16, 3) == 4096 && Pow(16, 4) == 65536;
    NumeralLength(n, 16, 4);
  }

  lemma WordBehind(b: seq<Byte>, k: nat)
    requires 2 * k + 3 < |b|
    ensures Word(b[2..], k) == Word(b, k + 1)
  {
  }

  lemma TwoAndRest(b: seq<Byte>)
    requires |b| >= 2
    ensures b == [b[0], b[1]] + b[2..]
  {
  }

  lemma {:induction false} WordsAreBytes(b: seq<Byte>, g: seq<Group>)
    requires |b| == 2 * |g| && forall k :: 0 <= k < |g| ==> g[k] == Word(b, k)
    ensures GroupBytes(g) == b
    decreases |g|
  {
    if g == [] {
    } else {
      forall k | 0 <= k < |g| - 1
        ensures g[1..][k] == Word(b[2..], k)
      {
        WordBehind(b, k);
      }
      WordsAreBytes(b[2..], g[1..]);
      TwoAndRest(b);
      assert g[0] == Word(b, 0);
    }
  }

  lemma GroupTextsWellFormed(b: seq<Byte>)
    requires |b| % 2 == 0
    ensures AllH16(GroupTexts(b)) && GroupBytes(Groups(GroupTexts(b))) == b
    ensures forall k :: 0 <= k < |b| / 2 ==>
      var h := GroupTexts(b)[k]; (h[0] == '0' <==> h == "0") && (h == "0" <==> Word(b, k) == 0)
  {
    var h := GroupTexts(b);
    forall k | 0 <= k < |b| / 2
      ensures H16(h[k]) && Value(h[k], 16) == Word(b, k)
      ensures (h[k][0] == '0' <==> h[k] == "0") && (h[k] == "0" <==> Word(b, k) == 0)
    {
      GroupTextsAt(b, k);
      GroupTextWellFormed(Word(b, k));
    }
    assert forall k :: 0 <= k < |b| / 2 ==> Groups(h)[k] == Word(b, k);
    WordsAreBytes(b, Groups(h));
  }

  lemma {:induction false} TailFree(sep: char, fs: seq<string>, c: char)
    requires c != sep && forall k :: 0 <= k < |fs| ==> c !in fs[k]
    ensures c !in Tail(sep, fs) && c !in Join(sep, fs)
  {
    if fs == [] {
    } else {
      TailFree(sep, fs[1..], c);
      assert c !in [sep] + fs[0];
    }
  }

  /** Every character is a hex digit, a dot or a colon. */
  ghost predicate Plain(t: string) {
    forall k :: 0 <= k < |t| ==> IsHexDigit(t[k]) || t[k] == '.' || t[k] == ':'
  }

  lemma {:induction false} TailPlain(sep: char, fs: seq<string>)
    requires (sep == ':' || sep == '.') && forall k :: 0 <= k < |fs| ==> Plain(fs[k])
    ensures Plain(Tail(sep, fs)) && Plain(Join(sep, fs))
  {
    if fs == [] {
    } else {
      TailPlain(sep, fs[1..]);
      assert Plain(fs[0]) && Plain([sep]);
    }
  }

  lemma {:induction false} TailLength(sep: char, fs: seq<string>, n: nat)
    requires forall k :: 0 <= k < |fs| ==> |fs[k]| <= n
    ensures |Tail(sep, fs)| <= (n + 1) * |fs|
    ensures fs != [] ==> |Join(sep, fs)| <= (n + 1) * |fs| - 1
  {
    if fs == [] {
    } else {
      TailLength(sep, fs[1..], n);
      assert (n + 1) * |fs| == (n + 1) * |fs[1..]| + (n + 1);
    }
  }

  lemma Text4Facts(b: seq<Byte>)
    requires |b| == 4
    ensures |Text4(b)| <= 15 && |Text4(b)| > 1
    ensures ':' !in Text4(b) && Plain(Text4(b))
    ensures Text4(b)[0] == '0' ==> Text4(b)[1] == '.'
  {
    var o := OctetTexts(b);
    OctetTextsWellFormed(b);
    TailLength('.', o, 3);
    forall k | 0 <= k < 4
      ensures ':' !in o[k] && Plain(o[k])
    {
      assert AllDigits(o[k], 10);
    }
    TailFree('.', o, ':');
    TailPlain('.', o);
    TailJoin('.', o[1..]);
    assert DecOctet(o[0]);
  }

  lemma GroupTextLegible(h: seq<string>, k: nat)
    requires k < |h| && H16(h[k]) && (h[k][0] == '0' <==> h[k] == "0")
    ensures LegibleAt(h, k)
  {
    assert forall c :: c in h[k] ==> IsHexDigit(c);
  }

  lemma PlainLegible(b: seq<Byte>)
    requires |b| == 16
    ensures Legible(GroupTexts(b)) && |Join(':', GroupTexts(b))| <= 39
    ensures forall k :: 0 <= k < 8 ==> Plain(GroupTexts(b)[k])
  {
    var h := GroupTexts(b);
    GroupTextsWellFormed(b);
    forall k | 0 <= k < |h|
      ensures LegibleAt(h, k) && |h[k]| <= 4 && Plain(h[k])
    {
      assert H16(h[k]);
      GroupTextLegible(h, k);
    }
    TailLength(':', h, 4);
  }

  /** Six groups, the last of them "ffff", and a dotted end are legible. */
  lemma MappedFieldsLegible(dotted: string)
    requires |dotted| > 1 && ':' !in dotted && Plain(dotted) && (dotted[0] == '0' ==> dotted[1] == '.')
    ensures var fs := ["0", "0", "0", "0", "0", "ffff", dotted];
      Legible(fs) && forall k :: 0 <= k < 7 ==> Plain(fs[k])
  {
    var fs := ["0", "0", "0", "0", "0", "ffff", dotted];
    assert LegibleAt(fs, 6);
    assert Plain("0") && Plain("ffff");
  }

  lemma MappedFields(b: seq<Byte>)
    requires |b| == 16 && Mapped(b)
    ensures GroupTexts(b[..12]) == ["0", "0", "0", "0", "0", "ffff"]
  {
    var p := b[..12];
    assert Numeral(0, 16) == "0";
    assert Numeral(15, 16) == "f";
    assert Numeral(255, 16) == "ff";
    assert Numeral(4095, 16) == "fff";
    assert Numeral(65535, 16) == "ffff";
    forall k | 0 <= k < 6
      ensures GroupTexts(p)[k] == if k < 5 then "0" else "ffff"
    {
      GroupTextsAt(p, k);
    }
  }

  lemma MappedShort(b: seq<Byte>)
    requires |b| == 16 && Mapped(b)
    ensures |Join(':', GroupTexts(b[..12]))| <= 14 && |Tail(':', [Text4(b[12..])])| <= 16
  {
    MappedFields(b);
    Text4Facts(b[12..]);
    TailLength(':', GroupTexts(b[..12])[..5], 1);
    var z := GroupTexts(b[..12])[..5];
    JoinTail(':', z, ["ffff"]);
    assert GroupTexts(b[..12]) == z + ["ffff"];
    assert Tail(':', ["ffff"]) == ":ffff";
  }

  lemma MappedLegible(b: seq<Byte>)
    requires |b| == 16 && Mapped(b)
    ensures Legible(Fields(b)) && |Join(':', Fields(b))| <= 30
    ensures forall k :: 0 <= k < |Fields(b)| ==> Plain(Fields(b)[k])
  {
    MappedFields(b);
    Text4Facts(b[12..]);
    MappedShort(b);
    JoinTail(':', GroupTexts(b[..12]), [Text4(b[12..])]);
    MappedFieldsLegible(Text4(b[12..]));
    assert Fields(b) == ["0", "0", "0", "0", "0", "ffff", Text4(b[12..])];
  }

  lemma FieldsLegible(b: seq<Byte>)
    requires |b| == 16
    ensures Legible(Fields(b))
    ensures Plain(Join(':', Fields(b))) && |Join(':', Fields(b))| <= 39
  {
    if Mapped(b) {
      MappedLegible(b);
    } else {
      PlainLegible(b);
    }
    TailPlain(':', Fields(b));
  }

  // ------------------------------------------------------------- the C function

  /** The scan's best span so far is the choice among the first `g` groups. */
  ghost predicate Chosen(fs: seq<string>, g: nat, best: nat, max: nat)
    requires g <= |fs|
  {
    max == Choice(fs, g).1 && (max > 2 ==> best == At(fs, Choice(fs, g).0))
  }

  lemma ChosenStep(fs: seq<string>, g: nat, best: nat, max: nat, j: nat)
    requires g < |fs| && Legible(fs) && Chosen(fs, g, best, max) && j == Span(From(fs, g))
    ensures if j > max then Chosen(fs, g + 1, At(fs, g), j) else Chosen(fs, g + 1, best, max)
  {
    SpanIsWeight(fs, g);
  }

  /** Where the scan stands: at the start, or before the rest `w` of a field and the fields from `g` on. */
  ghost predicate Standing(fs: seq<string>, i: nat, g: nat, w: string) {
    && g <= |fs| && i <= |Join(':', fs)| && (i == 0 <==> g == 0)
    && (i > 0 ==> Join(':', fs)[i..] == w + Tail(':', fs[g..]) && ':' !in w && i + |w| == At(fs, g))
  }

  ghost predicate Scanning(fs: seq<string>, i: nat, g: nat, w: string, best: nat, max: nat) {
    Standing(fs, i, g, w) && Chosen(fs, g, best, max)
  }

  lemma FirstOf(w: string, rest: string)
    ensures w != "" ==> (w + rest)[0] == w[0] && w[0] in w
  {
  }

  /** At a colon the field before it is done, and the next field follows. */
  lemma AtColon(fs: seq<string>, g: nat, text: string, i: nat, w: string)
    requires 0 < g <= |fs| && i < |text| && text == Join(':', fs) && Legible(fs)
    requires text[i..] == w + Tail(':', fs[g..]) && ':' !in w && text[i] == ':' && i + |w| == At(fs, g)
    ensures w == "" && g < |fs| && i == At(fs, g) && ':' !in fs[g]
    ensures text[i + 1..] == fs[g] + Tail(':', fs[g + 1..]) && i + 1 + |fs[g]| == At(fs, g + 1)
  {
    assert text[i] == text[i..][0];
    FirstOf(w, Tail(':', fs[g..]));
    var rest := fs[g..];
    assert rest[1..] == fs[g + 1..] && rest[0] == fs[g] && LegibleAt(fs, g);
    assert text[i..][1..] == text[i + 1..];
    assert fs[..g + 1] == fs[..g] + [fs[g]];
    JoinTail(':', fs[..g], [fs[g]]);
    assert |Tail(':', [fs[g]])| == 1 + |fs[g]|;
  }

  lemma AtStart(fs: seq<string>)
    requires fs != [] && Legible(fs)
    ensures fs[0] != ""
    ensures var text := Join(':', fs);
      text != "" && text[1..] == fs[0][1..] + Tail(':', fs[1..]) && ':' !in fs[0][1..]
    ensures At(fs, 0) == 0 && At(fs, 1) == |fs[0]|
  {
    assert LegibleAt(fs, 0);
    assert fs[..0] == [] && fs[..1] == [fs[0]];
    assert forall c :: c in fs[0][1..] ==> c in fs[0];
  }

  /** A place where the scan looks is that of the next group, and its field comes next. */
  lemma AtCandidate(fs: seq<string>, g: nat, i: nat, w: string) returns (w': string)
    requires fs != [] && Legible(fs) && Standing(fs, i, g, w) && i < |Join(':', fs)|
    requires i == 0 || Join(':', fs)[i] == ':'
    ensures g < |fs| && i == At(fs, g) && Join(':', fs)[i..] == From(fs, g)
    ensures Standing(fs, i + 1, g + 1, w')
  {
    if i == 0 {
      AtStart(fs);
      w' := fs[0][1..];
    } else {
      AtColon(fs, g, Join(':', fs), i, w);
      w' := fs[g];
    }
    TextFrom(fs, g);
  }

  lemma ScanStep(fs: seq<string>, g: nat, i: nat, w: string, best: nat, max: nat, j: nat) returns (w': string)
    requires fs != [] && Legible(fs) && Scanning(fs, i, g, w, best, max) && i < |Join(':', fs)|
    requires (i == 0 || Join(':', fs)[i] == ':') && j == Span(Join(':', fs)[i..])
    ensures Scanning(fs, i + 1, g + 1, w', if j > max then i else best, if j > max then j else max)
  {
    w' := AtCandidate(fs, g, i, w);
    ChosenStep(fs, g, best, max, j);
  }

  lemma AtEnd(fs: seq<string>, i: nat, g: nat, w: string)
    requires fs != [] && Legible(fs) && Standing(fs, i, g, w)
    ensures g < |fs| ==> i < |Join(':', fs)|
  {
    AtStart(fs);
    if g < |fs| {
      TailJoin(':', fs[g..]);
    }
  }

  lemma WithinField(fs: seq<string>, g: nat, i: nat, w: string)
    requires Standing(fs, i, g, w) && 0 < i < |Join(':', fs)| && Join(':', fs)[i] != ':'
    ensures w != "" && Standing(fs, i + 1, g, w[1..])
  {
    var text := Join(':', fs);
    if g < |fs| {
      TailJoin(':', fs[g..]);
    }
    assert text[i] == text[i..][0];
    assert text[i..][1..] == text[i + 1..];
    assert forall c :: c in w[1..] ==> c in w;
  }

  /** The character scan: at the start and at every colon, how far ':' and '0' reach. */
  method FindElision(buf: array<char>, ghost fs: seq<string>) returns (i: nat, best: nat, max: nat)
    requires fs != [] && Legible(fs) && Holds(buf, Join(':', fs))
    ensures i == |Join(':', fs)| && Chosen(fs, |fs|, best, max)
  {
    ghost var text := Join(':', fs);
    i, best, max := 0, 0, 2;
    ghost var g: nat, w: string := 0, "";
    while buf[i] != '\0'
      invariant Scanning(fs, i, g, w, best, max)
      decreases |text| - i
    {
      if i != 0 && buf[i] != ':' {
        WithinField(fs, g, i, w);
        w := w[1..];
        i := i + 1;
        continue;
      }
      var j := Strspn(buf, i, text);
      w := ScanStep(fs, g, i, w, best, max, j);
      if j > max {
        best, max := i, j;
      }
      g := g + 1;
      i := i + 1;
    }
    AtEnd(fs, i, g, w);
  }

  /** What the two writes and the move make of the buffer, `was` being its contents before them. */
  ghost predicate Spliced(now: seq<char>, was: seq<char>, best: nat, max: nat, n: nat) {
    && |now| == |was| && 2 <= max && best + max + n <= |was|
    && now == was[..best] + [':', ':'] + was[best + max..best + max + n] + now[best + 2 + n..]
  }

  lemma SplicedHolds(now: seq<char>, was: seq<char>, text: string, best: nat, max: nat)
    requires |text| < |was| && was[..|text|] == text && was[|text|] == '\0' && '\0' !in text
    requires best + max <= |text| && Spliced(now, was, best, max, |text| + 1 - best - max)
    ensures var result := text[..best] + "::" + text[best + max..];
      && |result| < |now| && now[..|result|] == result && now[|result|] == '\0' && '\0' !in result
  {
    assert was[best + max..|text| + 1] == text[best + max..] + ['\0'];
    assert was[..best] == text[..best];
  }

  lemma MarkedMoved(was: seq<char>, marked: seq<char>, now: seq<char>, best: nat, max: nat, n: nat)
    requires 2 <= max && best + max + n <= |was| && marked == was[best := ':'][best + 1 := ':']
    requires now == marked[..best + 2] + marked[best + max..best + max + n] + marked[best + 2 + n..]
    ensures Spliced(now, was, best, max, n)
  {
    assert marked[..best + 2] == was[..best] + [':', ':'];
    assert marked[best + max..best + max + n] == was[best + max..best + max + n];
    assert now[best + 2 + n..] == marked[best + 2 + n..];
  }

  lemma HoldsOf(buf: array<char>, text: string)
    requires |text| < buf.Length && buf[..|text|] == text && buf[|text|] == '\0' && '\0' !in text
    ensures Holds(buf, text)
  {
    assert forall k :: 0 <= k < |text| ==> buf[k] == buf[..|text|][k] && text[k] in text;
  }

  /** The in-place splice: two colons over the run, and what follows moved up to them. */
  method Splice(buf: array<char>, ghost text: string, i: nat, best: nat, max: nat)
    requires Holds(buf, text) && i == |text| && 2 < max && best + max <= i
    modifies buf
    ensures Holds(buf, text[..best] + "::" + text[best + max..])
  {
    ghost var was := buf[..];
    buf[best], buf[best + 1] := ':', ':';
    ghost var marked := buf[..];
    Memmove(buf, best + 2, best + max, i - best - max + 1);
    MarkedMoved(was, marked, buf[..], best, max, i - best - max + 1);
    SplicedHolds(buf[..], was, text, best, max);
    HoldsOf(buf, text[..best] + "::" + text[best + max..]);
  }

  method PrintAll(buf: array<char>, text: string)
    requires |text| < buf.Length && '\0' !in text
    modifies buf
    ensures Holds(buf, text)
  {
    var _ := Snprintf(buf, buf.Length, text);
    assert forall k :: 0 <= k < |text| ==> buf[k] == buf[..][k] && text[k] in text;
    assert buf[|text|] == buf[..][|text|];
  }

  lemma ChosenIsCut(fs: seq<string>, best: nat, max: nat)
    requires Chosen(fs, |fs|, best, max) && max > 2
    ensures best + max <= |Join(':', fs)|
    ensures Compressed(fs) == Join(':', fs)[..best] + "::" + Join(':', fs)[best + max..]
  {
    var g := Choice(fs, |fs|).0;
    assert best == At(fs, g) && max == Weight(fs, g);
    CutRun(fs, g);
  }

  /** Compression on groups is a cut in the characters. */
  lemma CompressedIsCut(fs: seq<string>, best: nat, max: nat)
    requires Chosen(fs, |fs|, best, max)
    ensures max > 2 ==> best + max <= |Join(':', fs)|
    ensures max > 2 ==> Compressed(fs) == Join(':', fs)[..best] + "::" + Join(':', fs)[best + max..]
    ensures max <= 2 ==> Compressed(fs) == Join(':', fs)
  {
    if max > 2 {
      ChosenIsCut(fs, best, max);
    }
  }

  method Elide(buf: array<char>, ghost fs: seq<string>)
    requires fs != [] && Legible(fs) && Holds(buf, Join(':', fs))
    modifies buf
    ensures Holds(buf, Compressed(fs))
  {
    var i, best, max := FindElision(buf, fs);
    ghost var text := Join(':', fs);
    CompressedIsCut(fs, best, max);
    if max > 2 {
      Splice(buf, text, i, best, max);
    }
  }

  /** The text of an IPv6 address, printed and spliced in a buffer of 100 characters. */
  method PrintGroups(a: seq<Byte>, buf: array<char>)
    requires |a| == 16 && buf.Length == 100
    modifies buf
    ensures Holds(buf, Text6(a))
  {
    FieldsLegible(a);
    PrintAll(buf, Join(':', Fields(a)));
    Elide(buf, Fields(a));
  }

  /** An int compared with a size_t: what is negative counts as huge. */
  function Unsigned(l: int): (n: int)
    requires -0x8000_0000 <= l < 0x8000_0000
    ensures if l >= 0 then n == l else n >= 0x8000_0000
  {
    l % 0x1_0000_0000_0000_0000
  }

  /** The AF_INET6 branch: prints to a buffer of its own, and copies what fits. */
  method Print6(a: seq<Byte>, s: array<char>, l: int) returns (ok: bool)
    requires |a| == 16 && -0x8000_0000 <= l < 0x8000_0000 && l <= s.Length && (l < 0 ==> |Text6(a)| < s.Length)
    modifies s
    ensures ok == (|Text6(a)| < Unsigned(l))
    ensures s[..] == if ok then Text6(a) + ['\0'] + old(s[|Text6(a)| + 1..]) else old(s[..])
  {
    var buf := new char[100];
    PrintGroups(a, buf);
    var n := Strlen(buf, Text6(a));
    ok := n < Unsigned(l);
    if ok {
      Strcpy(s, buf, Text6(a));
    }
  }

  /** inet_ntop: succeeds exactly when the text and its NUL fit into `l` characters, where IPv6 takes a
      negative `l` for a huge one. The buffer has to hold as much as is written. */
  method InetNtop(af: int, a: seq<Byte>, s: array<char>, l: int) returns (ok: bool)
    requires -0x8000_0000 <= l < 0x8000_0000 && l <= s.Length
    requires af == 2 ==> |a| == 4 && (l < 0 ==> |Text4(a)| < s.Length)
    requires af == 10 ==> |a| == 16 && (l < 0 ==> |Text6(a)| < s.Length)
    modifies s
    ensures af == 2 ==>
      && ok == (|Text4(a)| < l)
      && (ok ==> s[..] == Text4(a) + ['\0'] + old(s[|Text4(a)| + 1..]))
      && (!ok && l > 0 ==> s[..] == Text4(a)[..l - 1] + ['\0'] + old(s[l..]))
      && (l == 0 ==> s[..] == old(s[..]))
    ensures af == 10 ==>
      && ok == (|Text6(a)| < Unsigned(l))
      && (ok ==> s[..] == Text6(a) + ['\0'] + old(s[|Text6(a)| + 1..]))
      && (!ok ==> s[..] == old(s[..]))
    ensures af != 2 && af != 10 ==> !ok && s[..] == old(s[..])
  {
    if af == AF_INET {
      var n := Snprintf(s, if l < 0 then s.Length else l, Text4(a));
      return n < l;
    } else if af != AF_INET6 {
      return false;
    }
    ok := Print6(a, s, l);
  }
}
