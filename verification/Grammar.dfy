/** The textual addresses of section 3.2.2 of RFC 3986, and what they denote. */
module Grammar {
  import opened Text

  // ------------------------------------------------------------- the ABNF

  /** h16 = 1*4HEXDIG */
  ghost predicate H16(s: string) { 1 <= |s| <= 4 && AllDigits(s, 16) }

  /** dec-octet, alternative by alternative */
  ghost predicate DecOctet(s: string) {
    || (|s| == 1 && IsDigit(s[0]))
    || (|s| == 2 && '1' <= s[0] <= '9' && IsDigit(s[1]))
    || (|s| == 3 && s[0] == '1' && IsDigit(s[1]) && IsDigit(s[2]))
    || (|s| == 3 && s[0] == '2' && '0' <= s[1] <= '4' && IsDigit(s[2]))
    || (|s| == 3 && s[0] == '2' && s[1] == '5' && '0' <= s[2] <= '5')
  }

  ghost predicate AllH16(g: seq<string>) {
    forall k :: 0 <= k < |g| ==> H16(g[k])
  }

  ghost predicate AllOctets(o: seq<string>) {
    forall k :: 0 <= k < |o| ==> DecOctet(o[k])
  }

  /** IPv4address = dec-octet "." dec-octet "." dec-octet "." dec-octet */
  ghost predicate IPv4address(s: string) {
    exists o: seq<string> :: |o| == 4 && AllOctets(o) && s == Join('.', o)
  }

  /** ls32 = ( h16 ":" h16 ) / IPv4address */
  ghost predicate Ls32(s: string) {
    (exists g, h :: H16(g) && H16(h) && s == g + ":" + h) || IPv4address(s)
  }

  /** n( h16 ":" ) */
  ghost predicate Rep(s: string, n: nat) {
    exists g :: AllH16(g) && |g| == n && s == Lead(':', g)
  }

  /** n( h16 ":" ) ls32 */
  ghost predicate RepLs32(s: string, n: nat) {
    exists y, z :: s == y + z && Rep(y, n) && Ls32(z)
  }

  /** [ *m( h16 ":" ) h16 ] */
  ghost predicate Before(s: string, m: nat) {
    s == "" || exists g, h :: AllH16(g) && |g| <= m && H16(h) && s == Lead(':', g) + h
  }

  /** The eight alternatives with an elision, `x` and `r` being what stands on its two sides. */
  ghost predicate AroundElision(x: string, r: string) {
    || (x == "" && RepLs32(r, 5))
    || (Before(x, 0) && RepLs32(r, 4))
    || (Before(x, 1) && RepLs32(r, 3))
    || (Before(x, 2) && RepLs32(r, 2))
    || (Before(x, 3) && RepLs32(r, 1))
    || (Before(x, 4) && RepLs32(r, 0))
    || (Before(x, 5) && H16(r))
    || (Before(x, 6) && r == "")
  }

  ghost predicate IPv6address(s: string) {
    RepLs32(s, 6) || exists x, r :: s == x + "::" + r && AroundElision(x, r)
  }

  // ------------------------------------------- parsed texts and their value

  /** A text taken apart: groups before and after the elision, and the octets of a dotted end. */
  datatype Form = Form(left: seq<string>, elided: bool, right: seq<string>, octets: seq<string>)

  /** How many groups the dotted end stands for. */
  ghost function Width(octets: seq<string>): nat {
    if octets == [] then 0 else 2
  }

  ghost predicate WellFormed(f: Form) {
    && AllH16(f.left) && AllH16(f.right) && AllOctets(f.octets)
    && (f.octets == [] || |f.octets| == 4)
    && (if f.elided then |f.left| + |f.right| + Width(f.octets) <= 7
        else f.right == [] && |f.left| + Width(f.octets) == 8)
  }

  ghost function Dotted(octets: seq<string>): seq<string> {
    if octets == [] then [] else [Join('.', octets)]
  }

  ghost function Render(f: Form): string {
    if f.elided then Join(':', f.left) + "::" + Join(':', f.right + Dotted(f.octets))
    else Join(':', f.left + Dotted(f.octets))
  }

  ghost function ZeroBytes(n: nat): (z: seq<Byte>)
    ensures |z| == n && forall k :: 0 <= k < n ==> z[k] == 0
  {
    seq<Byte>(n, _ => 0)
  }

  ghost function ZeroGroups(n: nat): (z: seq<Group>)
    ensures |z| == n && forall k :: 0 <= k < n ==> z[k] == 0
  {
    seq<Group>(n, _ => 0)
  }

  ghost function GroupBytes(g: seq<Group>): (bytes: seq<Byte>)
    ensures |bytes| == 2 * |g|
  {
    if g == [] then [] else [g[0] / 256, g[0] % 256] + GroupBytes(g[1..])
  }

  lemma H16Value(s: string)
    requires H16(s)
    ensures Value(s, 16) < 0x1_0000
  {
    ValueBound(s, 16);
    assert Pow(16, 0) == 1;
    assert Pow(16, 1) == 16;
    assert Pow(16, 2) == 256;
    assert Pow(16, 3) == 4096;
    assert Pow(16, 4) == 65536;
  }

  ghost function Groups(h: seq<string>): (g: seq<Group>)
    requires AllH16(h)
    ensures |g| == |h|
    ensures forall k :: 0 <= k < |h| ==> g[k] == Value(h[k], 16)
  {
    assert forall k :: 0 <= k < |h| ==> Value(h[k], 16) < 0x1_0000 by {
      forall k | 0 <= k < |h| { H16Value(h[k]); }
    }
    seq<Group>(|h|, k requires 0 <= k < |h| => Value(h[k], 16))
  }

  /** The decimal value of up to three digits, written out. */
  lemma ShortValue(s: string)
    requires 1 <= |s| <= 3 && AllDigits(s, 10)
    ensures Value(s, 10) ==
      if |s| == 1 then DigitValue(s[0])
      else if |s| == 2 then 10 * DigitValue(s[0]) + DigitValue(s[1])
      else 100 * DigitValue(s[0]) + 10 * DigitValue(s[1]) + DigitValue(s[2])
  {
    if |s| == 1 {
      assert s[..0] == [];
    } else {
      ShortValue(s[..|s| - 1]);
    }
  }

  /** A dec-octet is a decimal number up to 255 without leading zeros. */
  lemma DecOctetCanonical(s: string)
    ensures DecOctet(s) <==> 1 <= |s| <= 3 && AllDigits(s, 10) && (|s| > 1 ==> s[0] != '0') && Value(s, 10) <= 255
  {
    if 1 <= |s| <= 3 && AllDigits(s, 10) {
      ShortValue(s);
    }
  }

  ghost function Octets(o: seq<string>): (bytes: seq<Byte>)
    requires AllOctets(o)
    ensures |bytes| == |o|
    ensures forall k :: 0 <= k < |o| ==> DecOctet(o[k]) && AllDigits(o[k], 10) && bytes[k] == Value(o[k], 10)
  {
    assert forall k :: 0 <= k < |o| ==> DecOctet(o[k]) ==> AllDigits(o[k], 10) && Value(o[k], 10) < 256 by {
      forall k | 0 <= k < |o| { DecOctetCanonical(o[k]); }
    }
    seq<Byte>(|o|, k requires 0 <= k < |o| => assert DecOctet(o[k]); Value(o[k], 10))
  }

  /** Left groups, zeros for the elision, right groups, and the dotted end in the last four bytes. */
  ghost function Meaning(f: Form): (bytes: seq<Byte>)
    requires WellFormed(f)
    ensures |bytes| == 16
  {
    GroupBytes(Groups(f.left))
    + ZeroBytes(16 - 2 * (|f.left| + |f.right| + Width(f.octets)))
    + GroupBytes(Groups(f.right))
    + Octets(f.octets)
  }

  // ------------------------------------------------------------ properties

  lemma {:induction false} GroupBytesSplit(a: seq<Group>, b: seq<Group>)
    ensures GroupBytes(a + b) == GroupBytes(a) + GroupBytes(b)
  {
    if a == [] {
      assert a + b == b;
    } else {
      GroupBytesSplit(a[1..], b);
      Behead(a, b);
      Associate([a[0] / 256, a[0] % 256], GroupBytes(a[1..]), GroupBytes(b));
    }
  }

  lemma {:induction false} GroupBytesZeros(n: nat)
    ensures GroupBytes(ZeroGroups(n)) == ZeroBytes(2 * n)
  {
    if n == 0 {
    } else {
      GroupBytesZeros(n - 1);
      assert ZeroGroups(n)[1..] == ZeroGroups(n - 1);
    }
  }

  /** The byte at each place of the groups: high half first. */
  lemma {:induction false} GroupBytesAt(g: seq<Group>, k: nat)
    requires k < |g|
    ensures GroupBytes(g)[2 * k] == g[k] / 256 && GroupBytes(g)[2 * k + 1] == g[k] % 256
  {
    if k == 0 {
    } else {
      GroupBytesAt(g[1..], k - 1);
    }
  }

  // ------------------------- the ABNF describes exactly the well-formed forms

  lemma Ls32Form(s: string) returns (g: seq<string>, o: seq<string>)
    requires Ls32(s)
    ensures AllH16(g) && AllOctets(o) && (o == [] || |o| == 4) && |g| + Width(o) == 2
    ensures s == Join(':', g + Dotted(o))
  {
    if IPv4address(s) {
      o :| |o| == 4 && AllOctets(o) && s == Join('.', o);
      g := [];
      assert g + Dotted(o) == [s];
      assert Join(':', [s]) == s;
    } else {
      var a, b :| H16(a) && H16(b) && s == a + ":" + b;
      g, o := [a, b], [];
      assert g + Dotted(o) == [a] + [b];
      JoinSplit(':', [a], [b]);
    }
  }

  lemma LeadJoinDotted(a: seq<string>, b: seq<string>, o: seq<string>)
    requires b + Dotted(o) != []
    ensures Join(':', (a + b) + Dotted(o)) == Lead(':', a) + Join(':', b + Dotted(o))
  {
    LeadJoin(':', a, b + Dotted(o));
    assert a + (b + Dotted(o)) == (a + b) + Dotted(o);
  }

  /** Groups, each with its separator, in front of a parsed rest. */
  lemma LeadForm(s: string, a: seq<string>, z: string, b: seq<string>, o: seq<string>)
    requires s == Lead(':', a) + z && b + Dotted(o) != [] && z == Join(':', b + Dotted(o))
    ensures s == Join(':', (a + b) + Dotted(o))
  {
    LeadJoinDotted(a, b, o);
  }

  lemma RepLs32Form(s: string, n: nat) returns (g: seq<string>, o: seq<string>)
    requires RepLs32(s, n)
    ensures AllH16(g) && AllOctets(o) && (o == [] || |o| == 4) && |g| + Width(o) == n + 2
    ensures s == Join(':', g + Dotted(o))
  {
    var y, z :| s == y + z && Rep(y, n) && Ls32(z);
    var a :| AllH16(a) && |a| == n && y == Lead(':', a);
    var b;
    b, o := Ls32Form(z);
    g := a + b;
    LeadForm(s, a, z, b, o);
  }

  lemma FormLs32(b: seq<string>, o: seq<string>)
    requires AllH16(b) && AllOctets(o) && (o == [] || |o| == 4) && |b| + Width(o) == 2
    ensures b + Dotted(o) != [] && Ls32(Join(':', b + Dotted(o)))
  {
    if o == [] {
      assert b + Dotted(o) == [b[0]] + [b[1]];
      JoinSplit(':', [b[0]], [b[1]]);
      assert H16(b[0]) && H16(b[1]) && Join(':', b + Dotted(o)) == b[0] + ":" + b[1];
    } else {
      assert b + Dotted(o) == [Join('.', o)];
    }
  }

  lemma FormRepLs32(g: seq<string>, o: seq<string>)
    requires AllH16(g) && AllOctets(o) && (o == [] || |o| == 4) && |g| + Width(o) >= 2
    ensures RepLs32(Join(':', g + Dotted(o)), |g| + Width(o) - 2)
  {
    var n := |g| + Width(o) - 2;
    var a, b := g[..n], g[n..];
    assert a + b == g;
    FormLs32(b, o);
    LeadJoinDotted(a, b, o);
    assert Rep(Lead(':', a), n);
  }

  lemma BeforeForm(s: string, m: nat) returns (g: seq<string>)
    requires Before(s, m)
    ensures AllH16(g) && |g| <= m + 1 && s == Join(':', g)
  {
    if s == "" {
      g := [];
    } else {
      var a, h :| AllH16(a) && |a| <= m && H16(h) && s == Lead(':', a) + h;
      g := a + [h];
      LeadJoin(':', a, [h]);
    }
  }

  lemma FormBefore(g: seq<string>, m: nat)
    requires AllH16(g) && |g| <= m + 1
    ensures Before(Join(':', g), m)
  {
    if g != [] {
      var a, h := g[..|g| - 1], g[|g| - 1];
      assert g == a + [h];
      LeadJoin(':', a, [h]);
      assert AllH16(a) && |a| <= m && H16(h) && Join(':', g) == Lead(':', a) + h;
    }
  }

  lemma AroundElisionForm(x: string, r: string) returns (f: Form)
    requires AroundElision(x, r)
    ensures WellFormed(f) && f.elided && x == Join(':', f.left) && r == Join(':', f.right + Dotted(f.octets))
  {
    var m: nat := if Before(x, 6) && r == "" then 6 else if Before(x, 5) && H16(r) then 5
      else if Before(x, 4) && RepLs32(r, 0) then 4 else if Before(x, 3) && RepLs32(r, 1) then 3
      else if Before(x, 2) && RepLs32(r, 2) then 2 else if Before(x, 1) && RepLs32(r, 3) then 1 else 0;
    if x == "" && RepLs32(r, 5) {
      var g, o := RepLs32Form(r, 5);
      f := Form([], true, g, o);
    } else {
      var left := BeforeForm(x, m);
      if m == 6 {
        f := Form(left, true, [], []);
      } else if m == 5 {
        f := Form(left, true, [r], []);
        assert [r] + Dotted([]) == [r];
      } else {
        var g, o := RepLs32Form(r, 4 - m);
        f := Form(left, true, g, o);
      }
    }
  }

  lemma FormAroundElision(f: Form)
    requires WellFormed(f) && f.elided
    ensures AroundElision(Join(':', f.left), Join(':', f.right + Dotted(f.octets)))
  {
    var c := |f.right| + Width(f.octets);
    if c >= 2 {
      FormRepLs32(f.right, f.octets);
    } else if c == 1 {
      assert f.right + Dotted(f.octets) == [f.right[0]];
    }
    if c < 7 {
      FormBefore(f.left, 6 - c);
    }
  }

  /** The nine alternatives of the RFC and the well-formed parsed texts are the same language. */
  lemma GrammarIsForms(s: string)
    ensures IPv6address(s) <==> exists f :: WellFormed(f) && Render(f) == s
  {
    if IPv6address(s) {
      if RepLs32(s, 6) {
        var g, o := RepLs32Form(s, 6);
        var f := Form(g, false, [], o);
        assert WellFormed(f) && Render(f) == s;
      } else {
        var x, r :| s == x + "::" + r && AroundElision(x, r);
        var f := AroundElisionForm(x, r);
        assert WellFormed(f) && Render(f) == s;
      }
    }
    forall f | WellFormed(f) && Render(f) == s
      ensures IPv6address(s)
    {
      if f.elided {
        FormAroundElision(f);
      } else {
        FormRepLs32(f.left, f.octets);
      }
    }
  }
}
