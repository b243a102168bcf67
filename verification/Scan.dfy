/** What the address parser computes, on strings, and why that is the RFC's language. */
module Scan {
  import opened Text
  import opened Grammar

  // -------------------------------------------------------------- dotted quad

  /** The values of the dotted quad `t`, after the octets already read. */
  ghost function ScanQuad(t: string, acc: seq<Byte>): (r: Option<seq<Byte>>)
    requires |acc| < 4
    ensures r.Some? ==> |r.value| == 4
    decreases 4 - |acc|
  {
    var j := DigitRun(t, 10, 3);
    if j == 0 || (j > 1 && t[0] == '0') || Value(t[..j], 10) > 255 then None
    else
      var acc' := acc + [Value(t[..j], 10)];
      if |acc'| == 4 then if j == |t| then Some(acc') else None
      else if j < |t| && t[j] == '.' then ScanQuad(t[j + 1..], acc')
      else None
  }

  lemma PrependField(sep: char, h: string, fields: seq<string>, t: string)
    requires fields != [] && |h| < |t| && t[..|h|] == h && t[|h|] == sep && t[|h| + 1..] == Join(sep, fields)
    ensures t == Join(sep, [h] + fields)
  {
    TailJoin(sep, fields);
    assert ([h] + fields)[1..] == fields;
    assert t == h + ([sep] + t[|h| + 1..]);
  }

  lemma OctetsCons(acc: seq<Byte>, h: string, more: seq<string>)
    requires DecOctet(h) && AllOctets(more)
    ensures AllDigits(h, 10) && Value(h, 10) <= 255
    ensures AllOctets([h] + more) && acc + [Value(h, 10)] + Octets(more) == acc + Octets([h] + more)
  {
    DecOctetCanonical(h);
    var all := [h] + more;
    assert AllOctets(all);
    assert Octets(all) == [Value(h, 10)] + Octets(more);
    assert acc + ([Value(h, 10)] + Octets(more)) == acc + [Value(h, 10)] + Octets(more);
  }

  /** Accepted quads are joined dec-octets, and the values are theirs. */
  lemma {:induction false} QuadSound(t: string, acc: seq<Byte>) returns (o: seq<string>)
    requires |acc| < 4 && ScanQuad(t, acc).Some?
    ensures |acc| + |o| == 4 && AllOctets(o) && t == Join('.', o)
    ensures ScanQuad(t, acc).value == acc + Octets(o)
    decreases 4 - |acc|
  {
    var j := DigitRun(t, 10, 3);
    var h := t[..j];
    var acc' := acc + [Value(h, 10)];
    DecOctetCanonical(h);
    if |acc'| == 4 {
      o := [h];
      OctetsCons(acc, h, []);
      assert [h] + [] == o && acc' + Octets([]) == acc';
      assert t == h == Join('.', o);
    } else {
      var more := QuadSound(t[j + 1..], acc');
      o := [h] + more;
      PrependField('.', h, more, t);
      OctetsCons(acc, h, more);
    }
  }

  /** One dec-octet and its separator are consumed. */
  lemma QuadStep(h: string, rest: string, acc: seq<Byte>)
    requires DecOctet(h) && |acc| < 4 && (rest == "" || rest[0] == '.')
    ensures AllDigits(h, 10) && Value(h, 10) <= 255
    ensures ScanQuad(h + rest, acc) ==
      if |acc| == 3 then if rest == "" then Some(acc + [Value(h, 10)]) else None
      else if rest == "" then None
      else ScanQuad(rest[1..], acc + [Value(h, 10)])
  {
    DecOctetCanonical(h);
    DigitRunExact(h, rest, 10, 3);
    var t := h + rest;
    assert t[0] == h[0] && DigitRun(t, 10, 3) == |h| && t[..|h|] == h;
    if rest != "" {
      assert t[|h| + 1..] == rest[1..] && t[|h|] == '.';
    }
  }

  /** Every list of dec-octets is accepted, with its own values. */
  lemma {:induction false} QuadComplete(o: seq<string>, acc: seq<Byte>)
    requires |acc| < 4 && |acc| + |o| == 4 && AllOctets(o)
    ensures ScanQuad(Join('.', o), acc) == Some(acc + Octets(o))
    decreases 4 - |acc|
  {
    var h, more := o[0], o[1..];
    assert o == [h] + more;
    OctetsCons(acc, h, more);
    QuadStep(h, Tail('.', more), acc);
    if more == [] {
      assert Octets(more) == [] && acc + [Value(h, 10)] + [] == acc + [Value(h, 10)];
    } else {
      TailJoin('.', more);
      QuadComplete(more, acc + [Value(h, 10)]);
    }
  }

  // ------------------------------------------------------------------- groups

  /** How the group loop ends. `brk` is the slot of the elision or -1; the dotted end is not read yet. */
  datatype Scanned = Reject | Done(groups: seq<Group>, brk: int, quad: Option<string>)

  ghost function Words(quad: Option<string>): nat {
    if quad.None? then 0 else 2
  }

  /** The group loop on what is left to read, `acc` being the slots filled so far. */
  ghost function ScanGroups(t: string, brk: int, acc: seq<Group>): (r: Scanned)
    requires |acc| <= 7 && -1 <= brk < |acc|
    ensures r.Done? ==> |acc| <= |r.groups| && |r.groups| + Words(r.quad) <= 8 && -1 <= r.brk < |r.groups|
    ensures r.Done? && r.brk < 0 ==> |r.groups| + Words(r.quad) == 8
    decreases |t|
  {
    var i := |acc|;
    if t != [] && t[0] == ':' && brk < 0 then
      if |t| == 1 then Done(acc + [0], i, None)
      else if i == 7 then Reject
      else ScanGroups(t[1..], i, acc + [0])
    else
      var j := DigitRun(t, 16, 4);
      if j == 0 then Reject
      else
        H16Value(t[..j]);
        var acc' := acc + [Value(t[..j], 16)];
        if j == |t| then if brk >= 0 || i == 7 then Done(acc', brk, None) else Reject
        else if i == 7 then Reject
        else if t[j] == ':' then ScanGroups(t[j + 1..], brk, acc')
        else if t[j] == '.' && (i == 6 || brk >= 0) then Done(acc, brk, Some(t))
        else Reject
  }

  /** A leading ':' must be half of an elision. */
  ghost function ScanText(t: string): Scanned {
    if t != [] && t[0] == ':' then
      if |t| > 1 && t[1] == ':' then ScanGroups(t[1..], -1, []) else Reject
    else ScanGroups(t, -1, [])
  }

  /** The eight slots less those of the dotted end, with the elision widened. */
  ghost function Expand(groups: seq<Group>, brk: int, total: nat): (r: seq<Group>)
    requires |groups| <= total && -1 <= brk < |groups| && (brk < 0 ==> |groups| == total)
    ensures |r| == total
  {
    if brk < 0 then groups
    else groups[..brk] + ZeroGroups(total - |groups|) + groups[brk..]
  }

  /** The bytes of the dotted end, none if there is none. */
  ghost function QuadBytes(quad: Option<string>): (r: Option<seq<Byte>>)
    ensures r.Some? ==> |r.value| == 2 * Words(quad)
  {
    if quad.None? then Some([]) else ScanQuad(quad.value, [])
  }

  /** The sixteen bytes of an IPv6 text, if the parser accepts it. */
  ghost function Parse6(t: string): (r: Option<seq<Byte>>)
    ensures r.Some? ==> |r.value| == 16
  {
    var d := ScanText(t);
    if d.Done? && QuadBytes(d.quad).Some?
    then Some(GroupBytes(Expand(d.groups, d.brk, 8 - Words(d.quad))) + QuadBytes(d.quad).value)
    else None
  }

  ghost function QuadField(quad: Option<string>): seq<string> {
    if quad.None? then [] else [quad.value]
  }

  /** A text that starts as a dotted quad does: a short digit run and then a dot. */
  ghost predicate DottedStart(q: string) {
    var j := DigitRun(q, 16, 4);
    0 < j < |q| && q[j] == '.'
  }

  // ------------------------------------------------------------- what is accepted

  lemma GroupsCons(h: string, r: seq<string>)
    requires H16(h) && AllH16(r)
    ensures AllH16([h] + r) && Groups([h] + r) == [Groups([h])[0]] + Groups(r)
    ensures Groups([h])[0] == Value(h, 16)
  {
    var all := [h] + r;
    assert AllH16(all);
    assert Groups(all) == [Groups([h])[0]] + Groups(r);
  }

  lemma GroupsConsAcc(acc: seq<Group>, h: string, r: seq<string>)
    requires H16(h) && AllH16(r)
    ensures AllH16([h] + r) && acc + [Groups([h])[0]] + Groups(r) == acc + Groups([h] + r)
    ensures Groups([h])[0] == Value(h, 16)
  {
    GroupsCons(h, r);
    assert acc + ([Groups([h])[0]] + Groups(r)) == acc + [Groups([h])[0]] + Groups(r);
  }

  /** A nonempty list of groups, perhaps with a dotted end. */
  ghost predicate Listed(t: string, acc: seq<Group>, groups: seq<Group>, quad: Option<string>, r: seq<string>) {
    AllH16(r) && groups == acc + Groups(r) && r + QuadField(quad) != [] && t == Join(':', r + QuadField(quad))
  }

  lemma ListedOne(h: string, acc: seq<Group>)
    requires H16(h)
    ensures Listed(h, acc, acc + [Groups([h])[0]], None, [h])
  {
    GroupsConsAcc(acc, h, []);
    assert [h] + [] == [h] && acc + [Groups([h])[0]] + [] == acc + [Groups([h])[0]];
  }

  lemma ListedQuad(q: string, acc: seq<Group>)
    ensures Listed(q, acc, acc, Some(q), [])
  {
    assert [] + [q] == [q] && acc + [] == acc;
  }

  lemma ListedCons(t: string, h: string, acc: seq<Group>, groups: seq<Group>, quad: Option<string>, more: seq<string>)
    requires H16(h) && |h| < |t| && t[..|h|] == h && t[|h|] == ':'
    requires Listed(t[|h| + 1..], acc + [Groups([h])[0]], groups, quad, more)
    ensures Listed(t, acc, groups, quad, [h] + more)
  {
    GroupsConsAcc(acc, h, more);
    PrependField(':', h, more + QuadField(quad), t);
    assert [h] + more + QuadField(quad) == [h] + (more + QuadField(quad));
  }

  /** What the loop does with a group, if it goes on to accept. */
  lemma AtGroup(t: string, brk: int, acc: seq<Group>)
    requires |acc| <= 7 && -1 <= brk < |acc| && ScanGroups(t, brk, acc).Done?
    requires !(t != [] && t[0] == ':' && brk < 0)
    ensures var j := DigitRun(t, 16, 4);
      && 0 < j <= |t| && H16(t[..j])
      && var acc' := acc + [Groups([t[..j]])[0]];
         if j == |t| then ScanGroups(t, brk, acc) == Done(acc', brk, None)
         else if t[j] == ':' then |acc| < 7 && ScanGroups(t, brk, acc) == ScanGroups(t[j + 1..], brk, acc')
         else ScanGroups(t, brk, acc) == Done(acc, brk, Some(t))
  {
    var h := t[..DigitRun(t, 16, 4)];
    H16Value(h);
    assert Groups([h])[0] == Value(h, 16);
  }

  /** What is left to read after the elision is such a list. */
  lemma {:induction false} ElidedSound(t: string, brk: int, acc: seq<Group>, d: Scanned) returns (r: seq<string>)
    requires 0 <= brk < |acc| <= 7 && d == ScanGroups(t, brk, acc) && d.Done?
    ensures d.brk == brk && Listed(t, acc, d.groups, d.quad, r)
    decreases |t|
  {
    AtGroup(t, brk, acc);
    var j := DigitRun(t, 16, 4);
    var h := t[..j];
    if j == |t| {
      r := [h];
      assert h == t;
      ListedOne(t, acc);
    } else if t[j] == ':' {
      var more := ElidedSound(t[j + 1..], brk, acc + [Groups([h])[0]], d);
      r := [h] + more;
      ListedCons(t, h, acc, d.groups, d.quad, more);
    } else {
      r := [];
      ListedQuad(t, acc);
    }
  }

  lemma PrependLead(h: string, fields: seq<string>, t: string, more: string)
    requires |h| < |t| && t[..|h|] == h && t[|h|] == ':' && t[|h| + 1..] == Lead(':', fields) + more
    ensures t == Lead(':', [h] + fields) + more
  {
    assert ([h] + fields)[1..] == fields;
    assert t == h + [':'] + t[|h| + 1..];
    assert (h + [':'] + Lead(':', fields)) + more == h + [':'] + (Lead(':', fields) + more);
  }

  lemma BeforeColon(x: string, z: string)
    ensures x + ":" + z == x + (":" + z)
  {
  }

  /** Either eight groups' worth of fields, or groups up to an elision and a list after it. */
  ghost predicate TakenApart(t: string, acc: seq<Group>, d: Scanned, l: seq<string>, r: seq<string>)
    requires d.Done?
  {
    && AllH16(l) && AllH16(r)
    && if d.brk < 0 then Listed(t, acc, d.groups, d.quad, l)
       else
         && d.brk == |acc| + |l| && d.groups == acc + Groups(l) + [0] + Groups(r)
         && t == Lead(':', l) + ":" + Join(':', r + QuadField(d.quad))
         && (l == [] ==> t[0] == ':')
  }

  lemma LeadCons(t: string, h: string, l: seq<string>, z: string)
    requires |h| < |t| && t[..|h|] == h && t[|h|] == ':' && t[|h| + 1..] == Lead(':', l) + ":" + z
    ensures t == Lead(':', [h] + l) + ":" + z
  {
    BeforeColon(Lead(':', l), z);
    PrependLead(h, l, t, ":" + z);
    BeforeColon(Lead(':', [h] + l), z);
  }

  /** Puts one more group in front of a text taken apart so far. */
  lemma TakenApartCons(t: string, h: string, acc: seq<Group>, d: Scanned, l: seq<string>, r: seq<string>)
    requires d.Done? && H16(h) && |h| < |t| && t[..|h|] == h && t[|h|] == ':'
    requires TakenApart(t[|h| + 1..], acc + [Groups([h])[0]], d, l, r)
    ensures TakenApart(t, acc, d, [h] + l, r)
  {
    if d.brk < 0 {
      ListedCons(t, h, acc, d.groups, d.quad, l);
    } else {
      GroupsConsAcc(acc, h, l);
      LeadCons(t, h, l, Join(':', r + QuadField(d.quad)));
    }
  }

  /** The elision itself. */
  lemma OpenElision(t: string, acc: seq<Group>) returns (r: seq<string>)
    requires |acc| <= 7 && t != [] && t[0] == ':' && ScanGroups(t, -1, acc).Done?
    ensures TakenApart(t, acc, ScanGroups(t, -1, acc), [], r)
  {
    var d := ScanGroups(t, -1, acc);
    assert acc + Groups([]) == acc;
    if |t| > 1 {
      r := ElidedSound(t[1..], |acc|, acc + [0], d);
      assert t == "" + ":" + t[1..];
    } else {
      r := [];
      assert t == "" + ":" + "" && r + QuadField(d.quad) == [];
      assert d.groups == acc + [0] + Groups(r);
    }
  }

  /** Before any elision. */
  lemma {:induction false} OpenSound(t: string, acc: seq<Group>, d: Scanned) returns (l: seq<string>, r: seq<string>)
    requires |acc| <= 7 && d == ScanGroups(t, -1, acc) && d.Done?
    ensures TakenApart(t, acc, d, l, r)
    decreases |t|
  {
    l, r := [], [];
    if t != [] && t[0] == ':' {
      r := OpenElision(t, acc);
    } else {
      AtGroup(t, -1, acc);
      var j := DigitRun(t, 16, 4);
      var h := t[..j];
      if j == |t| {
        l := [h];
        assert h == t;
        ListedOne(t, acc);
      } else if t[j] == ':' {
        l, r := OpenSound(t[j + 1..], acc + [Groups([h])[0]], d);
        TakenApartCons(t, h, acc, d, l, r);
        l := [h] + l;
      } else {
        ListedQuad(t, acc);
      }
    }
  }

  // ------------------------------------------------------------ what must be accepted

  /** One group followed by its separator is consumed. */
  lemma StepGroup(h: string, rest: string, brk: int, acc: seq<Group>)
    requires H16(h) && |acc| < 7 && -1 <= brk < |acc|
    requires rest != [] && rest[0] == ':'
    ensures ScanGroups(h + rest, brk, acc) == ScanGroups(rest[1..], brk, acc + [Groups([h])[0]])
  {
    DigitRunExact(h, rest, 16, 4);
    assert IsHexDigit(h[0]);
    assert (h + rest)[|h| + 1..] == rest[1..];
    assert Groups([h])[0] == Value(h, 16);
  }

  lemma LastGroup(h: string, brk: int, acc: seq<Group>)
    requires H16(h) && |acc| <= 7 && -1 <= brk < |acc|
    requires brk >= 0 || |acc| == 7
    ensures ScanGroups(h, brk, acc) == Done(acc + [Groups([h])[0]], brk, None)
  {
    DigitRunExact(h, "", 16, 4);
    assert h + "" == h && h[..|h|] == h;
    assert IsHexDigit(h[0]);
    assert Groups([h])[0] == Value(h, 16);
  }

  /** A list of fields that fills the slots, or that follows an elision, is accepted. */
  lemma {:induction false} FieldsComplete(r: seq<string>, quad: Option<string>, brk: int, acc: seq<Group>)
    requires |acc| <= 7 && -1 <= brk < |acc|
    requires AllH16(r) && (quad.Some? ==> DottedStart(quad.value)) && r + QuadField(quad) != []
    requires |acc| + |r| + Words(quad) <= 8 && (brk < 0 ==> |acc| + |r| + Words(quad) == 8)
    ensures ScanGroups(Join(':', r + QuadField(quad)), brk, acc) == Done(acc + Groups(r), brk, quad)
    decreases |r|
  {
    var fields := r + QuadField(quad);
    if r == [] {
      var q := quad.value;
      assert fields == [q] && Join(':', fields) == q;
      assert IsHexDigit(q[0]) by {
        assert q[..DigitRun(q, 16, 4)][0] == q[0];
      }
      assert acc + Groups(r) == acc;
    } else {
      var h, more := r[0], r[1..];
      assert r == [h] + more;
      GroupsConsAcc(acc, h, more);
      if |fields| == 1 {
        assert fields == [h] && Join(':', fields) == h;
        LastGroup(h, brk, acc);
        assert more == [] && Groups(more) == [];
        assert acc + [Groups([h])[0]] + [] == acc + [Groups([h])[0]];
      } else {
        var fields' := more + QuadField(quad);
        assert fields == [h] + fields' && fields[1..] == fields';
        TailJoin(':', fields');
        StepGroup(h, Tail(':', fields'), brk, acc);
        FieldsComplete(more, quad, brk, acc + [Groups([h])[0]]);
      }
    }
  }

  /** An elision takes the next slot. */
  lemma StepElision(rest: string, acc: seq<Group>)
    requires |acc| <= 7 && (rest != "" ==> |acc| < 7)
    ensures ScanGroups(":" + rest, -1, acc) ==
      if rest == "" then Done(acc + [0], |acc|, None) else ScanGroups(rest, |acc|, acc + [0])
  {
    assert (":" + rest)[1..] == rest;
  }

  lemma LeadConsText(h: string, more: seq<string>, z: string)
    ensures Lead(':', [h] + more) + z == h + ([':'] + (Lead(':', more) + z))
  {
    assert ([h] + more)[1..] == more;
    Regroup(h, [':'], Lead(':', more), z);
    Associate(h, [':'], Lead(':', more) + z);
    Associate(h + [':'], Lead(':', more), z);
  }

  /** The first of several groups before an elision is consumed. */
  lemma StepLead(l: seq<string>, rest: string, acc: seq<Group>)
    requires AllH16(l) && l != [] && |acc| < 7
    ensures ScanGroups(Lead(':', l) + (":" + rest), -1, acc) ==
      ScanGroups(Lead(':', l[1..]) + (":" + rest), -1, acc + [Groups([l[0]])[0]])
  {
    var t' := Lead(':', l[1..]) + (":" + rest);
    assert l == [l[0]] + l[1..];
    LeadConsText(l[0], l[1..], ":" + rest);
    StepGroup(l[0], [':'] + t', -1, acc);
    Behead([':'], t');
  }

  lemma GroupsUncons(acc: seq<Group>, l: seq<string>)
    requires AllH16(l) && l != []
    ensures acc + [Groups([l[0]])[0]] + Groups(l[1..]) == acc + Groups(l)
  {
    assert l == [l[0]] + l[1..];
    GroupsConsAcc(acc, l[0], l[1..]);
  }

  /** Groups up to an elision are consumed, and the elision takes the next slot. */
  lemma {:induction false} ReachElision(l: seq<string>, rest: string, acc: seq<Group>, all: seq<Group>)
    requires AllH16(l) && all == acc + Groups(l) && |all| <= 7 && (rest != "" ==> |all| < 7)
    ensures ScanGroups(Lead(':', l) + (":" + rest), -1, acc) ==
      if rest == "" then Done(all + [0], |all|, None) else ScanGroups(rest, |all|, all + [0])
    decreases |l|
  {
    if l == [] {
      assert Lead(':', l) + (":" + rest) == ":" + rest;
      assert all == acc;
      StepElision(rest, acc);
    } else {
      StepLead(l, rest, acc);
      GroupsUncons(acc, l);
      ReachElision(l[1..], rest, acc + [Groups([l[0]])[0]], all);
    }
  }

  // ------------------------------------------------------------ the language, exactly

  lemma ExpandMeaning(l: seq<string>, r: seq<string>, total: nat)
    requires AllH16(l) && AllH16(r) && |l| + 1 + |r| <= total
    ensures GroupBytes(Expand(Groups(l) + [0] + Groups(r), |l|, total))
      == GroupBytes(Groups(l)) + ZeroBytes(2 * (total - |l| - |r|)) + GroupBytes(Groups(r))
  {
    var a, b := Groups(l), Groups(r);
    var n := total - |l| - |r|;
    var zeros := ZeroGroups(n);
    assert Expand(a + [0] + b, |l|, total) == a + zeros + b;
    GroupBytesSplit(a + zeros, b);
    GroupBytesSplit(a, zeros);
    GroupBytesZeros(n);
  }

  ghost function QuadOf(octets: seq<string>): Option<string> {
    if octets == [] then None else Some(Join('.', octets))
  }

  /** The slots that count once a form has been scanned: its groups, and a zero where the elision is. */
  ghost function SlotsOf(f: Form): seq<Group>
    requires WellFormed(f)
  {
    if f.elided then Groups(f.left) + [0] + Groups(f.right) else Groups(f.left)
  }

  ghost function ElisionOf(f: Form): int {
    if f.elided then |f.left| else -1
  }

  lemma PlainMeaning(f: Form)
    requires WellFormed(f) && !f.elided
    ensures Meaning(f) == GroupBytes(Groups(f.left)) + Octets(f.octets)
  {
    assert ZeroBytes(16 - 2 * (|f.left| + |f.right| + Width(f.octets))) == [];
    assert GroupBytes(Groups(f.right)) == [];
    var x, y := GroupBytes(Groups(f.left)), Octets(f.octets);
    assert x + [] + [] + y == x + y;
  }

  lemma ElidedMeaning(f: Form)
    requires WellFormed(f) && f.elided
    ensures Meaning(f) ==
      GroupBytes(Expand(Groups(f.left) + [0] + Groups(f.right), |f.left|, 8 - Width(f.octets))) + Octets(f.octets)
  {
    var total := 8 - Width(f.octets);
    var zeros := 2 * (total - |f.left| - |f.right|);
    assert 16 - 2 * (|f.left| + |f.right| + Width(f.octets)) == zeros;
    assert Meaning(f) == GroupBytes(Groups(f.left)) + ZeroBytes(zeros) + GroupBytes(Groups(f.right)) + Octets(f.octets);
    ExpandMeaning(f.left, f.right, total);
  }

  /** The bytes a finished scan stands for are the meaning of the form it was read from. */
  lemma DoneMeaning(f: Form)
    requires WellFormed(f)
    ensures |SlotsOf(f)| <= 8 - Width(f.octets) && ElisionOf(f) < |SlotsOf(f)|
    ensures !f.elided ==> |SlotsOf(f)| == 8 - Width(f.octets)
    ensures Meaning(f) == GroupBytes(Expand(SlotsOf(f), ElisionOf(f), 8 - Width(f.octets))) + Octets(f.octets)
  {
    if f.elided {
      ElidedMeaning(f);
    } else {
      PlainMeaning(f);
    }
  }

  lemma FormOfFields(text: string, l: seq<string>, elided: bool, r: seq<string>, quad: Option<string>) returns (f: Form)
    requires AllH16(l) && AllH16(r)
    requires if elided then |l| + |r| + Words(quad) <= 7 && text == Join(':', l) + "::" + Join(':', r + QuadField(quad))
      else r == [] && |l| + Words(quad) == 8 && text == Join(':', l + QuadField(quad))
    requires QuadBytes(quad).Some?
    ensures WellFormed(f) && Render(f) == text && f.left == l && f.elided == elided && f.right == r
    ensures Width(f.octets) == Words(quad) && Octets(f.octets) == QuadBytes(quad).value
  {
    var o := [];
    if quad.Some? {
      o := QuadSound(quad.value, []);
      assert [] + Octets(o) == Octets(o);
    }
    assert QuadField(quad) == Dotted(o);
    f := Form(l, elided, r, o);
  }

  lemma LeadColon(x: string, z: string)
    ensures x + [':'] + ":" + z == x + "::" + z
  {
  }

  lemma ElisionFirst(text: string, fields: seq<string>)
    requires |text| > 2 && text[0] == ':' && text[1] == ':' && text[2..] == Join(':', fields)
    ensures text == Join(':', []) + "::" + Join(':', fields)
  {
    assert text == "" + "::" + text[2..];
  }

  lemma LeadingElisionSound(text: string) returns (r: seq<string>)
    requires ScanText(text).Done? && text != [] && text[0] == ':'
    ensures AllH16(r)
    ensures var d := ScanText(text);
      && d.brk == 0 && d.groups == Groups([]) + [0] + Groups(r)
      && text == Join(':', []) + "::" + Join(':', r + QuadField(d.quad))
  {
    var d := ScanText(text);
    if |text| > 2 {
      assert text[1..][1..] == text[2..] && [] + [0] == [0];
      r := ElidedSound(text[2..], 0, [0], d);
      ElisionFirst(text, r + QuadField(d.quad));
    } else {
      r := [];
      assert text == "::" && r + QuadField(d.quad) == [];
    }
    assert Groups([]) + [0] + Groups(r) == [0] + Groups(r);
  }

  /** A finished scan tells how the text is put together. */
  lemma ScanTextSound(text: string) returns (l: seq<string>, r: seq<string>)
    requires ScanText(text).Done?
    ensures AllH16(l) && AllH16(r)
    ensures var d := ScanText(text);
      if d.brk < 0 then r == [] && d.groups == Groups(l) && text == Join(':', l + QuadField(d.quad))
      else
        && d.brk == |l| && d.groups == Groups(l) + [0] + Groups(r)
        && text == Join(':', l) + "::" + Join(':', r + QuadField(d.quad))
  {
    var d := ScanText(text);
    if text != [] && text[0] == ':' {
      l := [];
      r := LeadingElisionSound(text);
    } else {
      l, r := OpenSound(text, [], d);
      assert [] + Groups(l) == Groups(l);
      if d.brk < 0 {
        r := [];
      } else {
        var z := Join(':', r + QuadField(d.quad));
        LeadIsJoin(':', l);
        LeadColon(Join(':', l), z);
      }
    }
  }

  lemma ScannedForm(text: string) returns (f: Form)
    requires Parse6(text).Some?
    ensures WellFormed(f) && Render(f) == text
    ensures var d := ScanText(text);
      && d.Done? && d.groups == SlotsOf(f) && d.brk == ElisionOf(f) && Words(d.quad) == Width(f.octets)
      && Octets(f.octets) == QuadBytes(d.quad).value
  {
    var d := ScanText(text);
    var l, r := ScanTextSound(text);
    f := FormOfFields(text, l, d.brk >= 0, r, d.quad);
  }

  /** What the parser accepts is in the grammar, and the bytes are what the text denotes. */
  lemma ParseSound(text: string) returns (f: Form)
    requires Parse6(text).Some?
    ensures WellFormed(f) && Render(f) == text && Meaning(f) == Parse6(text).value
  {
    f := ScannedForm(text);
    DoneMeaning(f);
  }

  lemma DottedStartOfOctets(o: seq<string>)
    requires |o| == 4 && AllOctets(o)
    ensures DottedStart(Join('.', o))
  {
    DecOctetCanonical(o[0]);
    TailJoin('.', o[1..]);
    assert AllDigits(o[0], 16);
    DigitRunExact(o[0], Tail('.', o[1..]), 16, 4);
  }

  /** An elided text is scanned from just before its second colon, whether or not groups come first. */
  lemma EnterElision(left: seq<string>, rest: string)
    requires AllH16(left)
    ensures ScanText(Join(':', left) + "::" + rest) == ScanGroups(Lead(':', left) + ":" + rest, -1, [])
  {
    var text, inner := Join(':', left) + "::" + rest, Lead(':', left) + ":" + rest;
    if left == [] {
      assert text == "::" + rest && text[1..] == inner;
    } else {
      LeadIsJoin(':', left);
      LeadColon(Join(':', left), rest);
      assert IsHexDigit(left[0][0]) && text[0] == left[0][0];
    }
  }

  lemma FieldsNotEmpty(r: seq<string>, quad: Option<string>)
    requires AllH16(r) && (quad.Some? ==> DottedStart(quad.value))
    requires r + QuadField(quad) != []
    ensures Join(':', r + QuadField(quad)) != ""
  {
    if r != [] {
      assert |r[0]| > 0 && (r + QuadField(quad))[0] == r[0];
    } else {
      assert r + QuadField(quad) == [quad.value];
    }
  }

  lemma ScanElided(l: seq<string>, r: seq<string>, quad: Option<string>)
    requires AllH16(l) && AllH16(r) && (quad.Some? ==> DottedStart(quad.value)) && |l| + |r| + Words(quad) <= 7
    ensures ScanText(Join(':', l) + "::" + Join(':', r + QuadField(quad))) ==
      Done(Groups(l) + [0] + Groups(r), |l|, quad)
  {
    var rest := Join(':', r + QuadField(quad));
    var acc := Groups(l) + [0];
    assert [] + Groups(l) == Groups(l);
    EnterElision(l, rest);
    BeforeColon(Lead(':', l), rest);
    ReachElision(l, rest, [], Groups(l));
    if r + QuadField(quad) != [] {
      FieldsNotEmpty(r, quad);
      FieldsComplete(r, quad, |l|, acc);
    } else {
      assert r == [] && Groups(r) == [] && acc + [] == acc;
    }
  }

  lemma ScanPlain(l: seq<string>, quad: Option<string>)
    requires AllH16(l) && (quad.Some? ==> DottedStart(quad.value)) && |l| + Words(quad) == 8
    ensures ScanText(Join(':', l + QuadField(quad))) == Done(Groups(l), -1, quad)
  {
    FieldsComplete(l, quad, -1, []);
    assert [] + Groups(l) == Groups(l);
    var text := Join(':', l + QuadField(quad));
    assert (l + QuadField(quad))[0] == l[0] && IsHexDigit(l[0][0]);
    assert text[0] == l[0][0];
  }

  /** The scan of a text put together from a form finds that form. */
  lemma ScanTextComplete(f: Form)
    requires WellFormed(f)
    ensures ScanText(Render(f)) == Done(SlotsOf(f), ElisionOf(f), QuadOf(f.octets))
  {
    if f.octets != [] {
      DottedStartOfOctets(f.octets);
    }
    if f.elided {
      ScanElided(f.left, f.right, QuadOf(f.octets));
    } else {
      ScanPlain(f.left, QuadOf(f.octets));
    }
    assert QuadField(QuadOf(f.octets)) == Dotted(f.octets);
  }

  lemma OctetsRead(o: seq<string>)
    requires AllOctets(o) && (o == [] || |o| == 4)
    ensures QuadBytes(QuadOf(o)) == Some(Octets(o)) && Words(QuadOf(o)) == Width(o)
  {
    if o != [] {
      QuadComplete(o, []);
      var bytes := Octets(o);
      assert [] + bytes == bytes;
    }
  }

  /** Everything in the grammar is accepted, with the bytes it denotes. */
  lemma ParseComplete(f: Form)
    requires WellFormed(f)
    ensures Parse6(Render(f)) == Some(Meaning(f))
  {
    ScanTextComplete(f);
    OctetsRead(f.octets);
    DoneMeaning(f);
  }

  /** The parser accepts exactly the IPv6address of RFC 3986. */
  lemma ParseExact(text: string)
    ensures Parse6(text).Some? <==> IPv6address(text)
  {
    GrammarIsForms(text);
    if Parse6(text).Some? {
      var f := ParseSound(text);
    }
    forall f | WellFormed(f) && Render(f) == text
      ensures Parse6(text).Some?
    {
      ParseComplete(f);
    }
  }

  /** However a text is read as an IPv6address, the parser gives the bytes it denotes. */
  lemma ParseMeaning(text: string)
    ensures forall f :: WellFormed(f) && Render(f) == text ==> Parse6(text) == Some(Meaning(f))
  {
    forall f | WellFormed(f) && Render(f) == text
      ensures Parse6(text) == Some(Meaning(f))
    {
      ParseComplete(f);
    }
  }

  /** However a text is read as an IPv4address, the parser gives its octets. */
  lemma QuadMeaning(text: string)
    ensures forall o :: |o| == 4 && AllOctets(o) && text == Join('.', o) ==> ScanQuad(text, []) == Some(Octets(o))
  {
    forall o | |o| == 4 && AllOctets(o) && text == Join('.', o)
      ensures ScanQuad(text, []) == Some(Octets(o))
    {
      QuadComplete(o, []);
      assert [] + Octets(o) == Octets(o);
    }
  }

  /** The dotted-quad parser accepts exactly the IPv4address of RFC 3986. */
  lemma QuadExact(text: string)
    ensures ScanQuad(text, []).Some? <==> IPv4address(text)
  {
    if ScanQuad(text, []).Some? {
      var o := QuadSound(text, []);
    }
    QuadMeaning(text);
  }
}
