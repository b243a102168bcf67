/** inet_pton: the pointer-walking parser, over the caller's buffers. */
module InetPton {
  import opened Text
  import opened Grammar
  import opened Scan

  /** The unsigned value a (signed) char is converted to. */
  function ToUnsigned(c: char): int
    requires c as int < 0x100
  {
    if c as int < 0x80 then c as int else c as int + 0xFFFF_FF00
  }

  /** One comparison per range, in wrapping 32-bit arithmetic, recognises exactly the hex digits. */
  function Hexval(c: char): (d: int)
    requires c as int < 0x100
    ensures d == if IsHexDigit(c) then DigitValue(c) else -1
  {
    var u := ToUnsigned(c);
    if (u - 48) % 0x1_0000_0000 < 10 then u - 48
    else
      var lower := if u / 32 % 2 == 0 then u + 32 else u;
      if (lower - 97) % 0x1_0000_0000 < 6 then lower - 97 + 10 else -1
  }

  /** Reads the digits of an octet, at most three. */
  method ReadDecimal(buf: seq<char>, s: nat) returns (v: nat, j: nat)
    requires IsCString(buf) && s < |buf|
    ensures j == DigitRun(Rest(buf, s), 10, 3) && v == Value(Rest(buf, s)[..j], 10)
  {
    ghost var t := Rest(buf, s);
    v, j := 0, 0;
    NothingRead(t, 10, 3);
    while j < 3 && IsDigit(buf[s + j])
      invariant ReadSoFar(t, 10, 3, j, v)
    {
      ReadOneMore(t, 10, 3, j, v);
      v := 10 * v + (buf[s + j] as int - '0' as int);
      j := j + 1;
    }
    ReadAll(t, 10, 3, j, v);
  }

  /** Reads the hex digits of a group, at most four. */
  method ReadHex(buf: seq<char>, s: nat) returns (v: nat, j: nat)
    requires IsCString(buf) && s < |buf|
    ensures j == DigitRun(Rest(buf, s), 16, 4) && v == Value(Rest(buf, s)[..j], 16)
    ensures v < 0x1_0000
  {
    ghost var t := Rest(buf, s);
    v, j := 0, 0;
    NothingRead(t, 16, 4);
    while j < 4 && Hexval(buf[s + j]) >= 0
      invariant ReadSoFar(t, 16, 4, j, v)
    {
      ReadOneMore(t, 16, 4, j, v);
      v := 16 * v + Hexval(buf[s + j]);
      j := j + 1;
    }
    ReadAll(t, 16, 4, j, v);
    if j > 0 {
      H16Value(t[..j]);
    }
  }

  /** Only the `n` bytes at `off` may differ. */
  ghost predicate Kept(now: seq<Byte>, was: seq<Byte>, off: nat, n: nat) {
    |now| == |was| && forall k :: 0 <= k < |now| && !(off <= k < off + n) ==> now[k] == was[k]
  }

  /** The octets read so far stand in the buffer; how they and the rest of the text give `result`. */
  ghost predicate Reading(result: Option<seq<Byte>>, buf: seq<char>, s: nat, i: nat,
                          a: seq<Byte>, off: nat, was: seq<Byte>)
  {
    && IsCString(buf) && s < |buf| && i <= 4 && off + 4 <= |a| && Kept(a, was, off, 4)
    && result == if i < 4 then ScanQuad(Rest(buf, s), a[off..off + i]) else None
  }

  /** One turn of the loop over the octets, `v` and `j` being what it reads. */
  lemma QuadTurn(result: Option<seq<Byte>>, buf: seq<char>, s: nat, i: nat,
                 a: seq<Byte>, off: nat, was: seq<Byte>, v: nat, j: nat)
    requires Reading(result, buf, s, i, a, off, was) && i < 4
    requires j == DigitRun(Rest(buf, s), 10, 3) && v == Value(Rest(buf, s)[..j], 10)
    ensures
      if j == 0 || (j > 1 && buf[s] == '0') || v > 255 then result == None
      else
        && s + j < |buf|
        && Kept(a[off + i := v], was, off, 4)
        && if buf[s + j] == '\0' && i == 3 then result == Some(a[off + i := v][off..off + 4])
           else if buf[s + j] != '.' then result == None
           else Reading(result, buf, s + j + 1, i + 1, a[off + i := v], off, was)
  {
    var t := Rest(buf, s);
    assert j < |t| ==> t[j] == buf[s + j] && t[j + 1..] == Rest(buf, s + j + 1);
    if v <= 255 {
      assert a[off + i := v][off..off + i + 1] == a[off..off + i] + [v];
    }
  }

  /** The AF_INET branch. */
  method ParseQuad(buf: seq<char>, start: nat, a: array<Byte>, off: nat) returns (rc: int)
    requires IsCString(buf) && start < |buf| && off + 4 <= a.Length
    modifies a
    ensures rc == if ScanQuad(Rest(buf, start), []).Some? then 1 else 0
    ensures rc == 1 ==> ScanQuad(Rest(buf, start), []) == Some(a[off..off + 4])
    ensures Kept(a[..], old(a[..]), off, 4)
  {
    var s: nat := start;
    ghost var result := ScanQuad(Rest(buf, start), []);
    for i := 0 to 4
      invariant Reading(result, buf, s, i, a[..], off, old(a[..]))
    {
      var v, j := ReadDecimal(buf, s);
      QuadTurn(result, buf, s, i, a[..], off, old(a[..]), v, j);
      if j == 0 || (j > 1 && buf[s] == '0') || v > 255 {
        return 0;
      }
      a[off + i] := v;
      if buf[s + j] == '\0' && i == 3 {
        return 1;
      }
      if buf[s + j] != '.' {
        return 0;
      }
      s := s + j + 1;
    }
    return 0;
  }

  /** How one turn of the group loop ends: `return 0`, `break`, or another turn. */
  datatype Turn = Fail | Stop | Again

  /** What the group loop keeps: how the slots filled so far and the rest of the text give `result`. */
  ghost predicate Filling(result: Scanned, buf: seq<char>, turn: Turn, s: nat,
                          ip: seq<Group>, i: nat, brk: int, needV4: bool)
  {
    && IsCString(buf) && s < |buf| && |ip| == 8 && i <= 7
    && match turn
       case Fail => result == Reject
       case Stop =>
         && (needV4 ==> i > 0)
         && result == if needV4 then Done(ip[..i - 1], brk, Some(Rest(buf, s))) else Done(ip[..i + 1], brk, None)
       case Again =>
         && !needV4 && -1 <= brk < i
         && result == ScanGroups(Rest(buf, s), brk, ip[..i])
  }

  /** A turn of the loop at the first elision. */
  method TurnElision(buf: seq<char>, s0: nat, ip: array<Group>, i0: nat, ghost result: Scanned)
    returns (turn: Turn, s: nat, i: nat)
    requires Filling(result, buf, Again, s0, ip[..], i0, -1, false) && buf[s0] == ':'
    modifies ip
    ensures Filling(result, buf, turn, s, ip[..], i, i0, false)
    ensures s > s0
  {
    ghost var t := Rest(buf, s0);
    s, i := s0 + 1, i0;
    assert t[0] == ':' && t[1..] == Rest(buf, s);
    ip[i % 8] := 0;
    assert ip[..i + 1] == old(ip[..i0]) + [0];
    if buf[s] == '\0' {
      return Stop, s, i;
    }
    if i == 7 {
      return Fail, s, i;
    }
    return Again, s, i + 1;
  }

  /** How a turn at a group ends, `v` and `j` being what it reads and `ip'` the slots with `v` stored. */
  lemma GroupTurn(result: Scanned, buf: seq<char>, s: nat, ip: seq<Group>, i: nat, brk: int,
                  v: Group, j: nat, ip': seq<Group>)
    requires Filling(result, buf, Again, s, ip, i, brk, false) && !(buf[s] == ':' && brk < 0)
    requires j == DigitRun(Rest(buf, s), 16, 4) && v == Value(Rest(buf, s)[..j], 16) && ip' == ip[i := v]
    ensures
      if j == 0 then result == Reject
      else
        && s + j < |buf|
        && if buf[s + j] == '\0' && (brk >= 0 || i == 7) then Filling(result, buf, Stop, s, ip', i, brk, false)
           else if i == 7 then result == Reject
           else if buf[s + j] == ':' then Filling(result, buf, Again, s + j + 1, ip', i + 1, brk, false)
           else if buf[s + j] != '.' || (i < 6 && brk < 0) then result == Reject
           else Filling(result, buf, Stop, s, ip', i + 1, brk, true)
  {
    var t := Rest(buf, s);
    assert t != [] ==> t[0] == buf[s];
    assert j < |t| ==> t[j] == buf[s + j] && t[j + 1..] == Rest(buf, s + j + 1);
    assert ip'[..i] == ip[..i] && ip'[..i + 1] == ip[..i] + [v];
  }

  /** A turn of the loop at a group, or at the first octet of a dotted end. */
  method TurnGroup(buf: seq<char>, s0: nat, ip: array<Group>, i0: nat, brk: int, ghost result: Scanned)
    returns (turn: Turn, s: nat, i: nat, needV4: bool)
    requires Filling(result, buf, Again, s0, ip[..], i0, brk, false) && !(buf[s0] == ':' && brk < 0)
    modifies ip
    ensures Filling(result, buf, turn, s, ip[..], i, brk, needV4)
    ensures turn == Again ==> s > s0
  {
    ghost var slots := ip[..];
    s, i, needV4 := s0, i0, false;
    var v, j := ReadHex(buf, s);
    GroupTurn(result, buf, s, slots, i, brk, v, j, slots[i := v]);
    if j == 0 {
      return Fail, s, i, false;
    }
    ip[i % 8] := v;
    assert ip[..] == slots[i := v];
    if buf[s + j] == '\0' && (brk >= 0 || i == 7) {
      return Stop, s, i, false;
    }
    if i == 7 {
      return Fail, s, i, false;
    }
    if buf[s + j] != ':' {
      if buf[s + j] != '.' || (i < 6 && brk < 0) {
        return Fail, s, i, false;
      }
      return Stop, s, i + 1, true;
    }
    return Again, s + j + 1, i + 1, false;
  }

  /** The group loop: fills slots of `ip`, whatever they held before. */
  method ReadGroups(buf: seq<char>, start: nat, ip: array<Group>)
    returns (ok: bool, s: nat, i: nat, brk: int, needV4: bool)
    requires IsCString(buf) && start < |buf| && ip.Length == 8
    modifies ip
    ensures Filling(ScanGroups(Rest(buf, start), -1, []), buf, if ok then Stop else Fail, s, ip[..], i, brk, needV4)
  {
    s, i, brk, needV4 := start, 0, -1, false;
    var turn := Again;
    ghost var result := ScanGroups(Rest(buf, start), -1, []);
    assert ip[..][..0] == [];
    while turn == Again
      invariant Filling(result, buf, turn, s, ip[..], i, brk, needV4)
      decreases turn == Again, |buf| - s
    {
      if buf[s] == ':' && brk < 0 {
        var slot := i;
        turn, s, i := TurnElision(buf, s, ip, i, result);
        brk := slot;
      } else {
        turn, s, i, needV4 := TurnGroup(buf, s, ip, i, brk, result);
      }
    }
    ok := turn == Stop;
  }

  lemma MovedUp(was: seq<Group>, moved: seq<Group>, brk: nat, i: nat)
    requires |was| == 8 && brk <= i <= 7 && moved == was[..brk + 7 - i] + was[brk..i + 1]
    ensures |moved| == 8 && moved[..brk] == was[..brk] && moved[brk + (7 - i)..] == was[brk..i + 1]
  {
  }

  /** `j` slots from `brk` on are zero. */
  ghost function Zeroed(moved: seq<Group>, brk: nat, j: nat): seq<Group>
    requires brk + j <= |moved|
  {
    moved[..brk] + ZeroGroups(j) + moved[brk + j..]
  }

  lemma ZeroedNext(moved: seq<Group>, brk: nat, j: nat)
    requires brk + j < |moved|
    ensures |Zeroed(moved, brk, j)| == |moved| && Zeroed(moved, brk, j)[brk + j := 0] == Zeroed(moved, brk, j + 1)
  {
  }

  /** `::` is widened in place: an overlapping move to the end, then zeros. */
  method WidenElision(ip: array<Group>, brk: nat, i: nat)
    requires ip.Length == 8 && brk <= i <= 7
    modifies ip
    ensures ip[..] == old(ip[..brk]) + ZeroGroups(7 - i) + old(ip[brk..i + 1])
  {
    ghost var was := ip[..];
    Memmove(ip, brk + 7 - i, brk, i + 1 - brk);
    ghost var moved := ip[..];
    MovedUp(was, moved, brk, i);
    for j := 0 to 7 - i
      invariant ip[..] == Zeroed(moved, brk, j)
    {
      ZeroedNext(moved, brk, j);
      ip[brk + j] := 0;
    }
  }

  /** Moving all eight slots widens the elision of those that count. */
  lemma WidenedIsExpanded(was: seq<Group>, brk: nat, i: nat, n: nat, total: nat)
    requires |was| == 8 && brk < n <= i + 1 <= 8 && total == n + 7 - i
    ensures (was[..brk] + ZeroGroups(7 - i) + was[brk..i + 1])[..total] == Expand(was[..n], brk, total)
  {
    var groups := was[..n];
    assert groups[..brk] == was[..brk];
    assert groups[brk..] == was[brk..i + 1][..n - brk];
  }

  lemma OneGroupMore(ip: seq<Group>, j: nat)
    requires j < |ip|
    ensures GroupBytes(ip[..j + 1]) == GroupBytes(ip[..j]) + [ip[j] / 256, ip[j] % 256]
  {
    GroupBytesSplit(ip[..j], [ip[j]]);
    assert ip[..j + 1] == ip[..j] + [ip[j]];
    assert GroupBytes([ip[j]]) == [ip[j] / 256, ip[j] % 256];
  }

  /** The eight slots as sixteen bytes, high half first. */
  method StoreGroups(ip: array<Group>, a: array<Byte>, off: nat)
    requires ip.Length == 8 && off + 16 <= a.Length && a as object != ip
    modifies a
    ensures a[off..off + 16] == GroupBytes(ip[..])
    ensures Kept(a[..], old(a[..]), off, 16)
  {
    for j := 0 to 8
      invariant a[off..off + 2 * j] == GroupBytes(ip[..j])
      invariant Kept(a[..], old(a[..]), off, 16)
    {
      OneGroupMore(ip[..], j);
      ghost var stored := a[off..off + 2 * j];
      a[off + 2 * j] := ip[j] / 256;
      a[off + 2 * j + 1] := ip[j] % 256;
      assert a[off..off + 2 * (j + 1)] == stored + [ip[j] / 256, ip[j] % 256];
    }
    assert ip[..8] == ip[..];
  }

  /** Widens the elision, if there is one, and stores; only `total` of the slots count. */
  method FinishSlots(ip: array<Group>, i: nat, brk: int, a: array<Byte>, off: nat, ghost total: nat)
    requires ip.Length == 8 && off + 16 <= a.Length && a as object != ip
    requires i <= 7 && -1 <= brk <= total - (7 - i) - 1 && 7 - i < total <= 8 && (brk < 0 ==> i == 7)
    modifies ip, a
    ensures a[off..off + 16][..2 * total] == GroupBytes(Expand(old(ip[..])[..total - (7 - i)], brk, total))
    ensures Kept(a[..], old(a[..]), off, 16)
  {
    ghost var was := ip[..];
    ghost var n := total - (7 - i);
    assert was[..n] == ip[..n];
    if brk >= 0 {
      WidenedIsExpanded(was, brk, i, n, total);
      WidenElision(ip, brk, i);
    }
    ghost var now := ip[..];
    assert now[..total] == Expand(was[..n], brk, total);
    StoreGroups(ip, a, off);
    GroupBytesSplit(now[..total], now[total..]);
    assert now == now[..total] + now[total..];
  }

  /** The bytes stored for a finished scan; of those a dotted end covers nothing is said. */
  ghost predicate Stored(d: Scanned, quad: Option<string>, bytes: seq<Byte>) {
    && d.Done? && d.quad == quad && |bytes| == 16
    && |d.groups| + Words(quad) <= 8 && -1 <= d.brk < |d.groups| && (d.brk < 0 ==> |d.groups| + Words(quad) == 8)
    && bytes[..16 - 2 * Words(quad)] == GroupBytes(Expand(d.groups, d.brk, 8 - Words(quad)))
  }

  /** Reads the groups, after the check that a leading ':' is half of an elision. */
  method ReadText(buf: seq<char>, start: nat, ip: array<Group>)
    returns (ok: bool, s: nat, i: nat, brk: int, needV4: bool)
    requires IsCString(buf) && start < |buf| && ip.Length == 8
    modifies ip
    ensures Filling(ScanText(Rest(buf, start)), buf, if ok then Stop else Fail, s, ip[..], i, brk, needV4)
  {
    s := start;
    if buf[s] == ':' {
      s := s + 1;
      if buf[s] != ':' {
        return false, s, 0, -1, false;
      }
      assert Rest(buf, start)[1..] == Rest(buf, s);
    }
    ok, s, i, brk, needV4 := ReadGroups(buf, s, ip);
  }

  /** The AF_INET6 branch up to a dotted end. */
  method ParseSlots(buf: seq<char>, start: nat, a: array<Byte>, off: nat) returns (ok: bool, s: nat, needV4: bool)
    requires IsCString(buf) && start < |buf| && off + 16 <= a.Length
    modifies a
    ensures ok == ScanText(Rest(buf, start)).Done? && s < |buf|
    ensures ok ==> Stored(ScanText(Rest(buf, start)), if needV4 then Some(Rest(buf, s)) else None, a[off..off + 16])
    ensures Kept(a[..], old(a[..]), off, 16)
  {
    var ip := new Group[8];
    var i: nat, brk: int;
    ok, s, i, brk, needV4 := ReadText(buf, start, ip);
    if ok {
      FinishSlots(ip, i, brk, a, off, if needV4 then 6 else 8);
    }
  }

  lemma Adjacent<T>(a: seq<T>, x: nat, y: nat, z: nat)
    requires x <= y <= z <= |a|
    ensures a[x..z] == a[x..y] + a[y..z]
  {
  }

  /** What is stored for the groups, and then the octets of the dotted end, are what the text parses to. */
  lemma DottedBytes(text: string, q: string, stored: seq<Byte>)
    requires Stored(ScanText(text), Some(q), stored)
    ensures Parse6(text) ==
      if ScanQuad(q, []).Some? then Some(stored[..12] + ScanQuad(q, []).value) else None
  {
  }

  lemma PlainBytes(text: string, stored: seq<Byte>)
    requires Stored(ScanText(text), None, stored)
    ensures Parse6(text) == Some(stored)
  {
    assert stored[..16] + [] == stored;
  }

  lemma FirstTwelve(now: seq<Byte>, off: nat, stored: seq<Byte>)
    requires off + 16 <= |now| && |stored| == 16 && forall k :: 0 <= k < 12 ==> now[off + k] == stored[k]
    ensures now[off..off + 16] == stored[..12] + now[off + 12..off + 16]
  {
    Adjacent(now, off, off + 12, off + 16);
    assert now[off..off + 12] == stored[..12];
  }

  /** `bytes` are the octets of `text`, however it is read as an IPv4address. */
  ghost predicate Denotes4(text: string, bytes: seq<Byte>) {
    forall o :: |o| == 4 && AllOctets(o) && text == Join('.', o) ==> bytes == Octets(o)
  }

  /** `bytes` are what `text` denotes, however it is read as an IPv6address. */
  ghost predicate Denotes6(text: string, bytes: seq<Byte>) {
    forall f :: WellFormed(f) && Render(f) == text ==> bytes == Meaning(f)
  }

  /** inet_pton: accepts exactly the RFC's addresses, and stores what the text denotes. */
  method InetPton(af: int, buf: seq<char>, s: nat, a: array<Byte>, off: nat) returns (rc: int)
    requires IsCString(buf) && s < |buf|
    requires af == 2 ==> off + 4 <= a.Length
    requires af == 10 ==> off + 16 <= a.Length
    modifies a
    ensures af == 2 ==>
      && rc == (if IPv4address(Rest(buf, s)) then 1 else 0)
      && (rc == 1 ==> ScanQuad(Rest(buf, s), []) == Some(a[off..off + 4]))
      && (rc == 1 ==> Denotes4(Rest(buf, s), a[off..off + 4]))
      && Kept(a[..], old(a[..]), off, 4)
    ensures af == 10 ==>
      && rc == (if IPv6address(Rest(buf, s)) then 1 else 0)
      && (rc == 1 ==> Denotes6(Rest(buf, s), a[off..off + 16]))
      && Kept(a[..], old(a[..]), off, 16)
    ensures af != 2 && af != 10 ==> rc == -1 && a[..] == old(a[..])
    decreases if af == 10 then 3 else 0
  {
    if af == AF_INET {
      rc := ParseQuad(buf, s, a, off);
      QuadExact(Rest(buf, s));
      QuadMeaning(Rest(buf, s));
    } else if af != AF_INET6 {
      rc := -1;
    } else {
      rc := ParseGroups(buf, s, a, off);
      ParseExact(Rest(buf, s));
      ParseMeaning(Rest(buf, s));
    }
  }

  /** The function re-entered for a dotted end. */
  method ParseDotted(buf: seq<char>, s: nat, a: array<Byte>, off: nat) returns (ok: bool)
    requires IsCString(buf) && s < |buf| && off + 4 <= a.Length
    modifies a
    ensures ScanQuad(Rest(buf, s), []) == if ok then Some(a[off..off + 4]) else None
    ensures Kept(a[..], old(a[..]), off, 4)
    decreases 1
  {
    var r := InetPton(AF_INET, buf, s, a, off);
    QuadExact(Rest(buf, s));
    ok := r > 0;
  }

  /** The AF_INET6 branch. */
  method ParseGroups(buf: seq<char>, start: nat, a: array<Byte>, off: nat) returns (rc: int)
    requires IsCString(buf) && start < |buf| && off + 16 <= a.Length
    modifies a
    ensures rc == if Parse6(Rest(buf, start)).Some? then 1 else 0
    ensures rc == 1 ==> Parse6(Rest(buf, start)) == Some(a[off..off + 16])
    ensures Kept(a[..], old(a[..]), off, 16)
    decreases 2
  {
    var ok, s, needV4 := ParseSlots(buf, start, a, off);
    if !ok {
      return 0;
    }
    ghost var stored, text := a[off..off + 16], Rest(buf, start);
    if needV4 {
      ghost var q := Rest(buf, s);
      ok := ParseDotted(buf, s, a, off + 12);
      DottedBytes(text, q, stored);
      if !ok {
        return 0;
      }
      FirstTwelve(a[..], off, stored);
    } else {
      PlainBytes(text, stored);
    }
    return 1;
  }
}
