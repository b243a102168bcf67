/** IPAddr: a socket address made from a text and turned into one. */
module Addr {
  import opened Text
  import opened Grammar
  import opened ByteOrder
  import opened RoundTrip
  import N = InetNtop
  import P = InetPton

  datatype Kind = IPV4 | IPV6

  /** What c_str() shows of a std::string: everything up to its first NUL. */
  function CStr(s: string): (t: string)
    ensures '\0' !in t && |t| <= |s| && forall k :: 0 <= k < |t| ==> t[k] == s[k]
    ensures |t| < |s| ==> s[|t|] == '\0'
    ensures '\0' !in s ==> t == s
  {
    if s == "" || s[0] == '\0' then "" else [s[0]] + CStr(s[1..])
  }

  function NULs(n: nat): string {
    seq(n, _ => '\0')
  }

  lemma {:induction false} CStrOfPadded(t: string, n: nat, more: string)
    requires '\0' !in t && n > 0
    ensures CStr(t + NULs(n) + more) == t
  {
    var s := t + NULs(n) + more;
    if t == "" {
    } else {
      CStrOfPadded(t[1..], n, more);
      assert s[1..] == t[1..] + NULs(n) + more;
    }
  }

  /** What ToString appends for the port. */
  function PortSuffix(port: int, littleEndian: bool): string {
    if port != 0 then ":" + Numeral(Htons(ToU16(port), littleEndian), 10) else ""
  }

  /** A port that was stored from an int is shown behind ":" in decimal, on either endianness; port 0 is
      not shown. */
  lemma PortShown(port: int, littleEndian: bool)
    ensures var n, suffix := port % 0x1_0000, PortSuffix(ToShort(Htons(ToU16(port), littleEndian)), littleEndian);
      suffix == if n == 0 then "" else [':'] + Numeral(n, 10)
  {
    PortRoundTrip(port, littleEndian);
  }

  /** The text in the buffer its family gets, and the port behind all that. */
  ghost function Shown(text: string, size: nat, port: int, littleEndian: bool): string
    requires |text| <= size
  {
    text + NULs(size - |text|) + PortSuffix(port, littleEndian)
  }

  function BufferSize(kind: Kind): nat {
    if kind == IPV6 then 47 else 16
  }

  /** The text of an address fits its buffer, NUL included. */
  ghost function AddressText(kind: Kind, bytes: seq<Byte>): (t: string)
    requires |bytes| == 16
    ensures |t| < BufferSize(kind) && N.Plain(t)
  {
    if kind == IPV6 then TextFits(bytes); TextIsPlain(bytes); N.Text6(bytes)
    else N.Text4Facts(bytes[..4]); N.Text4(bytes[..4])
  }

  /** c_str() shows the text whole, and without the port. */
  lemma ShownText(text: string, size: nat, port: int, littleEndian: bool)
    requires |text| < size && N.Plain(text)
    ensures CStr(Shown(text, size, port, littleEndian)) == text
    ensures var s := Shown(text, size, port, littleEndian); forall k :: 0 <= k < |s| ==> s[k] as int < 0x100
  {
    CStrOfPadded(text, size - |text|, PortSuffix(port, littleEndian));
    NumeralRoundTrip(Htons(ToU16(port), littleEndian), 10);
  }

  lemma PaddedText(text: string, rest: string, size: nat)
    requires |text| + 1 + |rest| == size && forall k :: 0 <= k < |rest| ==> rest[k] == '\0'
    ensures text + ['\0'] + rest == text + NULs(size - |text|)
  {
    assert ['\0'] + rest == NULs(size - |text|);
    Associate(text, ['\0'], rest);
  }

  /** A text and its NUL, written over what was there. */
  ghost function Over(was: string, text: string): string
    requires |text| < |was|
  {
    text + ['\0'] + was[|text| + 1..]
  }

  lemma OverNULs(was: string, text: string)
    requires |text| < |was| && (forall k :: 0 <= k < |was| ==> was[k] == '\0')
    ensures Over(was, text) == text + NULs(|was| - |text|)
  {
    PaddedText(text, was[|text| + 1..], |was|);
  }

  /** An IPv6 address printed into 47 characters; the text fits. */
  method Into6(a: seq<Byte>, buf: array<char>)
    requires |a| == 16 && buf.Length == 47
    modifies buf
    ensures |N.Text6(a)| < 47 && buf[..] == Over(old(buf[..]), N.Text6(a))
  {
    TextFits(a);
    var _ := N.InetNtop(AF_INET6, a, buf, 47);
  }

  /** An IPv4 address printed into 16 characters; the text fits. */
  method Into4(a: seq<Byte>, buf: array<char>)
    requires |a| == 4 && buf.Length == 16
    modifies buf
    ensures |N.Text4(a)| < 16 && buf[..] == Over(old(buf[..]), N.Text4(a))
  {
    N.Text4Facts(a);
    var _ := N.InetNtop(AF_INET, a, buf, 16);
  }

  /** The text of an address in the buffer its family gets. */
  method Printed(kind: Kind, a: seq<Byte>) returns (res: string)
    requires |a| == 16
    ensures var text := AddressText(kind, a); res == text + NULs(BufferSize(kind) - |text|)
  {
    var buf := new char[if kind == IPV6 then 47 else 16](_ => '\0');
    ghost var was := buf[..];
    if kind == IPV6 {
      Into6(a, buf);
    } else {
      Into4(a[..4], buf);
    }
    res := buf[..];
    OverNULs(was, AddressText(kind, a));
  }

  /** If the text is an address of its family, the bytes are what it denotes. */
  ghost predicate Read(kind: Kind, text: string, bytes: seq<Byte>)
    requires |bytes| == 16
  {
    if kind == IPV6 then IPv6address(text) ==> P.Denotes6(text, bytes)
    else IPv4address(text) ==> P.Denotes4(text, bytes[..4])
  }

  /** Bytes for a text, from inet_pton, whose result is not looked at. */
  method ReadText(text: string, kind: Kind) returns (a: array<Byte>)
    requires '\0' !in text && forall k :: 0 <= k < |text| ==> text[k] as int < 0x100
    ensures fresh(a) && a.Length == 16 && Read(kind, text, a[..])
  {
    a := new Byte[16];
    var buf := text + ['\0'];
    assert Rest(buf, 0) == text;
    if kind == IPV6 {
      var _ := P.InetPton(AF_INET6, buf, 0, a, 0);
      assert a[0..16] == a[..];
    } else {
      var _ := P.InetPton(AF_INET, buf, 0, a, 0);
      assert a[0..4] == a[..][..4];
    }
  }

  class IPAddr {
    var kind: Kind
    var bytes: array<Byte>  // the union: v6addr_, whose first four bytes are v4addr_
    var port: int           // a short

    ghost predicate Valid()
      reads this
    {
      bytes.Length == 16 && -0x8000 <= port < 0x8000
    }

    /** The default address of a family: all zeros, no port. */
    constructor Zero(kind: Kind)
      ensures Valid() && this.kind == kind && port == 0
      ensures forall k :: 0 <= k < (if kind == IPV6 then 16 else 4) ==> bytes[k] == 0
    {
      this.kind := kind;
      bytes := new Byte[16](_ => 0);
      port := 0;
    }

    /** A text that is not an address of the family leaves any bytes. */
    constructor FromText(addr: string, port: int, kind: Kind, littleEndian: bool)
      requires forall k :: 0 <= k < |addr| ==> addr[k] as int < 0x100
      ensures Valid() && fresh(bytes) && this.kind == kind && this.port == ToShort(Htons(ToU16(port), littleEndian))
      ensures Read(kind, CStr(addr), bytes[..])
      ensures '\0' !in addr ==> Read(kind, addr, bytes[..])
      ensures Memory(ToU16(this.port), littleEndian) == [port / 0x100 % 0x100, port % 0x100]
    {
      var a := ReadText(CStr(addr), kind);
      this.kind := kind;
      bytes := a;
      this.port := ToShort(Htons(ToU16(port), littleEndian));
      NetworkOrder(port, littleEndian);
    }

    method ToString(littleEndian: bool) returns (res: string)
      requires Valid()
      ensures res == Shown(AddressText(kind, bytes[..]), BufferSize(kind), port, littleEndian)
      ensures kind == IPV6 ==> var text := N.Text6(bytes[..]);
        res == text + NULs(47 - |text|) + PortSuffix(port, littleEndian)
      ensures kind == IPV4 ==> var text := N.Text4(bytes[..4]);
        res == text + NULs(16 - |text|) + PortSuffix(port, littleEndian)
    {
      res := Printed(kind, bytes[..]);
      res := res + PortSuffix(port, littleEndian);
    }
  }

  /** An address made from what ToString shows has the same family and bytes; the port is given anew. */
  method Reread(a: IPAddr, port: int, littleEndian: bool) returns (b: IPAddr)
    requires a.Valid()
    ensures b.Valid() && b.kind == a.kind
    ensures a.kind == IPV6 ==> b.bytes[..] == a.bytes[..]
    ensures a.kind == IPV4 ==> b.bytes[..4] == a.bytes[..4]
  {
    var text := a.ToString(littleEndian);
    ghost var bytes := a.bytes[..];
    ShownText(AddressText(a.kind, bytes), BufferSize(a.kind), a.port, littleEndian);
    b := new IPAddr.FromText(text, port, a.kind, littleEndian);
    assert bytes[..4] == a.bytes[..4];
    if a.kind == IPV6 {
      PrintedIsAddress(bytes);
      PrintThenParse6(bytes);
    } else {
      PrintThenParse4(bytes[..4]);
    }
  }
}
