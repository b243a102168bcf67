/** C strings, numerals and separated lists, shared by the parser and the printer. */
module Text {

  datatype Option<+T> = None | Some(value: T)

  type Byte = x: int | 0 <= x < 0x100

  /** A group: one uint16_t of an IPv6 address. */
  type Group = x: int | 0 <= x < 0x1_0000

  /** The address families the two functions know. */
  const AF_INET := 2
  const AF_INET6 := 10

  /** The bases of "%x" and "%d". */
  type Base = b: int | b == 10 || b == 16 witness 10

  /** A buffer that holds exactly one C string: bytes, none of them NUL, then the NUL. */
  ghost predicate IsCString(buf: seq<char>) {
    && |buf| > 0
    && buf[|buf| - 1] == '\0'
    && (forall k :: 0 <= k < |buf| - 1 ==> buf[k] != '\0' && buf[k] as int < 0x100)
  }

  /** What is left to read at position `s`, without the NUL. */
  ghost function Rest(buf: seq<char>, s: nat): string
    requires s < |buf|
  {
    buf[s..|buf| - 1]
  }

  // ------------------------------------------------------------- regrouping

  lemma Associate<T>(a: seq<T>, b: seq<T>, c: seq<T>)
    ensures a + (b + c) == a + b + c
  {
  }

  /** The head of a concatenation, and what is behind it. */
  lemma Behead<T>(a: seq<T>, b: seq<T>)
    requires a != []
    ensures (a + b)[0] == a[0] && (a + b)[1..] == a[1..] + b
  {
  }

  /** A prefix read off a text that starts with it. */
  lemma Detach<T>(a: seq<T>, b: seq<T>)
    ensures (a + b)[..|a|] == a && (a + b)[|a|..] == b
  {
  }

  // ---------------------------------------------------------------- digits

  function DigitChar(d: int): char
    requires 0 <= d < 16
  {
    if d < 10 then ('0' as int + d) as char else ('a' as int + d - 10) as char
  }

  predicate IsDigit(c: char) { '0' <= c <= '9' }

  predicate IsHexDigit(c: char) { IsDigit(c) || 'a' <= c <= 'f' || 'A' <= c <= 'F' }

  predicate IsDigitOf(c: char, b: Base) { if b == 10 then IsDigit(c) else IsHexDigit(c) }

  function DigitValue(c: char): (d: int)
    requires IsHexDigit(c)
    ensures 0 <= d < 16
    ensures IsDigit(c) ==> d < 10
  {
    if IsDigit(c) then c as int - '0' as int
    else if 'a' <= c then c as int - 'a' as int + 10
    else c as int - 'A' as int + 10
  }

  ghost predicate AllDigits(s: string, b: Base) {
    forall k :: 0 <= k < |s| ==> IsDigitOf(s[k], b)
  }

  /** The number a digit string denotes. */
  ghost function Value(s: string, b: Base): (v: nat)
    requires AllDigits(s, b)
  {
    if s == [] then 0 else Value(s[..|s| - 1], b) * b + DigitValue(s[|s| - 1])
  }

  /** What "%x" (base 16) and "%d" (base 10) print for a natural number. */
  function Numeral(n: nat, b: Base): (s: string)
    decreases n
  {
    if n < b then [DigitChar(n)]
    else assert n / b < n; Numeral(n / b, b) + [DigitChar(n % b)]
  }

  ghost function Pow(b: Base, k: nat): (p: nat)
    ensures p > 0
  {
    if k == 0 then 1 else b * Pow(b, k - 1)
  }

  lemma {:induction false} ValueBound(s: string, b: Base)
    requires AllDigits(s, b)
    ensures Value(s, b) < Pow(b, |s|)
  {
    if s == [] {
    } else {
      ValueBound(s[..|s| - 1], b);
      var v, p := Value(s[..|s| - 1], b), Pow(b, |s| - 1);
      assert v + 1 <= p;
      assert b * (v + 1) <= b * p;
    }
  }

  lemma Division(n: nat, b: Base)
    ensures n == n / b * b + n % b && 0 <= n % b < b
    ensures n >= b ==> 0 < n / b < n
  {
    if b == 10 {
    } else {
    }
  }

  lemma DigitCharValue(d: int, b: Base)
    requires 0 <= d < b
    ensures IsDigitOf(DigitChar(d), b) && DigitValue(DigitChar(d)) == d
    ensures DigitChar(d) == '0' <==> d == 0
  {
  }

  /** Printing is canonical, and reading it back gives the number. */
  lemma {:induction false} NumeralRoundTrip(n: nat, b: Base)
    ensures AllDigits(Numeral(n, b), b) && Value(Numeral(n, b), b) == n
    ensures |Numeral(n, b)| > 0
    ensures Numeral(n, b)[0] == '0' <==> n == 0
    decreases n
  {
    var s := Numeral(n, b);
    Division(n, b);
    var q, r := n / b, n % b;
    if n < b {
      assert s[..0] == [];
      DigitCharValue(n, b);
    } else {
      NumeralRoundTrip(q, b);
      DigitCharValue(r, b);
      assert s == Numeral(q, b) + [DigitChar(r)];
      assert s[..|s| - 1] == Numeral(q, b);
    }
  }

  lemma {:induction false} NumeralLength(n: nat, b: Base, k: nat)
    requires n < Pow(b, k) && k > 0
    ensures |Numeral(n, b)| <= k
    decreases k
  {
    if n < b {
    } else {
      assert k > 1;
      assert n / b < Pow(b, k - 1);
      NumeralLength(n / b, b, k - 1);
    }
  }

  lemma TenTimes(q: nat, d: int)
    requires 0 <= d < 10
    ensures (q * 10 + d) / 10 == q && (q * 10 + d) % 10 == d
  {
  }

  lemma NumeralStep(q: nat, d: int)
    requires q > 0 && 0 <= d < 10
    ensures Numeral(q * 10 + d, 10) == Numeral(q, 10) + [DigitChar(d)]
  {
    TenTimes(q, d);
  }

  lemma DigitOfValue(c: char)
    requires IsDigit(c)
    ensures DigitChar(DigitValue(c)) == c && Numeral(DigitValue(c), 10) == [c]
  {
  }

  /** Reading a lower-case digit string without leading zeros, then printing, gives it back. */
  lemma {:induction false} NumeralOfValue(s: string)
    requires |s| > 0 && AllDigits(s, 10) && (|s| > 1 ==> s[0] != '0')
    ensures Numeral(Value(s, 10), 10) == s
    ensures s[0] != '0' ==> Value(s, 10) > 0
  {
    DigitOfValue(s[|s| - 1]);
    var front := s[..|s| - 1];
    if front == [] {
      assert Value(front, 10) == 0 && s == [s[0]];
    } else {
      assert front[0] == s[0];
      NumeralOfValue(front);
      NumeralStep(Value(front, 10), DigitValue(s[|s| - 1]));
      assert s == front + [s[|s| - 1]];
    }
  }

  /** Length of the longest prefix of digits, but at most `limit`. */
  ghost function DigitRun(t: string, b: Base, limit: nat): (j: nat)
    ensures j <= limit && j <= |t|
    ensures AllDigits(t[..j], b)
    ensures j < limit && j < |t| ==> !IsDigitOf(t[j], b)
  {
    if limit == 0 || t == [] || !IsDigitOf(t[0], b) then 0
    else 1 + DigitRun(t[1..], b, limit - 1)
  }

  /** The first `j` digits of a run have been read, with value `v`. */
  ghost predicate ReadSoFar(t: string, b: Base, limit: nat, j: nat, v: nat) {
    && j <= limit && j <= |t| && AllDigits(t[..j], b) && v == Value(t[..j], b)
    && DigitRun(t, b, limit) == j + DigitRun(t[j..], b, limit - j)
  }

  lemma NothingRead(t: string, b: Base, limit: nat)
    ensures ReadSoFar(t, b, limit, 0, 0)
  {
    assert t[0..] == t && t[..0] == [];
  }

  lemma ValueOneMore(t: string, b: Base, j: nat)
    requires j < |t| && AllDigits(t[..j], b) && IsDigitOf(t[j], b)
    ensures AllDigits(t[..j + 1], b) && Value(t[..j + 1], b) == Value(t[..j], b) * b + DigitValue(t[j])
  {
    var s := t[..j + 1];
    assert s[..j] == t[..j] && s[j] == t[j];
  }

  lemma RunOneMore(t: string, b: Base, limit: nat, j: nat)
    requires j < limit && j < |t| && IsDigitOf(t[j], b)
    ensures DigitRun(t[j..], b, limit - j) == 1 + DigitRun(t[j + 1..], b, limit - (j + 1))
  {
    assert t[j..][1..] == t[j + 1..];
  }

  lemma ReadOneMore(t: string, b: Base, limit: nat, j: nat, v: nat)
    requires ReadSoFar(t, b, limit, j, v) && j < limit && j < |t| && IsDigitOf(t[j], b)
    ensures ReadSoFar(t, b, limit, j + 1, v * b + DigitValue(t[j]))
  {
    ValueOneMore(t, b, j);
    RunOneMore(t, b, limit, j);
  }

  lemma ReadAll(t: string, b: Base, limit: nat, j: nat, v: nat)
    requires ReadSoFar(t, b, limit, j, v) && (j < limit && j < |t| ==> !IsDigitOf(t[j], b))
    ensures j == DigitRun(t, b, limit) && v == Value(t[..j], b)
  {
  }

  /** A digit string in front of something that is not a digit is found exactly. */
  lemma {:induction false} DigitRunExact(d: string, rest: string, b: Base, limit: nat)
    requires AllDigits(d, b) && |d| <= limit
    requires rest == [] || !IsDigitOf(rest[0], b)
    ensures DigitRun(d + rest, b, limit) == |d| && (d + rest)[..|d|] == d && (d + rest)[|d|..] == rest
  {
    if d == [] {
      assert d + rest == rest;
    } else {
      DigitRunExact(d[1..], rest, b, limit - 1);
      Behead(d, rest);
      Detach(d, rest);
    }
  }

  // ------------------------------------------------------- separated lists

  /** Every field, each with the separator in front. */
  function Tail(sep: char, fields: seq<string>): string {
    if fields == [] then "" else [sep] + fields[0] + Tail(sep, fields[1..])
  }

  /** The fields with the separator between them. */
  function Join(sep: char, fields: seq<string>): string {
    if fields == [] then "" else fields[0] + Tail(sep, fields[1..])
  }

  /** Every field, each with the separator behind. */
  ghost function Lead(sep: char, fields: seq<string>): string {
    if fields == [] then "" else fields[0] + [sep] + Lead(sep, fields[1..])
  }

  lemma {:induction false} TailSplit(sep: char, a: seq<string>, b: seq<string>)
    ensures Tail(sep, a + b) == Tail(sep, a) + Tail(sep, b)
  {
    if a == [] {
      assert a + b == b;
    } else {
      TailSplit(sep, a[1..], b);
      Behead(a, b);
      Associate([sep] + a[0], Tail(sep, a[1..]), Tail(sep, b));
    }
  }

  lemma TailJoin(sep: char, b: seq<string>)
    requires b != []
    ensures Tail(sep, b) == [sep] + Join(sep, b)
  {
    assert [sep] + b[0] + Tail(sep, b[1..]) == [sep] + (b[0] + Tail(sep, b[1..]));
  }

  lemma JoinTail(sep: char, a: seq<string>, b: seq<string>)
    requires a != []
    ensures Join(sep, a + b) == Join(sep, a) + Tail(sep, b)
  {
    assert (a + b)[1..] == a[1..] + b;
    TailSplit(sep, a[1..], b);
    assert a[0] + (Tail(sep, a[1..]) + Tail(sep, b)) == a[0] + Tail(sep, a[1..]) + Tail(sep, b);
  }

  lemma JoinSplit(sep: char, a: seq<string>, b: seq<string>)
    requires a != [] && b != []
    ensures Join(sep, a + b) == Join(sep, a) + [sep] + Join(sep, b)
  {
    JoinTail(sep, a, b);
    TailJoin(sep, b);
    var x, y, z := Join(sep, a), [sep], Join(sep, b);
    assert x + (y + z) == x + y + z;
  }

  lemma Regroup<T>(a: seq<T>, b: seq<T>, c: seq<T>, d: seq<T>)
    ensures a + (b + (c + d)) == (a + b + c) + d
  {
  }

  /** `n( field sep ) field` and `field n( sep field )` are the same text. */
  lemma {:induction false} LeadJoin(sep: char, a: seq<string>, b: seq<string>)
    requires b != []
    ensures Join(sep, a + b) == Lead(sep, a) + Join(sep, b)
  {
    if a == [] {
      assert a + b == b;
    } else {
      LeadJoin(sep, a[1..], b);
      var rest := a[1..] + b;
      assert (a + b)[1..] == rest && rest != [];
      TailJoin(sep, rest);
      Regroup(a[0], [sep], Lead(sep, a[1..]), Join(sep, b));
    }
  }

  /** `n( field sep )` is the joined fields with one more separator. */
  lemma LeadIsJoin(sep: char, a: seq<string>)
    requires a != []
    ensures Lead(sep, a) == Join(sep, a) + [sep]
  {
    LeadJoin(sep, a, [""]);
    JoinTail(sep, a, [""]);
    assert Tail(sep, [""]) == [sep];
    assert Join(sep, [""]) == "";
  }

  // ---------------------------------------------------------- <string.h>

  /** The elements from `lo` to `hi` of the range have been moved, and nothing else. */
  ghost predicate Moving<T>(now: seq<T>, was: seq<T>, dst: nat, src: nat, lo: nat, hi: nat) {
    && |now| == |was| && dst + hi <= |was| && src + hi <= |was|
    && (forall x :: 0 <= x < |was| && !(dst + lo <= x < dst + hi) ==> now[x] == was[x])
    && (forall x :: dst + lo <= x < dst + hi ==> now[x] == was[src + (x - dst)])
  }

  lemma MovedAll<T>(now: seq<T>, was: seq<T>, dst: nat, src: nat, n: nat)
    requires Moving(now, was, dst, src, 0, n)
    ensures now == was[..dst] + was[src..src + n] + was[dst + n..]
  {
    assert now[dst..dst + n] == was[src..src + n];
    assert now == now[..dst] + now[dst..dst + n] + now[dst + n..];
  }

  /** memmove on elements: the ranges may overlap. */
  method Memmove<T>(a: array<T>, dst: nat, src: nat, n: nat)
    requires dst + n <= a.Length && src + n <= a.Length
    modifies a
    ensures a[..] == old(a[..dst] + a[src..src + n] + a[dst + n..])
  {
    ghost var was := a[..];
    if dst <= src {
      for k := 0 to n
        invariant Moving(a[..], was, dst, src, 0, k)
      {
        a[dst + k] := a[src + k];
      }
    } else {
      for k := n downto 0
        invariant Moving(a[..], was, dst, src, k, n)
      {
        a[dst + k] := a[src + k];
      }
    }
    MovedAll(a[..], was, dst, src, n);
    assert was[..dst] == old(a[..dst]) && was[src..src + n] == old(a[src..src + n]);
    assert was[dst + n..] == old(a[dst + n..]);
  }

  /** The buffer holds the text and then a NUL, the first one. */
  ghost predicate Holds(buf: array<char>, text: string)
    reads buf
  {
    && |text| < buf.Length && buf[|text|] == '\0'
    && (forall k :: 0 <= k < |text| ==> buf[k] == text[k] && text[k] != '\0')
  }

  /** Number of leading characters of `t` that are ':' or '0'. */
  ghost function Span(t: string): (j: nat)
    ensures j <= |t|
  {
    if t != [] && (t[0] == ':' || t[0] == '0') then 1 + Span(t[1..]) else 0
  }

  /** strspn, for ':' and '0' */
  method Strspn(buf: array<char>, i: nat, ghost text: string) returns (j: nat)
    requires Holds(buf, text) && i <= |text|
    ensures j == Span(text[i..])
  {
    j := 0;
    while buf[i + j] == ':' || buf[i + j] == '0'
      invariant i + j <= |text|
      invariant Span(text[i..]) == j + Span(text[i + j..])
      decreases |text| - (i + j)
    {
      assert text[i + j..][1..] == text[i + j + 1..];
      j := j + 1;
    }
  }

  /** strlen */
  method Strlen(buf: array<char>, ghost text: string) returns (n: nat)
    requires Holds(buf, text)
    ensures n == |text|
  {
    n := 0;
    while buf[n] != '\0'
      invariant n <= |text|
      decreases |text| - n
    {
      n := n + 1;
    }
  }

  /** strcpy, the NUL included */
  method Strcpy(s: array<char>, buf: array<char>, ghost text: string)
    requires Holds(buf, text) && |text| < s.Length && s != buf
    modifies s
    ensures s[..] == text + ['\0'] + old(s[|text| + 1..])
  {
    var k := 0;
    while buf[k] != '\0'
      invariant k <= |text|
      invariant forall x :: 0 <= x < k ==> s[x] == text[x]
      invariant forall x :: k <= x < s.Length ==> s[x] == old(s[x])
      decreases |text| - k
    {
      s[k] := buf[k];
      k := k + 1;
    }
    s[k] := '\0';
    assert s[..] == text + ['\0'] + old(s[|text| + 1..]);
  }

  /** snprintf into `s`: the text is cut to fit before the NUL; the result is the full length. */
  method Snprintf(s: array<char>, size: nat, text: string) returns (n: nat)
    requires size <= s.Length
    modifies s
    ensures n == |text|
    ensures |text| < size ==> s[..] == text + ['\0'] + old(s[|text| + 1..])
    ensures 0 < size <= |text| ==> s[..] == text[..size - 1] + ['\0'] + old(s[size..])
    ensures size == 0 ==> s[..] == old(s[..])
  {
    n := |text|;
    if size > 0 {
      var m := if |text| < size then |text| else size - 1;
      for k := 0 to m
        invariant forall x :: 0 <= x < k ==> s[x] == text[x]
        invariant forall x :: k <= x < s.Length ==> s[x] == old(s[x])
      {
        s[k] := text[k];
      }
      s[m] := '\0';
      assert s[..] == text[..m] + ['\0'] + old(s[m + 1..]);
      assert m == |text| ==> text[..m] == text;
    }
  }
}
