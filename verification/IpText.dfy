/** IP addresses as text: printing them into a fixed buffer and reading them back. */
module IpText {
  import opened Wrappers
  import opened Sequences
  import opened Buffers

  const IP_ADDR_MAX_STR_SIZE := 40

  type Octet = x: int | 0 <= x < 0x100 witness 0
  type Hextet = x: int | 0 <= x < 0x1_0000 witness 0

  // ----- printed forms ------------------------------------------------------------------------

  function HexDig(x: nat): char
    requires x < 16
  {
    if x >= 10 then ('A' as int + x - 10) as char else ('0' as int + x) as char
  }

  /** Four hexadecimal digits without the leading zeros, as ip_addr2a picks them. */
  function HexOf(a: nat, b: nat, c: nat, d: nat): (s: string)
    requires a < 16 && b < 16 && c < 16 && d < 16
    ensures 1 <= |s| <= 4 && Hex2I(s[0]) >= 0
  {
    if a != 0 then [HexDig(a), HexDig(b), HexDig(c), HexDig(d)]
    else if b != 0 then [HexDig(b), HexDig(c), HexDig(d)]
    else if c != 0 then [HexDig(c), HexDig(d)]
    else [HexDig(d)]
  }

  /** A 16-bit number in hexadecimal; only the low 16 bits count. */
  function Hex(n: nat): (s: string)
    ensures 1 <= |s| <= 4 && Hex2I(s[0]) >= 0
  {
    HexOf(n / 0x1000 % 16, n / 0x100 % 16, n / 16 % 16, n % 16)
  }

  function Dig(x: nat): char
    requires x < 10
  {
    ('0' as int + x) as char
  }

  /** Three decimal digits without the leading zeros. */
  function DecOf(a: nat, b: nat, c: nat): (s: string)
    requires a < 10 && b < 10 && c < 10
    ensures 1 <= |s| <= 3
  {
    if a != 0 then [Dig(a), Dig(b), Dig(c)] else if b != 0 then [Dig(b), Dig(c)] else [Dig(c)]
  }

  /** An octet in decimal; only the last three digits count. */
  function Dec(n: nat): (s: string)
    ensures 1 <= |s| <= 3
  {
    DecOf(n / 100 % 10, n / 10 % 10, n % 10)
  }

  /** The numbers in order, with a separator between each two. */
  function Joined(num: nat -> string, sep: char, a: seq<nat>): string {
    if a == [] then "" else if |a| == 1 then num(a[0]) else num(a[0]) + [sep] + Joined(num, sep, a[1..])
  }

  lemma {:induction false} JoinedLength(num: nat -> string, sep: char, a: seq<nat>, most: nat)
    requires a != [] && forall n | n in a :: |num(n)| <= most
    ensures |Joined(num, sep, a)| < (most + 1) * |a|
  {
    if |a| > 1 {
      JoinedLength(num, sep, a[1..], most);
      assert (most + 1) * |a| == (most + 1) * |a[1..]| + most + 1;
    }
  }

  lemma JoinedOn(num: nat -> string, sep: char, done: string, a: seq<nat>)
    requires |a| > 1
    ensures done + Joined(num, sep, a) == done + num(a[0]) + [sep] + Joined(num, sep, a[1..])
    ensures |Joined(num, sep, a)| == |num(a[0])| + 1 + |Joined(num, sep, a[1..])|
  {
    Regroup(done, num(a[0]) + [sep], Joined(num, sep, a[1..]));
    Regroup(done, num(a[0]), [sep]);
  }

  datatype Ip = V4(octets: seq<Octet>) | V6(hextets: seq<Hextet>)

  /** An address has four octets or eight hextets. */
  predicate Whole(ip: Ip) {
    match ip
    case V4(a) => |a| == 4
    case V6(a) => |a| == 8
  }

  function Text(ip: Ip): string {
    match ip
    case V4(a) => Joined(Dec, '.', a)
    case V6(a) => Joined(Hex, ':', a)
  }

  // ----- printing -----------------------------------------------------------------------------

  method PutHex(buf: array<char>, offset: nat, n: Hextet) returns (next: nat)
    requires offset + |Hex(n)| <= buf.Length
    modifies buf
    ensures next == offset + |Hex(n)| && buf[..next] == old(buf[..offset]) + Hex(n)
  {
    next := PutNibbles(buf, offset, n / 0x1000 % 16, n / 0x100 % 16, n / 16 % 16, n % 16);
  }

  method PutNibbles(buf: array<char>, offset: nat, a: nat, b: nat, c: nat, d: nat) returns (next: nat)
    requires a < 16 && b < 16 && c < 16 && d < 16 && offset + |HexOf(a, b, c, d)| <= buf.Length
    modifies buf
    ensures next == offset + |HexOf(a, b, c, d)| && buf[..next] == old(buf[..offset]) + HexOf(a, b, c, d)
  {
    if a != 0 {
      next := Append(buf, offset, [HexDig(a), HexDig(b), HexDig(c), HexDig(d)]);
    } else if b != 0 {
      next := Append(buf, offset, [HexDig(b), HexDig(c), HexDig(d)]);
    } else if c != 0 {
      next := Append(buf, offset, [HexDig(c), HexDig(d)]);
    } else {
      next := Append(buf, offset, [HexDig(d)]);
    }
  }

  method PutDec(buf: array<char>, offset: nat, n: Octet) returns (next: nat)
    requires offset + |Dec(n)| <= buf.Length
    modifies buf
    ensures next == offset + |Dec(n)| && buf[..next] == old(buf[..offset]) + Dec(n)
  {
    next := PutDigits(buf, offset, n / 100, n % 100 / 10, n % 10);
  }

  method PutDigits(buf: array<char>, offset: nat, a: nat, b: nat, c: nat) returns (next: nat)
    requires a < 10 && b < 10 && c < 10 && offset + |DecOf(a, b, c)| <= buf.Length
    modifies buf
    ensures next == offset + |DecOf(a, b, c)| && buf[..next] == old(buf[..offset]) + DecOf(a, b, c)
  {
    if a != 0 {
      next := Append(buf, offset, [Dig(a), Dig(b), Dig(c)]);
    } else if b != 0 {
      next := Append(buf, offset, [Dig(b), Dig(c)]);
    } else {
      next := Append(buf, offset, [Dig(c)]);
    }
  }

  method Put6(a: seq<Hextet>, buf: array<char>) returns (offset: nat)
    requires |a| == 8 && buf.Length == IP_ADDR_MAX_STR_SIZE
    modifies buf
    ensures offset < buf.Length && buf[..offset] == Joined(Hex, ':', a)
  {
    JoinedLength(Hex, ':', a, 4);
    offset := 0;
    var r := 0;
    ghost var rest: seq<nat> := a;
    while r < 7
      invariant 0 <= r <= 7 && rest == a[r..] && offset <= buf.Length
      invariant buf[..offset] + Joined(Hex, ':', rest) == Joined(Hex, ':', a)
    {
      JoinedOn(Hex, ':', buf[..offset], rest);
      offset := PutHex(buf, offset, a[r]);
      offset := Append(buf, offset, ":");
      rest := rest[1..];
      r := r + 1;
    }
    offset := PutHex(buf, offset, a[r]);
  }

  method Put4(a: seq<Octet>, buf: array<char>) returns (offset: nat)
    requires |a| == 4 && buf.Length == IP_ADDR_MAX_STR_SIZE
    modifies buf
    ensures offset < buf.Length && buf[..offset] == Joined(Dec, '.', a)
  {
    JoinedLength(Dec, '.', a, 3);
    offset := 0;
    var r := 0;
    ghost var rest: seq<nat> := a;
    while r < 3
      invariant 0 <= r <= 3 && rest == a[r..] && offset <= buf.Length
      invariant buf[..offset] + Joined(Dec, '.', rest) == Joined(Dec, '.', a)
    {
      JoinedOn(Dec, '.', buf[..offset], rest);
      offset := PutDec(buf, offset, a[r]);
      offset := Append(buf, offset, ".");
      rest := rest[1..];
      r := r + 1;
    }
    offset := PutDec(buf, offset, a[r]);
  }

  /** ip_addr2a: the text with its terminator fits the buffer for every address. */
  method IpAddr2A(ip: Ip, buf: array<char>) returns (len: nat)
    requires Whole(ip) && buf.Length == IP_ADDR_MAX_STR_SIZE
    modifies buf
    ensures len < buf.Length && buf[..len] == Text(ip) && buf[len] == 0 as char
  {
    match ip {
      case V6(a) => len := Put6(a, buf);
      case V4(a) => len := Put4(a, buf);
    }
    buf[len] := 0 as char;
  }

  // ----- reading ------------------------------------------------------------------------------

  /** str2ip from a position on: the octet being read and the octets so far, one byte each. */
  function Scan4(s: string, i: nat, a: seq<Octet>): Option<seq<Octet>>
    requires i <= 3 && |a| == 4
    decreases |s|
  {
    if s == "" then if i < 3 then None else Some(a)
    else if s[0] == '.' then if i + 1 > 3 then None else Scan4(s[1..], i + 1, a)
    else if '0' <= s[0] <= '9' then Scan4(s[1..], i, a[i := (a[i] * 10 + (s[0] as int - '0' as int)) % 0x100])
    else None
  }

  /** HEX2I: -1 for what is no hexadecimal digit. */
  function Hex2I(c: char): int {
    if '0' <= c <= '9' then c as int - '0' as int
    else if 'A' <= c <= 'F' then c as int - 'A' as int + 10
    else if 'a' <= c <= 'f' then c as int - 'a' as int + 10
    else -1
  }

  /** The variables of str2ip6: end holds what comes behind a double colon, inEnd says whether one
      was met, colon whether the last character was a colon. */
  datatype Scan = Scan(i: nat, idx1: nat, colons: nat, colon: bool, inEnd: bool, start: seq<Hextet>, end: seq<Hextet>)

  ghost predicate ScanOk(v: Scan) {
    |v.start| == 8 && |v.end| == 8 && v.i <= v.colons <= 7 && v.idx1 <= v.colons && (v.inEnd ==> v.i + v.idx1 <= v.colons)
  }

  const BLANK: seq<Hextet> := [0, 0, 0, 0, 0, 0, 0, 0]

  /** One character of str2ip6; None is an error. */
  function Step6(v: Scan, c: char): (r: Option<Scan>)
    requires ScanOk(v)
    ensures r.Some? ==> ScanOk(r.value)
  {
    if c == ':' then
      if v.colons + 1 > 7 then None
      else if v.colon then
        if v.inEnd then None
        else Some(v.(colons := v.colons + 1, idx1 := v.i, i := 0, inEnd := true))
      else Some(v.(colons := v.colons + 1, colon := true, i := v.i + 1))
    else if Hex2I(c) >= 0 then
      var a := if v.inEnd then v.end else v.start;
      var n := (a[v.i] * 16 + Hex2I(c)) % 0x1_0000;
      Some(if v.inEnd then v.(end := a[v.i := n], colon := false) else v.(start := a[v.i := n], colon := false))
    else None
  }

  function Scan6(s: string, v: Scan): (r: Option<Scan>)
    requires ScanOk(v)
    ensures r.Some? ==> ScanOk(r.value)
    decreases |s|
  {
    if s == "" then Some(v)
    else if Step6(v, s[0]).None? then None
    else Scan6(s[1..], Step6(v, s[0]).value)
  }

  /** What str2ip6 makes of the variables at the end: the hextets behind a double colon go to the
      end of the address. */
  function Finish6(v: Scan): Option<seq<Hextet>>
    requires ScanOk(v)
  {
    var i := if v.colon then v.i else v.i + 1;
    if v.inEnd then
      Some(v.start[..8 - i] + v.end[..i])
    else if v.colons < 7 then None
    else Some(v.start)
  }

  function Body6(s: string): Option<string> {
    if s != "" && s[0] == '[' then
      if s[|s| - 1] != ']' then None else Some(s[1..|s| - 1])
    else Some(s)
  }

  const START6 := Scan(0, 0, 0, false, false, BLANK, BLANK)

  function Parse6(s: string): Option<seq<Hextet>> {
    if Body6(s).None? then None
    else
      var v := Scan6(Body6(s).value, START6);
      if v.None? then None else Finish6(v.value)
  }

  function Parse4(s: string): Option<seq<Octet>> {
    Scan4(s, 0, [0, 0, 0, 0])
  }

  /** str2ip. */
  method Str2Ip(st: string) returns (ip: Option<seq<Octet>>)
    ensures ip == Parse4(st)
  {
    var a: seq<Octet> := [0, 0, 0, 0];
    var i, s := 0, 0;
    assert st[0..] == st;
    while s < |st|
      invariant s <= |st| && 0 <= i <= 3 && |a| == 4 && Scan4(st[s..], i, a) == Parse4(st)
    {
      assert st[s..][1..] == st[s + 1..];
      if st[s] == '.' {
        i := i + 1;
        if i > 3 {
          return None;
        }
      } else if st[s] <= '9' && st[s] >= '0' {
        a := a[i := (a[i] * 10 + (st[s] as int - '0' as int)) % 0x100];
      } else {
        return None;
      }
      s := s + 1;
    }
    ip := if i < 3 then None else Some(a);
  }

  /** str2ip6. */
  method Str2Ip6(st: string) returns (ip: Option<seq<Hextet>>)
    ensures ip == Parse6(st)
  {
    var body := Body6(st);
    if body.None? {
      return None;
    }
    var s := 0;
    var v := START6;
    assert body.value[0..] == body.value;
    while s < |body.value|
      invariant s <= |body.value| && ScanOk(v) && Scan6(body.value[s..], v) == Scan6(body.value, START6)
    {
      assert body.value[s..][1..] == body.value[s + 1..];
      var r := Step6(v, body.value[s]);
      if r.None? {
        return None;
      }
      v := r.value;
      s := s + 1;
    }
    ip := Finish6(v);
  }

  // ----- round trips --------------------------------------------------------------------------

  lemma ScanDig(x: nat, m: Octet, n: Octet, rest: string, i: nat, a: seq<Octet>)
    requires x < 10 && i <= 3 && |a| == 4 && m * 10 + x == n
    ensures Scan4([Dig(x)] + rest, i, a[i := m]) == Scan4(rest, i, a[i := n])
  {
    var s := [Dig(x)] + rest;
    assert s[1..] == rest && a[i := m][i := n] == a[i := n] && n % 0x100 == n;
  }

  lemma ScanDigits(a: nat, b: nat, c: nat, n: Octet, rest: string, i: nat, v: seq<Octet>)
    requires a < 10 && b < 10 && c < 10 && (a * 10 + b) * 10 + c == n && i <= 3 && |v| == 4
    ensures Scan4(DecOf(a, b, c) + rest, i, v[i := 0]) == Scan4(rest, i, v[i := n])
  {
    var tail := [Dig(c)] + rest;
    if a != 0 {
      assert DecOf(a, b, c) + rest == [Dig(a)] + ([Dig(b)] + tail);
      ScanDig(a, 0, a, [Dig(b)] + tail, i, v);
      ScanDig(b, a, a * 10 + b, tail, i, v);
    } else if b != 0 {
      assert DecOf(a, b, c) + rest == [Dig(b)] + tail;
      ScanDig(b, 0, b, tail, i, v);
    }
    ScanDig(c, a * 10 + b, n, rest, i, v);
  }

  lemma ScanDec(n: Octet, rest: string, i: nat, a: seq<Octet>)
    requires i <= 3 && |a| == 4
    ensures Scan4(Dec(n) + rest, i, a[i := 0]) == Scan4(rest, i, a[i := n])
  {
    ScanDigits(n / 100 % 10, n / 10 % 10, n % 10, n, rest, i, a);
  }

  /** Reading the text of a number sets the octet that is being read. */
  ghost predicate Reads4(num: nat -> string) {
    forall n: Octet, rest: string, i: nat, a: seq<Octet> | i <= 3 && |a| == 4 && a[i] == 0 ::
      Scan4(num(n) + rest, i, a) == Scan4(rest, i, a[i := n])
  }

  lemma DigitsRead()
    ensures Reads4(Dec)
  {
    forall n: Octet, rest: string, i: nat, a: seq<Octet> | i <= 3 && |a| == 4 && a[i] == 0
      ensures Scan4(Dec(n) + rest, i, a) == Scan4(rest, i, a[i := n])
    {
      assert a[i := 0] == a;
      ScanDec(n, rest, i, a);
    }
  }

  lemma ReadOctet(num: nat -> string, n: Octet, rest: string, i: nat, a: seq<Octet>)
    requires Reads4(num) && i <= 3 && |a| == 4 && a[i] == 0
    ensures Scan4(num(n) + rest, i, a) == Scan4(rest, i, a[i := n])
  {
  }

  lemma ScanDot(rest: string, i: nat, a: seq<Octet>)
    requires i < 3 && |a| == 4
    ensures Scan4(['.'] + rest, i, a) == Scan4(rest, i + 1, a)
  {
    assert (['.'] + rest)[1..] == rest;
  }

  lemma {:induction false} ScanJoined4(num: nat -> string, b: seq<Octet>, i: nat, a: seq<Octet>)
    requires Reads4(num) && |a| == 4 && i + |b| == 4 && b != [] && forall k :: i <= k < 4 ==> a[k] == 0
    ensures Scan4(Joined(num, '.', b), i, a) == Some(a[..i] + b)
    decreases |b|
  {
    if |b| == 1 {
      assert num(b[0]) + "" == num(b[0]);
      ReadOctet(num, b[0], "", i, a);
      assert a[i := b[0]] == a[..i] + b;
    } else {
      var more := Joined(num, '.', b[1..]);
      Regroup(num(b[0]), ['.'], more);
      assert Joined(num, '.', b) == num(b[0]) + (['.'] + more);
      ReadOctet(num, b[0], ['.'] + more, i, a);
      ScanDot(more, i, a[i := b[0]]);
      ScanJoined4(num, b[1..], i + 1, a[i := b[0]]);
      assert a[i := b[0]][..i + 1] + b[1..] == a[..i] + b;
    }
  }

  /** Reading a printed IPv4 address gives the address back. */
  lemma RoundTrip4(a: seq<Octet>)
    requires |a| == 4
    ensures Parse4(Text(V4(a))) == Some(a)
  {
    DigitsRead();
    ScanJoined4(Dec, a, 0, [0, 0, 0, 0]);
    assert [0, 0, 0, 0][..0] + a == a;
  }

  /** The half of the address that is being filled. */
  function Half(v: Scan): seq<Hextet> {
    if v.inEnd then v.end else v.start
  }

  function WithHalf(v: Scan, a: seq<Hextet>): Scan {
    if v.inEnd then v.(end := a, colon := false) else v.(start := a, colon := false)
  }

  function Put(v: Scan, n: Hextet): Scan
    requires ScanOk(v)
  {
    WithHalf(v, Half(v)[v.i := n])
  }

  lemma HexDigReads(x: nat)
    requires x < 16
    ensures Hex2I(HexDig(x)) == x && HexDig(x) != ':'
  {
  }

  lemma StepDigit(x: nat, m: Hextet, n: Hextet, v: Scan)
    requires ScanOk(v) && x < 16 && m * 16 + x == n
    ensures Step6(Put(v, m), HexDig(x)) == Some(Put(v, n))
  {
    HexDigReads(x);
    assert n % 0x1_0000 == n;
    assert Half(v)[v.i := m][v.i := n] == Half(v)[v.i := n];
  }

  /** Reading s takes the variables from v to w, whatever follows. */
  ghost predicate Goes(s: string, v: Scan, w: Scan) {
    ScanOk(v) && ScanOk(w) && forall rest :: Scan6(s + rest, v) == Scan6(rest, w)
  }

  lemma GoesOne(c: char, v: Scan)
    requires ScanOk(v) && Step6(v, c).Some?
    ensures Goes([c], v, Step6(v, c).value)
  {
    forall rest ensures Scan6([c] + rest, v) == Scan6(rest, Step6(v, c).value) {
      assert ([c] + rest)[1..] == rest;
    }
  }

  lemma GoesOn(s: string, t: string, v: Scan, w: Scan, x: Scan)
    requires Goes(s, v, w) && Goes(t, w, x)
    ensures Goes(s + t, v, x)
  {
    forall rest ensures Scan6(s + t + rest, v) == Scan6(rest, x) {
      Regroup(s, t, rest);
      assert Scan6(s + (t + rest), v) == Scan6(t + rest, w);
    }
  }

  lemma GoesToEnd(s: string, v: Scan, w: Scan)
    requires Goes(s, v, w)
    ensures Scan6(s, v) == Some(w)
  {
    assert s + "" == s && Scan6(s + "", v) == Scan6("", w);
  }

  /** The digit x behind digits that make m. */
  lemma GoesDigit(x: nat, m: Hextet, n: Hextet, v: Scan)
    requires ScanOk(v) && x < 16 && m * 16 + x == n
    ensures Goes([HexDig(x)], Put(v, m), Put(v, n))
  {
    StepDigit(x, m, n, v);
    GoesOne(HexDig(x), Put(v, m));
  }

  lemma GoesTwo(x: nat, y: nat, m: Hextet, n: Hextet, v: Scan)
    requires ScanOk(v) && x < 16 && y < 16 && (m * 16 + x) * 16 + y == n
    ensures Goes([HexDig(x)] + [HexDig(y)], Put(v, m), Put(v, n))
  {
    GoesDigit(x, m, m * 16 + x, v);
    GoesDigit(y, m * 16 + x, n, v);
    GoesOn([HexDig(x)], [HexDig(y)], Put(v, m), Put(v, m * 16 + x), Put(v, n));
  }

  lemma GoesNibbles(a: nat, b: nat, c: nat, d: nat, n: Hextet, v: Scan)
    requires a < 16 && b < 16 && c < 16 && d < 16 && ScanOk(v) && n == ((a * 16 + b) * 16 + c) * 16 + d
    ensures Goes(HexOf(a, b, c, d), Put(v, 0), Put(v, n))
  {
    var m := a * 16 + b;
    if m != 0 || c != 0 {
      GoesTwo(c, d, m, n, v);
    } else {
      GoesDigit(d, 0, n, v);
    }
    if a != 0 {
      GoesTwo(a, b, 0, m, v);
      GoesOn([HexDig(a)] + [HexDig(b)], [HexDig(c)] + [HexDig(d)], Put(v, 0), Put(v, m), Put(v, n));
      assert HexOf(a, b, c, d) == [HexDig(a)] + [HexDig(b)] + ([HexDig(c)] + [HexDig(d)]);
    } else if b != 0 {
      GoesDigit(b, 0, m, v);
      GoesOn([HexDig(b)], [HexDig(c)] + [HexDig(d)], Put(v, 0), Put(v, m), Put(v, n));
      assert HexOf(a, b, c, d) == [HexDig(b)] + ([HexDig(c)] + [HexDig(d)]);
    } else if c != 0 {
      assert HexOf(a, b, c, d) == [HexDig(c)] + [HexDig(d)];
    }
  }

  /** A digit is read in the same way behind a colon. */
  lemma SameStep(v: Scan, c: char)
    requires ScanOk(v) && Half(v)[v.i] == 0 && Hex2I(c) >= 0
    ensures Step6(v, c) == Step6(Put(v, 0), c)
  {
    assert Half(v)[v.i := 0] == Half(v);
  }

  lemma GoesHex(n: Hextet, v: Scan)
    requires ScanOk(v) && Half(v)[v.i] == 0
    ensures Goes(Hex(n), v, Put(v, n))
  {
    NibblesMake(n);
    GoesNibbles(n / 0x1000 % 16, n / 0x100 % 16, n / 16 % 16, n % 16, n, v);
    SameStart(Hex(n), v, Put(v, n));
  }

  lemma NibblesMake(n: Hextet)
    ensures ((n / 0x1000 % 16 * 16 + n / 0x100 % 16) * 16 + n / 16 % 16) * 16 + n % 16 == n
  {
  }

  lemma SameStart(s: string, v: Scan, w: Scan)
    requires ScanOk(v) && Half(v)[v.i] == 0 && s != "" && Hex2I(s[0]) >= 0 && Goes(s, Put(v, 0), w)
    ensures Goes(s, v, w)
  {
    forall rest ensures Scan6(s + rest, v) == Scan6(rest, w) {
      assert (s + rest)[0] == s[0];
      SameStep(v, s[0]);
      assert Scan6(s + rest, Put(v, 0)) == Scan6(rest, w);
    }
  }

  /** The variables after the hextets b were read from v on. */
  function After(v: Scan, b: seq<Hextet>): Scan
    requires ScanOk(v) && b != [] && v.i + |b| <= 8
  {
    WithHalf(v, Half(v)[..v.i] + b + Half(v)[v.i + |b|..]).(i := v.i + |b| - 1, colons := v.colons + |b| - 1)
  }

  /** Reading the text of a number sets the hextet that is being read. */
  ghost predicate Reads6(num: nat -> string) {
    forall n: Hextet, v: Scan | ScanOk(v) && Half(v)[v.i] == 0 :: Goes(num(n), v, Put(v, n))
  }

  lemma HexReads()
    ensures Reads6(Hex)
  {
    forall n: Hextet, v: Scan | ScanOk(v) && Half(v)[v.i] == 0 ensures Goes(Hex(n), v, Put(v, n)) {
      GoesHex(n, v);
    }
  }

  /** The variables behind a colon that follows a number. */
  function Colon(v: Scan): Scan {
    v.(colons := v.colons + 1, colon := true, i := v.i + 1)
  }

  lemma GoesColon(v: Scan)
    requires ScanOk(v) && !v.colon && v.colons < 7
    ensures Goes([':'], v, Colon(v))
  {
    GoesOne(':', v);
  }

  lemma AfterFirst(v: Scan, b: seq<Hextet>)
    requires ScanOk(v) && |b| > 1 && v.i + |b| <= 8 && v.colons + |b| <= 8
    ensures var w := Colon(Put(v, b[0])); ScanOk(w) && After(w, b[1..]) == After(v, b)
  {
    var h := Half(v)[v.i := b[0]];
    assert h[..v.i + 1] + b[1..] + h[v.i + |b|..] == Half(v)[..v.i] + b + Half(v)[v.i + |b|..];
  }

  lemma AfterOne(v: Scan, b: seq<Hextet>)
    requires ScanOk(v) && |b| == 1
    ensures After(v, b) == Put(v, b[0])
  {
    assert Half(v)[v.i := b[0]] == Half(v)[..v.i] + b + Half(v)[v.i + 1..];
  }

  lemma {:induction false} GoesJoined(num: nat -> string, b: seq<Hextet>, v: Scan)
    requires Reads6(num) && ScanOk(v) && b != [] && v.i + |b| <= 8 && v.colons + |b| <= 8
    requires forall k :: v.i <= k < 8 ==> Half(v)[k] == 0
    ensures Goes(Joined(num, ':', b), v, After(v, b))
    decreases |b|
  {
    var w := Put(v, b[0]);
    assert Goes(num(b[0]), v, w);
    if |b| == 1 {
      AfterOne(v, b);
    } else {
      GoesColon(w);
      GoesOn(num(b[0]), [':'], v, w, Colon(w));
      AfterFirst(v, b);
      GoesJoined(num, b[1..], Colon(w));
      GoesOn(num(b[0]) + [':'], Joined(num, ':', b[1..]), v, Colon(w), After(v, b));
    }
  }

  lemma ParsePlain(s: string, v: Scan)
    requires s != "" && s[0] != '[' && Goes(s, START6, v)
    ensures Parse6(s) == Finish6(v)
  {
    GoesToEnd(s, START6, v);
  }

  lemma ParseBrackets(s: string, v: Scan)
    requires Goes(s, START6, v)
    ensures Parse6("[" + s + "]") == Finish6(v)
  {
    GoesToEnd(s, START6, v);
    assert ("[" + s + "]")[1..|s| + 1] == s;
  }

  lemma NoBracket(a: seq<Hextet>)
    requires a != []
    ensures Joined(Hex, ':', a) != "" && Joined(Hex, ':', a)[0] != '['
  {
    assert Joined(Hex, ':', a)[0] == Hex(a[0])[0];
  }

  /** Reading a printed IPv6 address gives the address back, in brackets or without. */
  lemma RoundTrip6(a: seq<Hextet>)
    requires |a| == 8
    ensures Parse6(Text(V6(a))) == Some(a) && Parse6("[" + Text(V6(a)) + "]") == Some(a)
  {
    HexReads();
    GoesJoined(Hex, a, START6);
    var v := After(START6, a);
    assert v.start == a;
    NoBracket(a);
    ParsePlain(Text(V6(a)), v);
    ParseBrackets(Text(V6(a)), v);
  }

  /** Different addresses of one family never print alike. */
  lemma PrintingIsInjective(a: Ip, b: Ip)
    requires Whole(a) && Whole(b) && a.V6? == b.V6? && Text(a) == Text(b)
    ensures a == b
  {
    match a {
      case V4(x) =>
        RoundTrip4(x);
        RoundTrip4(b.octets);
      case V6(x) =>
        RoundTrip6(x);
        RoundTrip6(b.hextets);
    }
  }
}
