/** The q parameter of a contact: thousandths as an integer, and its text. */
module Qvalue {
  import opened Decimal
  import opened Sequences

  const Q_UNSPECIFIED := -1
  const MAX_Q := 1000

  // ----- reading ------------------------------------------------------------------------------

  datatype Error = InvChar | TooBig | Empty | DecMissing
  datatype Result = Ok(q: nat) | Err(error: Error)

  /** The states of str2q, named after what was read. */
  datatype State = Start | Zero | One | ZeroPt | OnePt | OnePtZero | ZeroPtN

  /** The variables of str2q. */
  datatype Vars = Vars(state: State, q: nat, digits: nat, order: nat)

  /** The errors of a character that does not fit: a digit makes the number too big. */
  function Misfit(c: char): Error {
    if IsDigit(c) then TooBig else InvChar
  }

  datatype Step = Next(v: Vars) | Stop(error: Error)

  /** One round of the loop of str2q. */
  function Round(v: Vars, c: char): Step {
    match v.state
    case Start =>
      if c == ' ' || c == '\t' then Next(v)
      else if c == '0' then Next(v.(state := Zero, q := 0))
      else if c == '1' then Next(v.(state := One, q := 1000))
      else if c == '.' then Next(v.(state := ZeroPt))
      else Stop(InvChar)
    case Zero =>
      if c == '0' then Next(v)
      else if c == '.' then Next(v.(state := ZeroPt))
      else if c == '1' then Next(v.(state := One, q := 1000))
      else Stop(Misfit(c))
    case One => if c == '.' then Next(v.(state := OnePt)) else Stop(Misfit(c))
    case ZeroPt =>
      if IsDigit(c) then Next(v.(state := ZeroPtN, q := DigitValue(c) * v.order, order := v.order / 10)) else Stop(InvChar)
    case OnePt => if c == '0' then Next(v.(state := OnePtZero)) else Stop(Misfit(c))
    case OnePtZero => if c == '0' then Next(v) else Stop(Misfit(c))
    case ZeroPtN =>
      if !IsDigit(c) then Stop(InvChar)
      else if v.digits <= 3 then
        Next(v.(q := v.q + DigitValue(c) * v.order, order := v.order / 10, digits := v.digits + 1))
      else Next(v)
  }

  function Finish(v: Vars): Result {
    match v.state
    case Start => Err(Empty)
    case ZeroPt => Err(DecMissing)
    case OnePt => Err(DecMissing)
    case _ => Ok(v.q)
  }

  function Run(v: Vars, s: string): Result
    decreases |s|
  {
    if s == "" then Finish(v)
    else match Round(v, s[0])
      case Next(w) => Run(w, s[1..])
      case Stop(e) => Err(e)
  }

  const BEGIN := Vars(Start, 0, 1, 100)

  function Read(s: string): Result {
    Run(BEGIN, s)
  }

  /** str2q; q0 is what the caller's variable held. */
  method Str2Q(s: string, q0: nat) returns (r: Result)
    ensures r == Read(s)
  {
    var v := BEGIN.(q := q0);
    var i := 0;
    assert s[0..] == s;
    StartIgnoresQ(s, q0);
    while i < |s|
      invariant i <= |s| && Run(v, s[i..]) == Read(s)
    {
      assert s[i..][1..] == s[i + 1..];
      var step := Round(v, s[i]);
      if step.Stop? {
        return Err(step.error);
      }
      v := step.v;
      i := i + 1;
    }
    r := Finish(v);
  }

  /** No result depends on what the variable held before. */
  lemma {:induction false} StartIgnoresQ(s: string, q: nat)
    ensures Run(BEGIN.(q := q), s) == Run(BEGIN, s)
  {
    if s != "" {
      if s[0] == ' ' || s[0] == '\t' {
        StartIgnoresQ(s[1..], q);
      } else if s[0] == '.' {
        var t := s[1..];
        if t != "" && IsDigit(t[0]) {
          assert Round(BEGIN.(q := q, state := ZeroPt), t[0]) == Round(BEGIN.(state := ZeroPt), t[0]);
        }
      }
    }
  }

  // ----- what is accepted ---------------------------------------------------------------------

  function SkipBlanks(s: string): string {
    if s != "" && (s[0] == ' ' || s[0] == '\t') then SkipBlanks(s[1..]) else s
  }

  function SkipZeros(s: string): string {
    if s != "" && s[0] == '0' then SkipZeros(s[1..]) else s
  }

  predicate AllZeros(s: string) {
    forall i :: 0 <= i < |s| ==> s[i] == '0'
  }

  /** The digits behind the point, cut off after the third. */
  function Thousandths(s: string): nat
    requires AllDigits(s)
  {
    (if |s| > 0 then 100 * DigitValue(s[0]) else 0) + (if |s| > 1 then 10 * DigitValue(s[1]) else 0)
    + if |s| > 2 then DigitValue(s[2]) else 0
  }

  /** The value of the texts that are accepted: zeros; zeros and a one, perhaps with a point and
      zeros; zeros, a point and digits. */
  datatype Value = Value(q: nat) | None

  function ValueOf(s: string): Value {
    var t := SkipBlanks(s);
    var u := SkipZeros(t);
    if u == "" then if t == "" then None else Value(0)
    else if u[0] == '1' then
      if |u| == 1 || (u[1] == '.' && |u| > 2 && AllZeros(u[2..])) then Value(1000) else None
    else if u[0] == '.' && |u| > 1 && AllDigits(u[1..]) then Value(Thousandths(u[1..]))
    else None
  }

  /** The reader accepts exactly those texts, with that value. */
  lemma ReadAccepts(s: string)
    ensures Read(s).Ok? <==> ValueOf(s).Value?
    ensures Read(s).Ok? ==> Read(s).q == ValueOf(s).q && Read(s).q <= MAX_Q
  {
    BlanksSkipped(s);
    var t := SkipBlanks(s);
    var u := SkipZeros(t);
    if t != "" && t[0] == '0' {
      ZerosSkipped(t[1..], BEGIN.(state := Zero));
      AfterZeros(u, BEGIN.(state := Zero));
    } else {
      AfterZeros(t, BEGIN);
    }
    if u != "" && u[0] == '1' {
      OneTailAccepts(u[1..]);
      assert |u| > 2 ==> u[1..][1..] == u[2..];
    } else if u != "" && u[0] == '.' && |u| > 1 && AllDigits(u[1..]) {
      assert IsDigit(u[1..][0]);
    }
  }

  lemma OneTailAccepts(s: string)
    ensures OneTail(s).Ok? <==> s == "" || (s[0] == '.' && |s| > 1 && AllZeros(s[1..]))
    ensures OneTail(s).Ok? ==> OneTail(s).q == 1000
  {
    if |s| > 1 {
      ZeroTailAccepts(s[1..]);
    }
  }

  lemma {:induction false} BlanksSkipped(s: string)
    ensures Run(BEGIN, s) == Run(BEGIN, SkipBlanks(s))
    ensures SkipBlanks(s) != "" ==> SkipBlanks(s)[0] != ' ' && SkipBlanks(s)[0] != '\t'
  {
    if s != "" && (s[0] == ' ' || s[0] == '\t') {
      BlanksSkipped(s[1..]);
    }
  }

  lemma {:induction false} ZerosSkipped(s: string, v: Vars)
    requires v.state == Zero
    ensures Run(v, s) == Run(v, SkipZeros(s)) && (SkipZeros(s) != "" ==> SkipZeros(s)[0] != '0')
  {
    if s != "" && s[0] == '0' {
      ZerosSkipped(s[1..], v);
    }
  }

  /** What is left when blanks and zeros were read. */
  lemma AfterZeros(u: string, v: Vars)
    requires v == BEGIN.(state := Zero) || (v == BEGIN && (u != "" ==> u[0] != ' ' && u[0] != '\t'))
    requires u != "" ==> u[0] != '0'
    ensures u != "" && u[0] == '1' ==>
      Run(v, u) == OneTail(u[1..])
    ensures u != "" && u[0] == '.' ==>
      (Run(v, u).Ok? <==> |u| > 1 && AllDigits(u[1..])) && (Run(v, u).Ok? ==> Run(v, u).q == Thousandths(u[1..]))
    ensures u != "" && u[0] != '1' && u[0] != '.' ==> Run(v, u).Err?
    ensures u == "" ==> Run(v, u) == if v == BEGIN then Err(Empty) else Ok(0)
  {
    if u != "" && u[0] == '1' {
      AfterOne(u[1..], v.(state := One, q := 1000));
    } else if u != "" && u[0] == '.' {
      AfterPoint(u[1..], v.(state := ZeroPt));
    }
  }

  /** The outcome behind a one. */
  function OneTail(s: string): Result {
    if s == "" then Ok(1000)
    else if s[0] != '.' then Err(Misfit(s[0]))
    else if |s| == 1 then Err(DecMissing)
    else ZeroTail(s[1..])
  }

  function ZeroTail(s: string): Result {
    if s == "" then Ok(1000) else if s[0] == '0' then ZeroTail(s[1..]) else Err(Misfit(s[0]))
  }

  lemma {:induction false} ZeroTailAccepts(s: string)
    ensures ZeroTail(s).Ok? <==> AllZeros(s)
    ensures ZeroTail(s).Ok? ==> ZeroTail(s).q == 1000
  {
    if s != "" && s[0] == '0' {
      ZeroTailAccepts(s[1..]);
      assert s == [s[0]] + s[1..];
    }
  }

  lemma AfterOne(s: string, v: Vars)
    requires v.state == One && v.q == 1000
    ensures Run(v, s) == OneTail(s)
  {
    if s != "" && s[0] == '.' && |s| > 1 {
      if s[1] == '0' {
        assert s[1..][1..] == s[2..];
        AfterOnePtZero(s[2..], v.(state := OnePtZero));
      }
    }
  }

  lemma {:induction false} AfterOnePtZero(s: string, v: Vars)
    requires v.state == OnePtZero && v.q == 1000
    ensures Run(v, s) == ZeroTail(s)
  {
    if s != "" && s[0] == '0' {
      AfterOnePtZero(s[1..], v);
    }
  }

  lemma AfterPoint(s: string, v: Vars)
    requires v.state == ZeroPt && v.order == 100 && v.digits == 1
    ensures Run(v, s).Ok? <==> s != "" && AllDigits(s)
    ensures Run(v, s).Ok? ==> Run(v, s).q == Thousandths(s)
  {
    if s != "" && IsDigit(s[0]) {
      DigitsRead(s[1..], v.(state := ZeroPtN, q := DigitValue(s[0]) * 100, order := 10));
      assert AllDigits(s) <==> AllDigits(s[1..]) by {
        assert s == [s[0]] + s[1..];
      }
      if AllDigits(s) {
        MoreIsThousandths(s);
      }
    }
  }

  lemma MoreIsThousandths(s: string)
    requires s != "" && AllDigits(s)
    ensures DigitValue(s[0]) * 100 + More(s[1..], 10) == Thousandths(s)
  {
    if |s| > 1 {
      assert s[1..][1..] == s[2..];
      if |s| > 2 {
        assert s[2..][1..] == s[3..];
        NoMore(s[3..]);
      }
    }
  }

  /** What the digits from the second on add. */
  function More(s: string, order: nat): nat
    requires AllDigits(s)
    decreases |s|
  {
    if s == "" then 0 else DigitValue(s[0]) * order + More(s[1..], order / 10)
  }

  lemma {:induction false} NoMore(s: string)
    requires AllDigits(s)
    ensures More(s, 0) == 0
  {
    if s != "" {
      NoMore(s[1..]);
    }
  }

  lemma {:induction false} DigitsRead(s: string, v: Vars)
    requires v.state == ZeroPtN && (v.digits > 3 ==> v.order == 0)
    requires v.digits == 3 ==> v.order == 0
    requires v.digits == 2 ==> v.order <= 1
    requires v.digits == 1 ==> v.order <= 10
    requires v.digits >= 1
    ensures Run(v, s).Ok? <==> AllDigits(s)
    ensures AllDigits(s) ==> Run(v, s).q == v.q + More(s, v.order)
    decreases |s|
  {
    if s != "" && IsDigit(s[0]) {
      assert AllDigits(s) <==> AllDigits(s[1..]) by {
        assert s == [s[0]] + s[1..];
      }
      var w := Round(v, s[0]).v;
      DigitsRead(s[1..], w);
    }
  }

  // ----- printing -----------------------------------------------------------------------------

  /** len_q. */
  function LenQ(q: int): nat {
    if q == Q_UNSPECIFIED then 0
    else if q >= MAX_Q then 1
    else if q <= 0 then 1
    else if q % 100 == 0 then 3
    else if q % 10 == 0 then 4
    else 5
  }

  function DigitChar(n: nat): char
    requires n < 10
  {
    ('0' as int + n) as char
  }

  /** The digits behind the first one, without trailing zeros. */
  function Tail(r: nat): string
    requires r < 100
  {
    if r == 0 then "" else [DigitChar(r / 10)] + (if r % 10 == 0 then "" else [DigitChar(r % 10)])
  }

  /** The text of a q value. */
  function Text(q: int): string {
    if q == Q_UNSPECIFIED then ""
    else if q >= MAX_Q then "1"
    else if q <= 0 then "0"
    else "0." + [DigitChar(q / 100)] + Tail(q % 100)
  }

  /** q2str fills its buffer of six characters from the front. */
  method Q2Str(q0: int, buf: array<char>) returns (len: nat)
    requires buf.Length == 6
    modifies buf
    ensures len < buf.Length && buf[..len] == Text(q0) && buf[len] == 0 as char
  {
    var p := 0;
    var q := q0;
    if q == Q_UNSPECIFIED {
    } else if q >= MAX_Q {
      buf[0] := '1';
      p := 1;
    } else if q <= 0 {
      buf[0] := '0';
      p := 1;
    } else {
      buf[0], buf[1] := '0', '.';
      buf[2] := (q / 100 + '0' as int) as char;
      p := 3;
      q := q % 100;
      if q != 0 {
        buf[p] := (q / 10 + '0' as int) as char;
        p := p + 1;
        q := q % 10;
        if q != 0 {
          buf[p] := (q + '0' as int) as char;
          p := p + 1;
        }
      }
    }
    buf[p] := 0 as char;
    len := p;
  }

  /** The computed length is the printed length, for every integer. */
  lemma LengthsAgree(q: int)
    ensures |Text(q)| == LenQ(q)
  {
  }

  /** Reading undoes printing on the whole range. */
  lemma RoundTrip(q: nat)
    requires q <= MAX_Q
    ensures Read(Text(q)) == Ok(q)
  {
    ReadAccepts(Text(q));
    if q == 0 {
      assert "0"[1..] == "";
      assert SkipBlanks("0") == "0" && SkipZeros("0") == "";
    } else if q == MAX_Q {
      assert SkipBlanks("1") == "1" && SkipZeros("1") == "1";
    } else {
      FractionReads(q);
    }
  }

  lemma FractionReads(q: nat)
    requires 0 < q < MAX_Q
    ensures ValueOf(Text(q)) == Value(q)
  {
    var s := Text(q);
    var d := [DigitChar(q / 100)] + Tail(q % 100);
    assert s == "0." + d && s[1..] == "." + d && ("." + d)[1..] == d;
    assert SkipBlanks(s) == s;
    assert SkipZeros(s) == "." + d;
    FractionDigits(q);
  }

  lemma FractionDigits(q: nat)
    requires 0 < q < MAX_Q
    ensures var d := [DigitChar(q / 100)] + Tail(q % 100); AllDigits(d) && Thousandths(d) == q
  {
  }
}
