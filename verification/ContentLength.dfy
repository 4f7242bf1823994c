/** The Content-Length that adjust_clen inserts, against the body that is finally written. */
module ContentLength {
  import opened Wrappers
  import opened Decimal
  import opened LumpModel
  import opened LumpTheorems
  import opened Sequences
  import opened LumpOutput
  import opened SipText
  import opened Words

  /** Where the value of a header already in the message lies. */
  datatype Range = Range(offset: nat, len: nat)

  /** get_body: the body starts after the line end at the end of the headers. */
  function GetBody(buf: string, unparsed: nat): Option<nat> {
    if unparsed + 2 <= |buf| && buf[unparsed] == '\r' && buf[unparsed + 1] == '\n' then Some(unparsed + 2)
    else if unparsed + 1 <= |buf| && (buf[unparsed] == '\n' || buf[unparsed] == '\r') then Some(unparsed + 1)
    else None
  }

  /** The lump adjust_clen hangs the new value on: an anchor in front of the end of the
      headers when there is no Content-Length yet, a deletion of the old value when there is. */
  function ClenAnchor(proto: Proto, bodyDelta: int, clen: Option<Range>, unparsed: nat): Option<Op> {
    if (proto == ProtoTcp || proto == ProtoTls) && clen.None? then Some(Nop(unparsed))
    else if bodyDelta == 0 then None
    else match clen
      case None => if proto != ProtoUdp then Some(Nop(unparsed)) else None
      case Some(r) => Some(Del(r.offset, r.len))
  }

  /** The number clen_builder prints, as the unsigned int it passes to int2str. */
  function ClenValue(n: nat, body: nat, bodyDelta: int): nat {
    (n - body + bodyDelta) % WORDS
  }

  /** What clen_builder prints: the bare number in place of an old one, else a whole header. */
  function ClenText(value: nat, bodyOnly: bool): string {
    if bodyOnly then DigitsOf(value) else CONTENT_LENGTH + DigitsOf(value) + CRLF
  }

  // ----- where the body starts ----------------------------------------------------------------

  /** The position of the first deletion or anchor at or behind b0. */
  function FirstFrom(es: seq<Entry>, b0: nat): (k: nat)
    ensures k <= |es|
    ensures forall i :: 0 <= i < k && Placed(es[i].op) ==> es[i].op.offset < b0
    ensures k < |es| ==> Placed(es[k].op) && b0 <= es[k].op.offset
  {
    if es == [] || (Placed(es[0].op) && b0 <= es[0].op.offset) then 0
    else
      assert forall i :: 0 < i < |es| ==> es[i] == es[1..][i - 1];
      1 + FirstFrom(es[1..], b0)
  }

  function Later(s: nat, b0: nat): nat {
    if s < b0 then b0 else s
  }

  /** The change in length that the lumps of a list make at or behind b0: what deletions in front
      of b0 take behind it, and what lumps that start there take and insert. */
  function ChangeBehind(es: seq<Entry>, b0: nat, env: Env): int {
    var k := FirstFrom(es, b0);
    var s := Later(ClipEnd(es[..k], 0), b0);
    b0 - s + Delta(es[k..], s, env)
  }

  /** Both lists as the length passes left them: the lumps in front of the first one that starts in
      the body, and the others. */
  function Front(hs: seq<Entry>, bs: seq<Entry>, b0: nat): seq<Entry> {
    (Clip(hs, 0) + Clip(bs, 0))[..FirstFrom(hs + bs, b0)]
  }

  function Back(hs: seq<Entry>, bs: seq<Entry>, b0: nat): seq<Entry> {
    (Clip(hs, 0) + Clip(bs, 0))[FirstFrom(hs + bs, b0)..]
  }

  /** What is consumed of the message behind the front, but at least b0. */
  function Reached(hs: seq<Entry>, bs: seq<Entry>, b0: nat): nat {
    Later(RenderEnd(Front(hs, bs, b0), 0), b0)
  }

  function RenderToEnd(es: seq<Entry>, s: nat, n: nat, env: Env): seq<Cell>
    requires RenderEnd(es, s) <= n
  {
    Render(es, s, env) + Span(RenderEnd(es, s), n)
  }

  /** What is written in front of the body: the lumps there, and the text up to b0. */
  function HeaderCells(hs: seq<Entry>, bs: seq<Entry>, b0: nat, env: Env): seq<Cell> {
    Render(Front(hs, bs, b0), 0, env) + Span(RenderEnd(Front(hs, bs, b0), 0), Reached(hs, bs, b0))
  }

  /** The body of the finished message: what is written from there on. */
  function BodyCells(hs: seq<Entry>, bs: seq<Entry>, b0: nat, n: nat, env: Env): seq<Cell>
    requires RenderEnd(Back(hs, bs, b0), Reached(hs, bs, b0)) <= n
  {
    RenderToEnd(Back(hs, bs, b0), Reached(hs, bs, b0), n, env)
  }

  predicate AllFrom(es: seq<Entry>, b0: nat) {
    forall i :: 0 <= i < |es| && Placed(es[i].op) ==> b0 <= es[i].op.offset
  }

  // ----- cutting the two lists at the body ----------------------------------------------------

  lemma {:induction false} FirstFromAppend(a: seq<Entry>, b: seq<Entry>, b0: nat)
    ensures FirstFrom(a + b, b0) == if FirstFrom(a, b0) < |a| then FirstFrom(a, b0) else |a| + FirstFrom(b, b0)
  {
    if a == [] {
      assert a + b == b;
    } else {
      FirstFromAppend(a[1..], b, b0);
      assert (a + b)[1..] == a[1..] + b;
    }
  }

  /** Lumps without a place are neither clipped nor do they move anything on. */
  lemma {:induction false} ClipUnplaced(es: seq<Entry>, s: nat, env: Env)
    requires forall i :: 0 <= i < |es| ==> !Placed(es[i].op)
    ensures Clip(es, s) == es && ClipEnd(es, s) == s
    ensures RawDelta(es, env) == |ListText(es, env)| && Lost(es, s, env) == 0 && RenderEnd(es, s) == s
  {
    if es != [] {
      EntryLenAgrees(es[0], env);
      ClipUnplaced(es[1..], s, env);
    }
  }

  lemma {:induction false} ClipCut(es: seq<Entry>, k: nat, s: nat)
    requires k <= |es|
    ensures Clip(es, s) == Clip(es[..k], s) + Clip(es[k..], ClipEnd(es[..k], s))
    ensures ClipEnd(es, s) == ClipEnd(es[k..], ClipEnd(es[..k], s))
  {
    assert es == es[..k] + es[k..];
    ClipAppend(es[..k], es[k..], s);
    ClipEndAppend(es[..k], es[k..], s);
  }

  /** A list that is empty, or starts with a lump placed at or behind b0. */
  predicate BodyList(es: seq<Entry>, b0: nat) {
    es == [] || (Placed(es[0].op) && b0 <= es[0].op.offset)
  }

  lemma {:induction false} BackIsBodyList(hs: seq<Entry>, bs: seq<Entry>, b0: nat, n: nat)
    requires Within(hs, n) && Within(bs, n)
    ensures BodyList(Back(hs, bs, b0), b0) && Within(Back(hs, bs, b0), n)
  {
    var k, c := FirstFrom(hs + bs, b0), Clip(hs, 0) + Clip(bs, 0);
    ClipStaysWithin(hs, 0, n);
    ClipStaysWithin(bs, 0, n);
    if k < |c| {
      ClipRaises(hs, 0);
      ClipRaises(bs, 0);
      assert c[k] == if k < |hs| then Clip(hs, 0)[k] else Clip(bs, 0)[k - |hs|];
    }
  }

  /** Clipping moves a lump to a later offset or leaves it. */
  lemma {:induction false} ClipRaises(es: seq<Entry>, s: nat)
    ensures forall i :: 0 <= i < |es| ==> Placed(Clip(es, s)[i].op) == Placed(es[i].op)
    ensures forall i :: 0 <= i < |es| && Placed(es[i].op) && Placed(Clip(es, s)[i].op) ==>
      es[i].op.offset <= Clip(es, s)[i].op.offset
  {
    if es != [] {
      var c, rest := Clip(es, s), Clip(es[1..], Advance(es[0].op, s));
      ClipRaises(es[1..], Advance(es[0].op, s));
      assert forall i :: 0 < i < |es| ==> c[i] == rest[i - 1] && es[i] == es[1..][i - 1];
    }
  }

  lemma {:induction false} SpanJoin(lo: nat, mid: nat, hi: nat, rest: seq<Cell>)
    requires lo <= mid <= hi
    ensures Span(lo, hi) + rest == Span(lo, mid) + (Span(mid, hi) + rest)
  {
  }

  /** A list of the body can be entered from b0 as well as from in front of it. */
  lemma {:induction false} EnterLater(es: seq<Entry>, s: nat, b0: nat, n: nat, env: Env)
    requires BodyList(es, b0) && s <= b0 <= n && Within(es, n)
    ensures RenderEnd(es, s) <= n && RenderEnd(es, b0) <= n
    ensures RenderToEnd(es, s, n, env) == Span(s, b0) + RenderToEnd(es, b0, n, env)
  {
    RenderStaysWithin(es, s, n);
    RenderStaysWithin(es, b0, n);
    if es == [] {
      SpanJoin(s, b0, n, []);
      assert Render(es, s, env) == [] && Render(es, b0, env) == [];
      assert [] + Span(s, n) == Span(s, n) + [];
      assert [] + Span(b0, n) == Span(b0, n) + [];
    } else {
      var off, end := es[0].op.offset, PlacedEnd(es[0].op);
      var text, tail := News(EntryText(es[0], env)), Render(es[1..], end, env);
      assert off <= end <= n;
      SpanJoin(s, b0, off, text);
      Shuffle(Span(s, b0), Span(b0, off) + text, tail, Span(RenderEnd(es, s), n));
    }
  }

  lemma {:induction false} Shuffle(a: seq<Cell>, b: seq<Cell>, c: seq<Cell>, d: seq<Cell>)
    ensures ((a + b) + c) + d == a + ((b + c) + d)
  {
  }

  /** The finished message renders the front, then the back from where the front ends. */
  lemma {:induction false} OutputCut(hs: seq<Entry>, bs: seq<Entry>, b0: nat, n: nat, env: Env)
    requires Within(hs, n) && Within(bs, n)
    ensures var f, t := Front(hs, bs, b0), Back(hs, bs, b0);
            var s := RenderEnd(f, 0);
            && s <= n && BodyList(t, b0) && Within(t, n) && RenderEnd(t, s) <= n
            && RenderEnd(Clip(bs, 0), RenderEnd(Clip(hs, 0), 0)) == RenderEnd(t, s)
            && Output(Clip(hs, 0), Clip(bs, 0), n, env) == (Render(f, 0, env) + Render(t, s, env)) + Span(RenderEnd(t, s), n)
  {
    var f, t := Front(hs, bs, b0), Back(hs, bs, b0);
    FrontWithin(hs, bs, b0, n);
    BackIsBodyList(hs, bs, b0, n);
    RenderStaysWithin(t, RenderEnd(f, 0), n);
    OutputAsOne(Clip(hs, 0), Clip(bs, 0), f, t, n, env);
  }

  /** However a list is cut in two, it renders the same. */
  lemma {:induction false} OutputAsOne(hs: seq<Entry>, bs: seq<Entry>, f: seq<Entry>, t: seq<Entry>, n: nat, env: Env)
    requires f + t == hs + bs && RenderEnd(t, RenderEnd(f, 0)) <= n
    ensures RenderEnd(bs, RenderEnd(hs, 0)) == RenderEnd(t, RenderEnd(f, 0))
    ensures Output(hs, bs, n, env)
            == (Render(f, 0, env) + Render(t, RenderEnd(f, 0), env)) + Span(RenderEnd(t, RenderEnd(f, 0)), n)
  {
    RenderAppend(hs, bs, 0, env);
    RenderAppend(f, t, 0, env);
  }

  /** The finished message is what is written in front of the body, then the body. */
  lemma {:induction false} OutputSplits(hs: seq<Entry>, bs: seq<Entry>, b0: nat, n: nat, env: Env)
    requires Within(hs, n) && Within(bs, n) && b0 <= n
    ensures RenderEnd(Clip(bs, 0), RenderEnd(Clip(hs, 0), 0)) <= n
    ensures RenderEnd(Back(hs, bs, b0), Reached(hs, bs, b0)) <= n
    ensures Output(Clip(hs, 0), Clip(bs, 0), n, env) == HeaderCells(hs, bs, b0, env) + BodyCells(hs, bs, b0, n, env)
  {
    var f, t := Front(hs, bs, b0), Back(hs, bs, b0);
    OutputCut(hs, bs, b0, n, env);
    EnterAt(Render(f, 0, env), t, RenderEnd(f, 0), b0, n, env);
  }

  lemma {:induction false} EnterAt(x: seq<Cell>, t: seq<Entry>, s: nat, b0: nat, n: nat, env: Env)
    requires BodyList(t, b0) && s <= n && b0 <= n && Within(t, n)
    ensures var from := if s < b0 then b0 else s;
      && RenderEnd(t, s) <= n && RenderEnd(t, from) <= n
      && (x + Render(t, s, env)) + Span(RenderEnd(t, s), n) == (x + Span(s, from)) + RenderToEnd(t, from, n, env)
  {
    EnterAnywhere(t, s, b0, n, env);
    var from := if s < b0 then b0 else s;
    Rejoin(x, Render(t, s, env), Span(RenderEnd(t, s), n), Span(s, from), RenderToEnd(t, from, n, env));
  }

  lemma {:induction false} EnterAnywhere(es: seq<Entry>, s: nat, b0: nat, n: nat, env: Env)
    requires BodyList(es, b0) && s <= n && b0 <= n && Within(es, n)
    ensures var from := if s < b0 then b0 else s;
      && RenderEnd(es, s) <= n && RenderEnd(es, from) <= n
      && RenderToEnd(es, s, n, env) == Span(s, from) + RenderToEnd(es, from, n, env)
  {
    if s < b0 {
      EnterLater(es, s, b0, n, env);
    } else {
      RenderStaysWithin(es, s, n);
      assert Span(s, s) + RenderToEnd(es, s, n, env) == RenderToEnd(es, s, n, env);
    }
  }

  lemma {:induction false} Rejoin(x: seq<Cell>, y: seq<Cell>, z: seq<Cell>, p: seq<Cell>, q: seq<Cell>)
    requires y + z == p + q
    ensures (x + y) + z == (x + p) + q
  {
    Regroup(x, y, z);
    Regroup(x, p, q);
  }

  lemma {:induction false} FrontWithin(hs: seq<Entry>, bs: seq<Entry>, b0: nat, n: nat)
    requires Within(hs, n) && Within(bs, n)
    ensures Within(Front(hs, bs, b0), n) && RenderEnd(Front(hs, bs, b0), 0) <= n
  {
    var c := Clip(hs, 0) + Clip(bs, 0);
    ClipStaysWithin(hs, 0, n);
    ClipStaysWithin(bs, 0, n);
    assert forall i :: 0 <= i < |c| ==> c[i] == if i < |hs| then Clip(hs, 0)[i] else Clip(bs, 0)[i - |hs|];
    RenderStaysWithin(Front(hs, bs, b0), 0, n);
  }

  /** The front is the header lumps in front of the body and, if those are all, the body lumps
      there. */
  lemma {:induction false} FrontIs(hs: seq<Entry>, bs: seq<Entry>, b0: nat)
    ensures var k := FirstFrom(hs, b0);
            && Clip(hs, 0)[..k] == Clip(hs[..k], 0)
            && Front(hs, bs, b0) == Clip(hs[..k], 0) + if k < |hs| then [] else Clip(bs, 0)[..FirstFrom(bs, b0)]
  {
    var k := FirstFrom(hs, b0);
    FirstFromAppend(hs, bs, b0);
    ClipCut(hs, k, 0);
    if k == |hs| {
      assert hs[..k] == hs;
    }
  }

  // ----- the length of the body ---------------------------------------------------------------

  lemma {:induction false} DeltaAppend(a: seq<Entry>, b: seq<Entry>, s: nat, env: Env)
    ensures RawDelta(a + b, env) == RawDelta(a, env) + RawDelta(b, env)
    ensures Lost(a + b, s, env) == Lost(a, s, env) + Lost(b, RenderEnd(a, s), env)
  {
    if a == [] {
      assert a + b == b;
    } else {
      DeltaAppend(a[1..], b, StepEnd(a[0].op, s), env);
      assert (a + b)[1..] == a[1..] + b;
    }
  }

  /** A list of the body fares the same wherever in front of b0 it is entered. */
  lemma {:induction false} SameFromLater(es: seq<Entry>, s: nat, b0: nat, env: Env)
    requires BodyList(es, b0) && s <= b0
    ensures Lost(es, s, env) == Lost(es, b0, env)
    ensures Clip(es, s) == Clip(es, b0) && es != [] ==> ClipEnd(es, s) == ClipEnd(es, b0)
  {
  }

  /** By how much the body lumps that start in front of the body, entered with s bytes consumed,
      move its start in the finished message. */
  function LeadChange(bs: seq<Entry>, b0: nat, s: nat, env: Env): int {
    var lead := Clip(bs, 0)[..FirstFrom(bs, b0)];
    RawDelta(lead, env) - Lost(lead, s, env) + Later(RenderEnd(lead, s), b0) - Later(s, b0)
  }

  /** What the number counts and the body has not, or the other way round: what body lumps change
      in front of the body, and what ignored body lumps stood for. */
  function Miscounted(hs: seq<Entry>, bs: seq<Entry>, b0: nat, env: Env): int {
    (if FirstFrom(hs, b0) < |hs| then 0 else LeadChange(bs, b0, ClipEnd(hs, 0), env))
    + Lost(Clip(bs, 0), ClipEnd(hs, 0), env)
  }

  /** By how much the number is too large. */
  function Excess(hs: seq<Entry>, bs: seq<Entry>, b0: nat, env: Env): int {
    Miscounted(hs, bs, b0, env) - ChangeBehind(hs, b0, env)
  }

  lemma {:induction false} DeltaCut(es: seq<Entry>, k: nat, env: Env)
    requires k <= |es|
    ensures Delta(es, 0, env) == Delta(es[..k], 0, env) + Delta(es[k..], ClipEnd(es[..k], 0), env)
  {
    ClipCut(es, k, 0);
    DeltaAppend(Clip(es[..k], 0), Clip(es[k..], ClipEnd(es[..k], 0)), 0, env);
    DeltaIsRawDelta(es, 0, env);
    DeltaIsRawDelta(es[..k], 0, env);
    DeltaIsRawDelta(es[k..], ClipEnd(es[..k], 0), env);
  }

  /** Entering a list of the body later changes nothing. */
  lemma {:induction false} DeltaFromLater(es: seq<Entry>, s: nat, b0: nat, env: Env)
    requires BodyList(es, b0)
    ensures Delta(es, s, env) == Delta(es, Later(s, b0), env)
  {
    if s < b0 {
      SameFromLater(es, s, b0, env);
      DeltaIsRawDelta(es, s, env);
      DeltaIsRawDelta(es, b0, env);
    }
  }

  /** The length of what is written in front of the body. */
  lemma {:induction false} HeaderLength(hs: seq<Entry>, bs: seq<Entry>, b0: nat, env: Env)
    ensures |HeaderCells(hs, bs, b0, env)|
            == b0 + Delta(hs, 0, env) - ChangeBehind(hs, b0, env)
               + if FirstFrom(hs, b0) < |hs| then 0 else LeadChange(bs, b0, ClipEnd(hs, 0), env)
  {
    var k := FirstFrom(hs, b0);
    var h, f := hs[..k], Front(hs, bs, b0);
    var lead := if k < |hs| then [] else Clip(bs, 0)[..FirstFrom(bs, b0)];
    FrontIs(hs, bs, b0);
    RenderLength(f, 0, env);
    DeltaAppend(Clip(h, 0), lead, 0, env);
    RenderEndAppend(Clip(h, 0), lead, 0);
    ClipRemovesOverlaps(h, 0);
    NothingLost(Clip(h, 0), 0, env);
    DeltaIsRawDelta(h, 0, env);
    DeltaCut(hs, k, env);
    DeltaFromLater(hs[k..], ClipEnd(h, 0), b0, env);
    if k == |hs| {
      assert h == hs;
    }
  }

  lemma {:induction false} BodyLength(hs: seq<Entry>, bs: seq<Entry>, b0: nat, n: nat, env: Env)
    requires Within(hs, n) && Within(bs, n) && b0 <= n
    ensures RenderEnd(Back(hs, bs, b0), Reached(hs, bs, b0)) <= n
    ensures n - b0 + Delta(bs, 0, env)
            == |BodyCells(hs, bs, b0, n, env)| + Excess(hs, bs, b0, env)
  {
    OutputSplits(hs, bs, b0, n, env);
    OutputLength(hs, bs, n, env);
    HeaderLength(hs, bs, b0, env);
    ClipRemovesOverlaps(hs, 0);
  }

  lemma {:induction false} NothingLostInBody(bs: seq<Entry>, b0: nat, s: nat, env: Env)
    requires AllFrom(bs, b0) && s <= b0
    ensures Lost(Clip(bs, 0), s, env) == 0
  {
    AllFromStarts(bs, b0);
    ClipFromLater(bs, 0, b0);
    ClipRemovesOverlaps(bs, 0);
    OverlapIffStartsBefore(Clip(bs, 0), 0, s);
    StartsEarlier(Clip(bs, 0), s, b0);
    NothingLost(Clip(bs, 0), s, env);
  }

  lemma {:induction false} StartsEarlier(es: seq<Entry>, s: nat, h: nat)
    requires StartsAfter(es, h) && s <= h
    ensures StartsAfter(es, s)
  {
    if es != [] && !Placed(es[0].op) {
      StartsEarlier(es[1..], s, h);
    }
  }

  lemma {:induction false} AllFromStarts(bs: seq<Entry>, b0: nat)
    requires AllFrom(bs, b0)
    ensures StartsAfter(bs, b0)
  {
    if bs != [] && !Placed(bs[0].op) {
      assert forall i :: 0 <= i < |bs[1..]| ==> bs[1..][i] == bs[i + 1];
      AllFromStarts(bs[1..], b0);
    }
  }

  lemma {:induction false} ClipAllFrom(bs: seq<Entry>, b0: nat)
    requires AllFrom(bs, b0)
    ensures AllFrom(Clip(bs, 0), b0) && Clip(bs, 0) == Clip(bs, b0)
  {
    AllFromStarts(bs, b0);
    ClipFromLater(bs, 0, b0);
    ClipOffsets(bs, b0);
  }

  lemma {:induction false} NumberIsValue(n: nat, body: nat, bodyDelta: int)
    ensures NumberOf(DigitsOf(ClenValue(n, body, bodyDelta))) == (n - body + bodyDelta) % WORDS
  {
  }

  /** The number that clen_builder prints for the body list. */
  function ClenNumber(bs: seq<Entry>, b0: nat, n: nat, env: Env): nat {
    NumberOf(DigitsOf(ClenValue(n, b0, Delta(bs, 0, env))))
  }

  /** A number that is off by wrong comes out right as an unsigned int. */
  predicate MakesUp(wrong: int, body: nat) {
    body < WORDS && wrong % WORDS == 0
  }

  lemma {:induction false} SameModulo(value: int, body: nat, d: int)
    requires value == body + d
    ensures value % WORDS == body <==> MakesUp(d, body)
  {
  }

  /** The number that clen_builder prints, an unsigned int, against the body that is written.  The
      number knows nothing of what header lumps do to the body; it is right if and only if that
      makes up for what it miscounts. */
  lemma {:induction false} ClenValueIsBodyLength(hs: seq<Entry>, bs: seq<Entry>, b0: nat, n: nat, env: Env)
    requires Within(hs, n) && Within(bs, n) && b0 <= n
    ensures RenderEnd(Back(hs, bs, b0), Reached(hs, bs, b0)) <= n
    ensures var number, body := ClenNumber(bs, b0, n, env), |BodyCells(hs, bs, b0, n, env)|;
            var wrong := Excess(hs, bs, b0, env);
            && number == (body + wrong) % WORDS
            && (number == body <==> MakesUp(wrong, body))
            && (0 <= n - b0 + Delta(bs, 0, env) < WORDS ==> number == body + wrong && (number == body <==> wrong == 0))
  {
    var value := n - b0 + Delta(bs, 0, env);
    NumberIsValue(n, b0, Delta(bs, 0, env));
    BodyLength(hs, bs, b0, n, env);
    SameModulo(value, |BodyCells(hs, bs, b0, n, env)|, Excess(hs, bs, b0, env));
  }

  /** With the body lumps in the body, what they change in front of it is the text of those without
      a place. */
  lemma {:induction false} LeadIsText(bs: seq<Entry>, b0: nat, s: nat, env: Env)
    requires AllFrom(bs, b0)
    ensures LeadChange(bs, b0, s, env) == |ListText(bs[..FirstFrom(bs, b0)], env)|
  {
    var k := FirstFrom(bs, b0);
    ClipCut(bs, k, 0);
    ClipUnplaced(bs[..k], 0, env);
    ClipUnplaced(bs[..k], s, env);
  }

  /** When moreover the header lumps end in front of the body, only that text makes the number wrong. */
  lemma {:induction false} HeadersEndBeforeBody(hs: seq<Entry>, bs: seq<Entry>, b0: nat, env: Env)
    requires AllFrom(bs, b0)
    requires forall i :: 0 <= i < |hs| && Placed(hs[i].op) ==> hs[i].op.offset < b0 && PlacedEnd(hs[i].op) <= b0
    ensures ChangeBehind(hs, b0, env) == 0
    ensures Miscounted(hs, bs, b0, env) == |ListText(bs[..FirstFrom(bs, b0)], env)|
  {
    assert FirstFrom(hs, b0) == |hs| && hs[..|hs|] == hs && hs[|hs|..] == [];
    ClipEndIsFurthest(hs, 0);
    NothingLostInBody(bs, b0, ClipEnd(hs, 0), env);
    LeadIsText(bs, b0, ClipEnd(hs, 0), env);
  }

  // ----- where the number stands --------------------------------------------------------------

  /** In front of b0 the lumps that start there decide what is deleted. */
  lemma {:induction false} FrontCovers(hs: seq<Entry>, b0: nat, p: nat)
    requires Sorted(hs) && p < b0
    ensures Covered(hs[..FirstFrom(hs, b0)], p) <==> Covered(hs, p)
  {
    var h := hs[..FirstFrom(hs, b0)];
    if Covered(h, p) {
      var i :| 0 <= i < |h| && h[i].op.Del? && h[i].op.offset <= p < PlacedEnd(h[i].op);
      assert hs[i] == h[i];
    }
    if Covered(hs, p) {
      var i :| 0 <= i < |hs| && hs[i].op.Del? && hs[i].op.offset <= p < PlacedEnd(hs[i].op);
      assert i < |h| && h[i] == hs[i];
    }
  }

  lemma {:induction false} FrontUncovers(hs: seq<Entry>, b0: nat, lo: nat, hi: nat)
    requires Sorted(hs) && hi <= b0
    ensures Uncovered(hs[..FirstFrom(hs, b0)], lo, hi) == Uncovered(hs, lo, hi)
  {
    forall p: nat | lo <= p < hi
      ensures Covered(hs[..FirstFrom(hs, b0)], p) == Covered(hs, p)
    {
      FrontCovers(hs, b0, p);
    }
    UncoveredSame(hs[..FirstFrom(hs, b0)], hs, lo, hi);
  }

  /** What is written in front of the body starts with the rendered header lumps. */
  lemma {:induction false} HeaderStarts(hs: seq<Entry>, bs: seq<Entry>, b0: nat, env: Env) returns (more: seq<Cell>)
    ensures HeaderCells(hs, bs, b0, env) == Render(Clip(hs[..FirstFrom(hs, b0)], 0), 0, env) + more
    ensures AllFrom(bs, b0) ==>
      Origs(more) == Origs(Span(ClipEnd(hs[..FirstFrom(hs, b0)], 0), Later(ClipEnd(hs[..FirstFrom(hs, b0)], 0), b0)))
  {
    var k := FirstFrom(hs, b0);
    var h := hs[..k];
    var lead := if k < |hs| then [] else Clip(bs, 0)[..FirstFrom(bs, b0)];
    var e := ClipEnd(h, 0);
    FrontIs(hs, bs, b0);
    ClipRemovesOverlaps(h, 0);
    RenderAppend(Clip(h, 0), lead, 0, env);
    var rest := Span(RenderEnd(Front(hs, bs, b0), 0), Reached(hs, bs, b0));
    more := Render(lead, e, env) + rest;
    Regroup(Render(Clip(h, 0), 0, env), Render(lead, e, env), rest);
    if AllFrom(bs, b0) {
      ClipCut(bs, FirstFrom(bs, b0), 0);
      ClipUnplaced(bs[..FirstFrom(bs, b0)], 0, env);
      UnplacedNotOriginal(lead, e, env);
      OrigsConcat(Render(lead, e, env), rest);
    }
  }

  lemma {:induction false} UnplacedNotOriginal(es: seq<Entry>, s: nat, env: Env)
    requires forall i :: 0 <= i < |es| ==> !Placed(es[i].op)
    ensures Origs(Render(es, s, env)) == [] && RenderEnd(es, s) == s
  {
    if es != [] {
      UnplacedNotOriginal(es[1..], s, env);
      FiltersNews(EntryText(es[0], env));
      OrigsConcat(RenderEntry(es[0], s, env), Render(es[1..], s, env));
      assert [] + News(EntryText(es[0], env)) == News(EntryText(es[0], env));
    }
  }

  /** The header lumps leave the same text between a lump's end and b0 whether or not they reach
      behind b0. */
  lemma {:induction false} UncoveredToBody(h: seq<Entry>, end: nat, b0: nat)
    requires forall i :: 0 <= i < |h| && Placed(h[i].op) ==> h[i].op.offset < b0
    requires end <= b0 && end <= ClipEnd(h, 0)
    ensures Uncovered(h, end, ClipEnd(h, 0)) + Origs(Span(ClipEnd(h, 0), Later(ClipEnd(h, 0), b0))) == Uncovered(h, end, b0)
  {
    var e := ClipEnd(h, 0);
    ClipEndIsFurthest(h, 0);
    if e <= b0 {
      UncoveredSplit(h, end, e, b0);
      FiltersSpan(h, e, b0);
    } else {
      UncoveredSplit(h, end, b0, e);
      forall p: nat | b0 <= p < e
        ensures Covered(h, p)
      {
        CoveredUpToEnd(h, b0, p);
      }
      UncoveredNone(h, b0, e);
      FiltersSpan(h, e, e);
    }
  }

  /** text in cells, with the original text that hs leaves in front of op, and behind it up to b0
      unless body lumps start there as well. */
  ghost predicate Places(cells: seq<Cell>, text: string, hs: seq<Entry>, bs: seq<Entry>, op: Op, b0: nat,
                         front: seq<Cell>, back: seq<Cell>)
    requires Placed(op)
  {
    && cells == front + News(text) + back
    && Origs(front) == Uncovered(hs, 0, op.offset)
    && (AllFrom(bs, b0) && PlacedEnd(op) <= b0 ==> Origs(back) == Uncovered(hs, PlacedEnd(op), b0))
  }

  /** The text of a header lump in what is written in front of the body. */
  lemma {:induction false} HeaderPlace(hs: seq<Entry>, i: nat, bs: seq<Entry>, b0: nat, env: Env)
    requires Sorted(hs) && i < |hs| && Placed(hs[i].op) && hs[i].op.offset < b0
    ensures exists front, back ::
      Places(HeaderCells(hs, bs, b0, env), EntryText(hs[i], env), hs, bs, hs[i].op, b0, front, back)
  {
    var k := FirstFrom(hs, b0);
    var h, off, end := hs[..k], hs[i].op.offset, PlacedEnd(hs[i].op);
    var e, text := ClipEnd(h, 0), EntryText(hs[i], env);
    assert i < k && h[i] == hs[i];
    ClipEndIsFurthest(h, 0);
    InsertionPlace(h, i, e, env);
    var front, back0 :|
      && Render(Clip(h, 0), 0, env) + Span(e, e) == front + News(text) + back0
      && Origs(front) == Uncovered(h, 0, off) && Origs(back0) == Uncovered(h, end, e);
    assert Render(Clip(h, 0), 0, env) + Span(e, e) == Render(Clip(h, 0), 0, env);
    var more := HeaderStarts(hs, bs, b0, env);
    Regroup(front + News(text), back0, more);
    FrontUncovers(hs, b0, 0, off);
    BackPlace(hs, bs, b0, end, back0, more);
    assert Places(HeaderCells(hs, bs, b0, env), text, hs, bs, hs[i].op, b0, front, back0 + more);
  }

  lemma {:induction false} BackPlace(hs: seq<Entry>, bs: seq<Entry>, b0: nat, end: nat, back0: seq<Cell>, more: seq<Cell>)
    requires Sorted(hs) && end <= ClipEnd(hs[..FirstFrom(hs, b0)], 0)
    requires Origs(back0) == Uncovered(hs[..FirstFrom(hs, b0)], end, ClipEnd(hs[..FirstFrom(hs, b0)], 0))
    requires AllFrom(bs, b0) ==>
      Origs(more) == Origs(Span(ClipEnd(hs[..FirstFrom(hs, b0)], 0), Later(ClipEnd(hs[..FirstFrom(hs, b0)], 0), b0)))
    ensures AllFrom(bs, b0) && end <= b0 ==> Origs(back0 + more) == Uncovered(hs, end, b0)
  {
    OrigsConcat(back0, more);
    if AllFrom(bs, b0) && end <= b0 {
      FrontUncovers(hs, b0, end, b0);
      UncoveredToBody(hs[..FirstFrom(hs, b0)], end, b0);
    }
  }

  ghost predicate BodyDefined(hs: seq<Entry>, bs: seq<Entry>, b0: nat, n: nat) {
    && RenderEnd(Clip(bs, 0), RenderEnd(Clip(hs, 0), 0)) <= n
    && RenderEnd(Back(hs, bs, b0), Reached(hs, bs, b0)) <= n
  }

  /** The finished message is the text in front of op, what op inserts, the rest of the headers,
      and the body. */
  ghost predicate ReadsAs(hs: seq<Entry>, bs: seq<Entry>, op: Op, text: string, b0: nat, n: nat, env: Env)
    requires BodyDefined(hs, bs, b0, n) && Placed(op)
  {
    exists headers, front, back ::
      && Output(Clip(hs, 0), Clip(bs, 0), n, env) == headers + BodyCells(hs, bs, b0, n, env)
      && Places(headers, text, hs, bs, op, b0, front, back)
  }

  /** Where the value of the lump that adjust_clen filed stands; it is the length of the body
      exactly when nothing is miscounted. */
  lemma {:induction false} ContentLengthCorrect(hs: seq<Entry>, i: nat, bs: seq<Entry>, b0: nat, n: nat, env: Env,
                                                bodyOnly: bool)
    requires Sorted(hs) && Within(hs, n) && Within(bs, n) && b0 <= n
    requires i < |hs| && Placed(hs[i].op) && hs[i].op.offset < b0
    requires EntryText(hs[i], env) == ClenText(ClenValue(n, b0, Delta(bs, 0, env)), bodyOnly)
    ensures BodyDefined(hs, bs, b0, n) && ReadsAs(hs, bs, hs[i].op, EntryText(hs[i], env), b0, n, env)
    ensures ClenNumber(bs, b0, n, env) == |BodyCells(hs, bs, b0, n, env)|
            <==> MakesUp(Excess(hs, bs, b0, env), |BodyCells(hs, bs, b0, n, env)|)
  {
    OutputSplits(hs, bs, b0, n, env);
    ClenValueIsBodyLength(hs, bs, b0, n, env);
    HeaderPlace(hs, i, bs, b0, env);
    var front, back :| Places(HeaderCells(hs, bs, b0, env), EntryText(hs[i], env), hs, bs, hs[i].op, b0, front, back);
  }

  // ----- ways to be wrong ---------------------------------------------------------------------

  /** Text in front of the first anchor of the body list is counted but lands in the headers:
      the printed number is then too large by one. */
  lemma {:induction false} ClenValueMayBeWrong(env: Env)
    ensures var bs := [Entry(Add("x"), [], [])];
            && RenderEnd(Back([], bs, 4), Reached([], bs, 4)) <= 6
            && |BodyCells([], bs, 4, 6, env)| == 2
            && ClenNumber(bs, 4, 6, env) == 3
  {
    var bs := [Entry(Add("x"), [], [])];
    assert FirstFrom(bs[1..], 4) == 0 && bs[..1] == bs;
    Single(bs[0], 0, env);
    HeadersEndBeforeBody([], bs, 4, env);
    ClenValueIsBodyLength([], bs, 4, 6, env);
  }

  /** A header deletion from the end of the headers to the end of the message takes the body
      along, and the number counts all of it. */
  lemma {:induction false} DeletedBodyIsCounted(text: string, env: Env)
    ensures var hs := [Entry(Del(3, 6), [], []), Entry(Nop(3), [], [Add(text)])];
            && Sorted(hs) && Within(hs, 9) && Separate(hs, [])
            && RenderEnd(Back(hs, [], 5), Reached(hs, [], 5)) <= 9
            && BodyCells(hs, [], 5, 9, env) == []
            && ClenNumber([], 5, 9, env) == 4
  {
    var hs := [Entry(Del(3, 6), [], []), Entry(Nop(3), [], [Add(text)])];
    var none: seq<Entry> := [];
    assert hs[1..] == [hs[1]];
    assert FirstFrom(hs, 5) == 2 by {
      assert [hs[1]][1..] == none;
      assert FirstFrom(none, 5) == 0 && FirstFrom([hs[1]], 5) == 1;
    }
    assert hs[..2] == hs && hs[2..] == none;
    assert ClipEnd(hs, 0) == 9 by {
      Single(hs[1], 9, env);
      assert Advance(hs[0].op, 0) == 9;
    }
    HeadersEndBeforeBody([], none, 5, env);
    LeadIsText(none, 5, 9, env);
    ClenValueIsBodyLength(hs, none, 5, 9, env);
  }
}
