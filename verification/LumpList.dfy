/** Lump lists in memory.  A top-level lump is an object that the length pass repairs in
    place and that callers keep as an anchor for later insertions; a list is the sequence of
    its lumps in "next" order, and the chains hanging off a lump are sequences in link order. */
module LumpList {
  import opened LumpModel
  import opened LumpTheorems
  import opened Sequences

  /** struct lump.  op stands for the fields op, u and len together. */
  class Lump {
    var op: Op
    var before: seq<Op>
    var after: seq<Op>

    constructor (op: Op)
      ensures this.op == op && before == [] && after == []
    {
      this.op, before, after := op, [], [];
    }
  }

  function EntryOf(l: Lump): Entry
    reads l
  {
    Entry(l.op, l.before, l.after)
  }

  /** A list as a value. */
  function Entries(lumps: seq<Lump>): (es: seq<Entry>)
    reads lumps
    ensures |es| == |lumps|
    ensures forall i :: 0 <= i < |lumps| ==> es[i] == EntryOf(lumps[i])
  {
    seq(|lumps|, i requires 0 <= i < |lumps| reads lumps => EntryOf(lumps[i]))
  }

  ghost predicate Distinct(lumps: seq<Lump>) {
    forall i, j :: 0 <= i < j < |lumps| ==> lumps[i] != lumps[j]
  }

  // ----- the length pass --------------------------------------------------------------------

  /** One of the chain loops of lumps_len. */
  method ChainLength(chain: seq<Op>, env: Env) returns (len: nat)
    ensures len == ChainLen(chain, env)
  {
    len := 0;
    for i := 0 to |chain|
      invariant len + ChainLen(chain[i..], env) == ChainLen(chain, env)
    {
      assert chain[i..][1..] == chain[i + 1..];
      match chain[i] {
        case Add(text) => len := len + |text|;
        case AddSubst(subst) => len := len + SubstLen(subst, env);
        case AddOpt(cond) =>
          if !CondHolds(cond, env) {
            return;
          }
        case _ =>
      }
    }
  }

  /** One round of lumps_len's loop: the length a lump and its chains add, less the text it
      removes, after repairing a lump that starts inside text already consumed. */
  method MeasureLump(t: Lump, sOffset: nat, env: Env) returns (len: int, sOffset': nat)
    modifies t`op
    ensures t.op == ClipOp(old(t.op), sOffset)
    ensures sOffset' == Advance(old(t.op), sOffset)
    ensures len == EntryLen(old(EntryOf(t)), env) - Removed(t.op)
  {
    sOffset' := sOffset;
    if t.op.AddOpt? && !CondHolds(t.op.cond, env) {
      return 0, sOffset;
    }
    var b := ChainLength(t.before, env);
    len := b;
    match t.op {
      case Add(text) => len := len + |text|;
      case AddSubst(subst) => len := len + SubstLen(subst, env);
      case AddOpt(_) =>
      case Del(offset, dlen) =>
        if offset < sOffset {
          t.op := Del(sOffset, if dlen > sOffset - offset then dlen - (sOffset - offset) else 0);
        }
        sOffset' := t.op.offset + t.op.len;
        len := len - t.op.len;
      case Nop(offset) =>
        if offset < sOffset {
          t.op := Nop(sOffset);
        } else {
          sOffset' := offset;
        }
    }
    var a := ChainLength(t.after, env);
    len := len + a;
  }

  /** The variables of lumps_len on reaching position i, and the repaired lumps so far. */
  datatype Progress = Progress(sOffset: nat, newLen: int, ops: seq<Op>)

  ghost function ProgressAt(es: seq<Entry>, i: nat, env: Env): (p: Progress)
    requires i <= |es|
    ensures |p.ops| == i
  {
    if i == 0 then Progress(0, 0, [])
    else
      var p, op := ProgressAt(es, i - 1, env), es[i - 1].op;
      Progress(Advance(op, p.sOffset),
               p.newLen + EntryLen(es[i - 1], env) - Removed(ClipOp(op, p.sOffset)),
               p.ops + [ClipOp(op, p.sOffset)])
  }

  lemma {:induction false} ProgressSplits(es: seq<Entry>, i: nat, env: Env)
    requires i <= |es|
    ensures var p := ProgressAt(es, i, env);
            && p.newLen + Delta(es[i..], p.sOffset, env) == Delta(es, 0, env)
            && Clip(es, 0)[i..] == Clip(es[i..], p.sOffset)
            && forall j :: 0 <= j < i ==> Clip(es, 0)[j] == es[j].(op := p.ops[j])
  {
    if i == 0 {
      assert es[0..] == es && Clip(es, 0)[0..] == Clip(es, 0);
    } else {
      ProgressSplits(es, i - 1, env);
      var p := ProgressAt(es, i - 1, env);
      assert es[i - 1..][1..] == es[i..];
      var c := Clip(es[i - 1..], p.sOffset);
      assert c[1..] == Clip(es[i..], Advance(es[i - 1].op, p.sOffset));
      assert Clip(es, 0)[i..] == Clip(es, 0)[i - 1..][1..];
      assert Clip(es, 0)[i - 1] == c[0];
    }
  }

  lemma {:induction false} ProgressEnds(es: seq<Entry>, env: Env)
    ensures ProgressAt(es, |es|, env).newLen == Delta(es, 0, env)
    ensures forall j :: 0 <= j < |es| ==> Clip(es, 0)[j] == es[j].(op := ProgressAt(es, |es|, env).ops[j])
  {
    ProgressSplits(es, |es|, env);
    assert es[|es|..] == [];
  }

  /** lumps_len: returns the length difference and clips overlapping deletions in place. */
  method LumpsLen(lumps: seq<Lump>, env: Env) returns (newLen: int)
    requires Distinct(lumps)
    modifies (set l | l in lumps)`op
    ensures Entries(lumps) == Clip(old(Entries(lumps)), 0)
    ensures newLen == Delta(old(Entries(lumps)), 0, env)
  {
    ghost var es := Entries(lumps);
    var sOffset: nat := 0;
    newLen := 0;
    for i := 0 to |lumps|
      invariant MeasuredTo(lumps, es, i, sOffset, newLen, env)
    {
      newLen, sOffset := MeasureNext(lumps[i], lumps, es, i, sOffset, newLen, env);
    }
    ProgressEnds(es, env);
  }

  /** The loop is at position i with these variables: the lumps before i are repaired. */
  ghost predicate MeasuredTo(lumps: seq<Lump>, es: seq<Entry>, i: nat, sOffset: nat, newLen: int, env: Env)
    reads lumps
  {
    && i <= |lumps| == |es|
    && sOffset == ProgressAt(es, i, env).sOffset && newLen == ProgressAt(es, i, env).newLen
    && (forall j :: 0 <= j < i ==> EntryOf(lumps[j]) == es[j].(op := ProgressAt(es, i, env).ops[j]))
    && forall j :: i <= j < |lumps| ==> EntryOf(lumps[j]) == es[j]
  }

  /** One round of the loop. */
  method MeasureNext(t: Lump, ghost lumps: seq<Lump>, ghost es: seq<Entry>, ghost i: nat, sOffset: nat, newLen: int,
                     env: Env)
    returns (newLen': int, sOffset': nat)
    requires Distinct(lumps) && i < |lumps| && t == lumps[i] && MeasuredTo(lumps, es, i, sOffset, newLen, env)
    modifies t`op
    ensures MeasuredTo(lumps, es, i + 1, sOffset', newLen', env)
  {
    var len: int;
    assert EntryOf(t) == es[i];
    len, sOffset' := MeasureLump(t, sOffset, env);
    newLen' := newLen + len;
  }

  // ----- the writing pass --------------------------------------------------------------------

  /** The contents of a buffer after text has been copied in at offset. */
  function Spliced(content: string, offset: nat, text: string): string
    requires offset + |text| <= |content|
  {
    content[..offset] + text + content[offset + |text|..]
  }

  lemma {:induction false} SplicedTwice(content: string, offset: nat, a: string, b: string)
    requires offset + |a| + |b| <= |content|
    ensures Spliced(Spliced(content, offset, a), offset + |a|, b) == Spliced(content, offset, a + b)
  {
  }

  lemma {:induction false} SplicedNothing(content: string, offset: nat)
    requires offset <= |content|
    ensures Spliced(content, offset, "") == content
  {
  }

  /** memcpy(buf + offset, text), followed by the advance of offset. */
  method Copy(buf: array<char>, offset: nat, text: string) returns (offset': nat)
    requires offset + |text| <= buf.Length
    modifies buf
    ensures offset' == offset + |text|
    ensures buf[..] == Spliced(old(buf[..]), offset, text)
  {
    forall i | 0 <= i < |text| {
      buf[offset + i] := text[i];
    }
    offset' := offset + |text|;
  }

  /** One case of the inner switches: the bytes of a single lump. */
  method WriteOp(op: Op, buf: array<char>, offset: nat, env: Env) returns (offset': nat)
    requires offset + |OpText(op, env)| <= buf.Length
    modifies buf
    ensures offset' == offset + |OpText(op, env)|
    ensures buf[..] == Spliced(old(buf[..]), offset, OpText(op, env))
  {
    offset' := offset;
    SplicedNothing(buf[..], offset);
    match op {
      case Add(text) => offset' := Copy(buf, offset, text);
      case AddSubst(subst) => offset' := Copy(buf, offset, SubstText(subst, env));
      case _ =>
    }
  }

  /** A condition that fails ends the chain before position i. */
  predicate CutBefore(chain: seq<Op>, i: nat, env: Env)
    requires i <= |chain|
  {
    i > 0 && (Hides(chain[0], env) || CutBefore(chain[1..], i - 1, env))
  }

  /** What a chain writes when op is put in at position i: nothing new behind a condition that
      fails; op alone when it is such a condition; else its text between the texts around it. */
  predicate WrittenWith(now: seq<Op>, chain: seq<Op>, i: nat, op: Op, env: Env)
    requires i <= |chain|
  {
    if CutBefore(chain, i, env) then ChainText(now, env) == ChainText(chain, env)
    else if Hides(op, env) then ChainText(now, env) == ChainText(chain[..i], env)
    else ChainText(now, env) == ChainText(chain[..i], env) + OpText(op, env) + ChainText(chain[i..], env)
  }

  lemma {:induction false} InsertTail(chain: seq<Op>, i: nat, op: Op)
    requires 0 < i <= |chain|
    ensures chain[..i] + [op] + chain[i..] == [chain[0]] + (chain[1..][..i - 1] + [op] + chain[1..][i - 1..])
    ensures chain[..i] == [chain[0]] + chain[1..][..i - 1] && chain[1..][i - 1..] == chain[i..]
  {
  }

  lemma {:induction false} ChainTextFirst(op: Op, rest: seq<Op>, env: Env)
    ensures ChainText([op] + rest, env) == if Hides(op, env) then "" else OpText(op, env) + ChainText(rest, env)
  {
    assert ([op] + rest)[1..] == rest;
  }

  lemma {:induction false} InsertFirst(chain: seq<Op>, op: Op, env: Env)
    ensures WrittenWith([op] + chain, chain, 0, op, env)
  {
    ChainTextFirst(op, chain, env);
    assert chain[..0] == [] && chain[0..] == chain;
    assert "" + OpText(op, env) == OpText(op, env);
  }

  /** What a link in front, which is no failing condition, adds to both sides. */
  lemma {:induction false} InsertBehind(first: Op, now: seq<Op>, rest: seq<Op>, k: nat, op: Op, env: Env)
    requires k <= |rest| && WrittenWith(now, rest, k, op, env) && !Hides(first, env)
    ensures var a := ChainText([first] + rest[..k], env);
      ChainText([first] + now, env)
      == if CutBefore(rest, k, env) then ChainText([first] + rest, env)
         else if Hides(op, env) then a
         else a + OpText(op, env) + ChainText(rest[k..], env)
  {
    var f, a := OpText(first, env), ChainText(rest[..k], env);
    ChainTextFirst(first, now, env);
    ChainTextFirst(first, rest, env);
    ChainTextFirst(first, rest[..k], env);
    Regroup(f, a, OpText(op, env));
    Regroup(f, a + OpText(op, env), ChainText(rest[k..], env));
  }

  lemma {:induction false} ChainInsert(chain: seq<Op>, i: nat, op: Op, env: Env)
    requires i <= |chain|
    ensures WrittenWith(chain[..i] + [op] + chain[i..], chain, i, op, env)
    decreases i
  {
    if i == 0 {
      assert chain[..0] + [op] + chain[0..] == [op] + chain;
      InsertFirst(chain, op, env);
    } else {
      var rest := chain[1..];
      var now := rest[..i - 1] + [op] + rest[i - 1..];
      assert chain == [chain[0]] + rest;
      InsertTail(chain, i, op);
      ChainInsert(rest, i - 1, op, env);
      if Hides(chain[0], env) {
        ChainTextFirst(chain[0], now, env);
        ChainTextFirst(chain[0], rest, env);
      } else {
        InsertBehind(chain[0], now, rest, i - 1, op, env);
      }
    }
  }

  lemma {:induction false} ChainTextStep(chain: seq<Op>, i: nat, env: Env)
    requires i < |chain| && !Hides(chain[i], env)
    ensures ChainText(chain[i..], env) == OpText(chain[i], env) + ChainText(chain[i + 1..], env)
  {
    assert chain[i..][1..] == chain[i + 1..];
  }

  /** One of the chain loops of process_lumps. */
  method WriteChain(chain: seq<Op>, buf: array<char>, offset: nat, env: Env) returns (offset': nat)
    requires offset + |ChainText(chain, env)| <= buf.Length
    modifies buf
    ensures offset' == offset + |ChainText(chain, env)|
    ensures buf[..] == Spliced(old(buf[..]), offset, ChainText(chain, env))
  {
    ghost var final := Spliced(buf[..], offset, ChainText(chain, env));
    ghost var end := offset + |ChainText(chain, env)|;
    assert chain[0..] == chain;
    offset' := offset;
    for i := 0 to |chain|
      invariant ToWrite(buf[..], offset', ChainText(chain[i..], env), end, final)
    {
      if Hides(chain[i], env) {
        AllWritten(buf[..], offset', end, final);
        return;
      }
      ChainTextStep(chain, i, env);
      offset' := WriteLink(chain[i], buf, offset', env, ChainText(chain[i + 1..], env), end, final);
    }
    AllWritten(buf[..], offset', end, final);
  }

  /** Copying text in at offset ends at end and makes the contents final. */
  predicate ToWrite(content: string, offset: nat, text: string, end: nat, final: string) {
    offset + |text| == end <= |content| && Spliced(content, offset, text) == final
  }

  lemma {:induction false} RoomFor(content: string, offset: nat, a: string, b: string, end: nat, final: string)
    requires ToWrite(content, offset, a + b, end, final)
    ensures offset + |a| <= |content|
  {
  }

  /** Once a is copied in, b is still to be written. */
  lemma {:induction false} WritesOn(was: string, content: string, offset: nat, a: string, b: string, end: nat,
                                    final: string)
    requires ToWrite(was, offset, a + b, end, final) && content == Spliced(was, offset, a)
    ensures ToWrite(content, offset + |a|, b, end, final)
  {
    SplicedTwice(was, offset, a, b);
  }

  lemma {:induction false} AllWritten(content: string, offset: nat, end: nat, final: string)
    requires ToWrite(content, offset, "", end, final)
    ensures offset == end && content == final
  {
    SplicedNothing(content, offset);
  }

  /** One link, with rest still to be written behind it. */
  method WriteLink(op: Op, buf: array<char>, offset: nat, env: Env, ghost rest: string, ghost end: nat, ghost final: string)
    returns (offset': nat)
    requires ToWrite(buf[..], offset, OpText(op, env) + rest, end, final)
    modifies buf
    ensures ToWrite(buf[..], offset', rest, end, final)
  {
    ghost var was := buf[..];
    RoomFor(was, offset, OpText(op, env), rest, end, final);
    offset' := WriteOp(op, buf, offset, env);
    WritesOn(was, buf[..], offset, OpText(op, env), rest, end, final);
  }

  lemma {:induction false} BytesConcat(a: seq<Cell>, b: seq<Cell>, orig: string)
    ensures Bytes(a + b, orig) == Bytes(a, orig) + Bytes(b, orig)
  {
  }

  lemma {:induction false} BytesOfPieces(lo: nat, hi: nat, text: string, orig: string)
    requires lo <= hi <= |orig|
    ensures Bytes(Span(lo, hi), orig) == orig[lo..hi]
    ensures Bytes(News(text), orig) == text
    ensures Bytes([], orig) == ""
  {
  }

  /** A lump whose chains are written around its own text, in the order before, lump, after. */
  method WriteAround(t: Lump, buf: array<char>, offset: nat, env: Env) returns (offset': nat)
    requires !Hides(t.op, env)
    requires offset + |EntryText(EntryOf(t), env)| <= buf.Length
    modifies buf
    ensures offset' == offset + |EntryText(EntryOf(t), env)|
    ensures buf[..] == Spliced(old(buf[..]), offset, EntryText(EntryOf(t), env))
  {
    ghost var b, m, a := ChainText(t.before, env), OpText(t.op, env), ChainText(t.after, env);
    ghost var end, final := offset + |b + m + a|, Spliced(buf[..], offset, b + m + a);
    ThreeToWrite(buf[..], offset, b, m, a);
    offset' := WriteSide(t.before, buf, offset, env, m + (a + ""), end, final);
    offset' := WriteLink(t.op, buf, offset', env, a + "", end, final);
    offset' := WriteSide(t.after, buf, offset', env, "", end, final);
    AllWritten(buf[..], offset', end, final);
  }

  lemma {:induction false} ThreeToWrite(content: string, offset: nat, b: string, m: string, a: string)
    requires offset + |b + m + a| <= |content|
    ensures ToWrite(content, offset, b + (m + (a + "")), offset + |b + m + a|, Spliced(content, offset, b + m + a))
  {
    assert b + m + a == b + (m + (a + ""));
  }

  /** One chain, with rest still to be written behind it. */
  method WriteSide(chain: seq<Op>, buf: array<char>, offset: nat, env: Env, ghost rest: string, ghost end: nat,
                   ghost final: string)
    returns (offset': nat)
    requires ToWrite(buf[..], offset, ChainText(chain, env) + rest, end, final)
    modifies buf
    ensures ToWrite(buf[..], offset', rest, end, final)
  {
    ghost var was := buf[..];
    RoomFor(was, offset, ChainText(chain, env), rest, end, final);
    offset' := WriteChain(chain, buf, offset, env);
    WritesOn(was, buf[..], offset, ChainText(chain, env), rest, end, final);
  }

  /** One round of process_lumps: copy up to the lump, write its text, skip what it deletes.
      A lump that starts inside text already consumed is ignored. */
  method WriteLump(t: Lump, orig: string, buf: array<char>, offset: nat, s: nat, env: Env, ghost text: string)
    returns (offset': nat, s': nat)
    requires s <= |orig| && (Placed(t.op) ==> PlacedEnd(t.op) <= |orig|)
    requires text == Bytes(RenderEntry(EntryOf(t), s, env), orig) && offset + |text| <= buf.Length
    modifies buf
    ensures s' == StepEnd(t.op, s)
    ensures offset' == offset + |text| && buf[..] == Spliced(old(buf[..]), offset, text)
  {
    EntryBytes(EntryOf(t), s, orig, env);
    if !Placed(t.op) {
      if t.op.AddOpt? && !CondHolds(t.op.cond, env) {
        SplicedNothing(buf[..], offset);
        return offset, s;
      }
      offset' := WriteAround(t, buf, offset, env);
      s' := s;
    } else if s > t.op.offset {
      SplicedNothing(buf[..], offset);
      return offset, s;
    } else {
      offset' := WritePlaced(t, orig, buf, offset, s, env);
      s' := t.op.offset;
      if t.op.Del? {
        s' := s' + t.op.len;
      }
    }
  }

  lemma {:induction false} EntryBytes(e: Entry, s: nat, orig: string, env: Env)
    requires s <= |orig| && (Placed(e.op) ==> e.op.offset <= |orig|)
    ensures Bytes(RenderEntry(e, s, env), orig)
            == if Hides(e.op, env) || (Placed(e.op) && s > e.op.offset) then ""
               else if Placed(e.op) then orig[s..e.op.offset] + EntryText(e, env)
               else EntryText(e, env)
    ensures |Bytes(RenderEntry(e, s, env), orig)| == |RenderEntry(e, s, env)|
  {
    var text := EntryText(e, env);
    if Placed(e.op) && s <= e.op.offset {
      BytesConcat(Span(s, e.op.offset), News(text), orig);
      BytesOfPieces(s, e.op.offset, text, orig);
    } else {
      assert [] + News(text) == News(text);
      BytesOfPieces(s, s, text, orig);
    }
  }

  /** A copy, with rest still to be written behind it. */
  method CopyOn(text: string, buf: array<char>, offset: nat, ghost rest: string, ghost end: nat, ghost final: string)
    returns (offset': nat)
    requires ToWrite(buf[..], offset, text + rest, end, final)
    modifies buf
    ensures ToWrite(buf[..], offset', rest, end, final)
  {
    ghost var was := buf[..];
    RoomFor(was, offset, text, rest, end, final);
    offset' := Copy(buf, offset, text);
    WritesOn(was, buf[..], offset, text, rest, end, final);
  }

  /** The copy up to a lump that is not ignored, and the lump. */
  method WritePlaced(t: Lump, orig: string, buf: array<char>, offset: nat, s: nat, env: Env) returns (offset': nat)
    requires Placed(t.op) && s <= t.op.offset <= |orig|
    requires offset + |orig[s..t.op.offset] + EntryText(EntryOf(t), env)| <= buf.Length
    modifies buf
    ensures offset' == offset + |orig[s..t.op.offset] + EntryText(EntryOf(t), env)|
    ensures buf[..] == Spliced(old(buf[..]), offset, orig[s..t.op.offset] + EntryText(EntryOf(t), env))
  {
    ghost var front, text := orig[s..t.op.offset], EntryText(EntryOf(t), env);
    ghost var end, final := offset + |front + text|, Spliced(buf[..], offset, front + text);
    assert front + (text + "") == front + text;
    var mid := CopyOn(orig[s..t.op.offset], buf, offset, text + "", end, final);
    ghost var was := buf[..];
    offset' := WriteAround(t, buf, mid, env);
    WritesOn(was, buf[..], mid, text, "", end, final);
    AllWritten(buf[..], offset', end, final);
  }

  lemma {:induction false} RenderStep(es: seq<Entry>, i: nat, s: nat, orig: string, env: Env)
    requires i < |es|
    ensures RenderEnd(es[i..], s) == RenderEnd(es[i + 1..], StepEnd(es[i].op, s))
    ensures Render(es[i..], s, env) == RenderEntry(es[i], s, env) + Render(es[i + 1..], StepEnd(es[i].op, s), env)
    ensures Bytes(Render(es[i..], s, env), orig)
            == Bytes(RenderEntry(es[i], s, env), orig) + Bytes(Render(es[i + 1..], StepEnd(es[i].op, s), env), orig)
  {
    assert es[i..][1..] == es[i + 1..];
    BytesConcat(RenderEntry(es[i], s, env), Render(es[i + 1..], StepEnd(es[i].op, s), env), orig);
  }

  /** process_lumps: writes the rendering of the list at offset, reading orig from position s;
      returns both offsets moved on. */
  method ProcessLumps(lumps: seq<Lump>, ghost es: seq<Entry>, orig: string, buf: array<char>, offset: nat, s: nat, env: Env)
    returns (offset': nat, s': nat)
    requires es == Entries(lumps) && s <= |orig| && Within(es, |orig|)
    requires offset + |Render(es, s, env)| <= buf.Length
    modifies buf
    ensures s' == RenderEnd(es, s)
    ensures offset' == offset + |Render(es, s, env)|
    ensures buf[..] == Spliced(old(buf[..]), offset, Bytes(Render(es, s, env), orig))
  {
    ghost var whole := Bytes(Render(es, s, env), orig);
    ghost var final, end := Spliced(buf[..], offset, whole), offset + |whole|;
    assert es[0..] == es;
    offset', s' := offset, s;
    for i := 0 to |lumps|
      invariant s' <= |orig| && RenderEnd(es[i..], s') == RenderEnd(es, s)
      invariant ToWrite(buf[..], offset', Bytes(Render(es[i..], s', env), orig), end, final)
    {
      RenderStep(es, i, s', orig, env);
      ghost var text, rest := Bytes(RenderEntry(es[i], s', env), orig),
                              Bytes(Render(es[i + 1..], StepEnd(es[i].op, s'), env), orig);
      offset', s' := WriteNext(lumps[i], es[i], orig, buf, offset', s', env, text, rest, end, final);
    }
    AllWritten(buf[..], offset', end, final);
  }

  /** One round, with rest still to be written behind it. */
  method WriteNext(t: Lump, ghost e: Entry, orig: string, buf: array<char>, offset: nat, s: nat, env: Env,
                   ghost text: string, ghost rest: string, ghost end: nat, ghost final: string)
    returns (offset': nat, s': nat)
    requires e == EntryOf(t) && s <= |orig| && (Placed(e.op) ==> PlacedEnd(e.op) <= |orig|)
    requires text == Bytes(RenderEntry(e, s, env), orig) && ToWrite(buf[..], offset, text + rest, end, final)
    modifies buf
    ensures s' == StepEnd(e.op, s) && s' <= |orig|
    ensures ToWrite(buf[..], offset', rest, end, final)
  {
    ghost var was := buf[..];
    RoomFor(was, offset, text, rest, end, final);
    offset', s' := WriteLump(t, orig, buf, offset, s, env, text);
    WritesOn(was, buf[..], offset, text, rest, end, final);
  }
}
