/** A SIP message with its two lump lists, the callers that edit the lists, and build_all,
    which turns message and lists into the text that is sent. */
module SipMessage {
  import opened Wrappers
  import opened Sequences
  import opened Decimal
  import opened LumpModel
  import opened LumpTheorems
  import opened LumpOutput
  import opened LumpList
  import opened ContentLength
  import opened SipText
  import opened Words

  // ----- where del_lump and anchor_lump put a new lump --------------------------------------

  /** The first lump that starts after offset, or the end of the list. */
  function InsertPos(es: seq<Entry>, offset: nat): (k: nat)
    ensures k <= |es|
  {
    if es == [] || (Placed(es[0].op) && es[0].op.offset > offset) then 0 else 1 + InsertPos(es[1..], offset)
  }

  function Insert<T>(s: seq<T>, k: nat, x: T): (r: seq<T>)
    requires k <= |s|
    ensures |r| == |s| + 1
    ensures forall i :: 0 <= i < |r| ==> r[i] == if i < k then s[i] else if i == k then x else s[i - 1]
  {
    s[..k] + [x] + s[k..]
  }

  lemma {:induction false} InsertPosSplits(es: seq<Entry>, offset: nat)
    ensures var k := InsertPos(es, offset);
            && (forall i :: 0 <= i < k && Placed(es[i].op) ==> es[i].op.offset <= offset)
            && (k < |es| ==> Placed(es[k].op) && es[k].op.offset > offset)
  {
    if es == [] || (Placed(es[0].op) && es[0].op.offset > offset) {
    } else {
      InsertPosSplits(es[1..], offset);
      forall i | 0 <= i < InsertPos(es, offset) && Placed(es[i].op)
        ensures es[i].op.offset <= offset
      {
        if i > 0 {
          assert es[i] == es[1..][i - 1];
        }
      }
    }
  }

  /** Inserting where del_lump and anchor_lump do keeps the list sorted. */
  lemma {:induction false} InsertKeepsSorted(es: seq<Entry>, e: Entry)
    requires Sorted(es) && Placed(e.op)
    ensures Sorted(Insert(es, InsertPos(es, e.op.offset), e))
  {
    InsertPosSplits(es, e.op.offset);
  }

  lemma {:induction false} InsertKeepsWithin(es: seq<Entry>, k: nat, e: Entry, n: nat)
    requires Within(es, n) && k <= |es| && Placed(e.op) && PlacedEnd(e.op) <= n
    ensures Within(Insert(es, k, e), n)
  {
  }

  lemma {:induction false} InsertKeepsDistinct(list: seq<Lump>, k: nat, lump: Lump)
    requires Distinct(list) && lump !in list && k <= |list|
    ensures Distinct(Insert(list, k, lump))
    ensures forall l :: l in Insert(list, k, lump) ==> l in list || l == lump
  {
  }

  /** The search loop of del_lump and anchor_lump. */
  method FindPlace(list: seq<Lump>, offset: nat) returns (k: nat)
    ensures k == InsertPos(Entries(list), offset)
  {
    ghost var es := Entries(list);
    assert es[0..] == es;
    k := 0;
    while k < |list| && !(Placed(list[k].op) && list[k].op.offset > offset)
      invariant k <= |list|
      invariant InsertPos(es, offset) == k + InsertPos(es[k..], offset)
    {
      assert es[k..][1..] == es[k + 1..];
      k := k + 1;
    }
  }

  /** A list that del_lump and anchor_lump may search: no lump twice, placed lumps by
      ascending offset and inside a message of n bytes.  The chains do not matter. */
  ghost predicate ListOk(list: seq<Lump>, n: nat)
    reads (set l | l in list)`op
  {
    && Distinct(list)
    && (forall i, j :: 0 <= i < j < |list| && Placed(list[i].op) && Placed(list[j].op)
                       ==> list[i].op.offset <= list[j].op.offset)
    && (forall i :: 0 <= i < |list| && Placed(list[i].op) ==> PlacedEnd(list[i].op) <= n)
  }

  lemma {:induction false} ListOkMeans(list: seq<Lump>, n: nat)
    ensures ListOk(list, n) <==> Distinct(list) && Sorted(Entries(list)) && Within(Entries(list), n)
  {
  }

  lemma {:induction false} InsertedEntries(list: seq<Lump>, es: seq<Entry>, k: nat, lump: Lump)
    requires k <= |list| && es == Entries(list)
    ensures Entries(Insert(list, k, lump)) == Insert(es, k, EntryOf(lump))
  {
  }

  lemma {:induction false} InsertIntoList(list: seq<Lump>, k: nat, lump: Lump, n: nat)
    requires ListOk(list, n) && lump !in list
    requires Placed(lump.op) && PlacedEnd(lump.op) <= n
    requires k == InsertPos(Entries(list), lump.op.offset)
    ensures ListOk(Insert(list, k, lump), n) && (forall l :: l in Insert(list, k, lump) ==> l in list || l == lump)
  {
    ListOkMeans(list, n);
    InsertKeepsDistinct(list, k, lump);
    InsertKeepsSorted(Entries(list), EntryOf(lump));
    InsertKeepsWithin(Entries(list), k, EntryOf(lump), n);
    InsertedEntries(list, Entries(list), k, lump);
    ListOkMeans(Insert(list, k, lump), n);
  }

  /** A new lump's list, searched and spliced. */
  method FileInto(list: seq<Lump>, lump: Lump, n: nat) returns (list': seq<Lump>)
    requires ListOk(list, n) && lump !in list
    requires Placed(lump.op) && PlacedEnd(lump.op) <= n
    ensures list' == Insert(list, InsertPos(Entries(list), lump.op.offset), lump)
    ensures ListOk(list', n) && (forall l :: l in list' ==> l in list || l == lump)
  {
    var k := FindPlace(list, lump.op.offset);
    InsertIntoList(list, k, lump, n);
    list' := Insert(list, k, lump);
  }

  lemma {:induction false} InsertUnplaced(list: seq<Lump>, k: nat, lump: Lump, n: nat)
    requires ListOk(list, n) && lump !in list && k <= |list| && !Placed(lump.op)
    ensures ListOk(Insert(list, k, lump), n) && (forall l :: l in Insert(list, k, lump) ==> l in list || l == lump)
  {
    InsertKeepsDistinct(list, k, lump);
  }

  /** append_new_lump: text at the end of a list; memory tells whether pkg_malloc succeeds. */
  method AppendNewLump(list: seq<Lump>, text: string, memory: bool, ghost n: nat) returns (list': seq<Lump>, lump: Lump?)
    requires ListOk(list, n)
    ensures ListOk(list', n) && (lump != null <==> memory)
    ensures if !memory then list' == list
            else fresh(lump) && EntryOf(lump) == Entry(Add(text), [], []) && list' == Insert(list, |list|, lump)
  {
    if !memory {
      return list, null;
    }
    lump := new Lump(Add(text));
    InsertUnplaced(list, |list|, lump, n);
    list' := Insert(list, |list|, lump);
  }

  /** insert_new_lump: text at the front of a list. */
  method InsertNewLump(list: seq<Lump>, text: string, memory: bool, ghost n: nat) returns (list': seq<Lump>, lump: Lump?)
    requires ListOk(list, n)
    ensures ListOk(list', n) && (lump != null <==> memory)
    ensures if !memory then list' == list
            else fresh(lump) && EntryOf(lump) == Entry(Add(text), [], []) && list' == Insert(list, 0, lump)
  {
    if !memory {
      return list, null;
    }
    lump := new Lump(Add(text));
    InsertUnplaced(list, 0, lump, n);
    list' := Insert(list, 0, lump);
  }

  /** insert_{new,subst,cond}_lump_after: a new link directly behind the top-level lump (pos 0)
      or behind a link already in its chain.  Behind a lump the newest link is written first. */
  method InsertAfter(at: Lump, pos: nat, op: Op, memory: bool) returns (ok: bool)
    requires pos <= |at.after| && !Placed(op)
    modifies at`after
    ensures ok == memory
    ensures at.after == if ok then Insert(old(at.after), pos, op) else old(at.after)
    ensures ok ==> forall env :: WrittenWith(at.after, old(at.after), pos, op, env)
  {
    if memory {
      forall env ensures WrittenWith(Insert(at.after, pos, op), at.after, pos, op, env) {
        ChainInsert(at.after, pos, op, env);
      }
      at.after := Insert(at.after, pos, op);
    }
    ok := memory;
  }

  /** insert_{new,subst,cond}_lump_before: in front of a lump too the newest link is written
      first, farthest from the lump. */
  method InsertBefore(at: Lump, pos: nat, op: Op, memory: bool) returns (ok: bool)
    requires pos <= |at.before| && !Placed(op)
    modifies at`before
    ensures ok == memory
    ensures at.before == if ok then Insert(old(at.before), pos, op) else old(at.before)
    ensures ok ==> forall env :: WrittenWith(at.before, old(at.before), pos, op, env)
  {
    if memory {
      forall env ensures WrittenWith(Insert(at.before, pos, op), at.before, pos, op, env) {
        ChainInsert(at.before, pos, op, env);
      }
      at.before := Insert(at.before, pos, op);
    }
    ok := memory;
  }

  /** A null buffer for an empty message, an error, or the new text and the length that the block
      for it was allocated with. */
  datatype BuildResult = NoMessage | Failed | Built(text: string, room: nat)

  // ----- the message ---------------------------------------------------------------------------

  class SipMsg {
    const buf: string
    var eoh: Option<nat>                // offset of the end of the headers, once parsed
    var unparsed: nat                   // offset just before the line end that closes the headers
    var contentLength: Option<Range>    // the value of a parsed Content-Length
    var addRm: seq<Lump>
    var bodyLumps: seq<Lump>

    constructor (buf: string)
      ensures this.buf == buf && eoh == None && addRm == [] && bodyLumps == []
      ensures Valid()
    {
      this.buf, eoh, unparsed, contentLength := buf, None, 0, None;
      addRm, bodyLumps := [], [];
    }

    ghost predicate Valid()
      reads this`addRm, this`bodyLumps, (set l | l in addRm)`op, (set l | l in bodyLumps)`op
    {
      ListOk(addRm, |buf|) && ListOk(bodyLumps, |buf|) && (forall l :: l in addRm ==> l !in bodyLumps)
    }

    /** Whether del_lump and anchor_lump file an offset under the body. */
    predicate InBody(offset: nat)
      reads this`eoh
    {
      eoh.Some? && offset > eoh.value
    }

    /** The new lump stands in its list after every placed lump that does not start later. */
    twostate predicate Filed(new lump: Lump, op: Op)
      requires Placed(op)
      reads this`addRm, this`bodyLumps, this`eoh, lump
    {
      && EntryOf(lump) == Entry(op, [], [])
      && if InBody(op.offset)
         then addRm == old(addRm)
              && bodyLumps == Insert(old(bodyLumps), InsertPos(old(Entries(bodyLumps)), op.offset), lump)
         else bodyLumps == old(bodyLumps)
              && addRm == Insert(old(addRm), InsertPos(old(Entries(addRm)), op.offset), lump)
    }

    /** The new lump stands in the header list. */
    twostate predicate FiledInHeaders(new lump: Lump, op: Op)
      requires Placed(op)
      reads this`addRm, this`bodyLumps, lump
    {
      && EntryOf(lump) == Entry(op, [], []) && bodyLumps == old(bodyLumps)
      && addRm == Insert(old(addRm), InsertPos(old(Entries(addRm)), op.offset), lump)
    }

    twostate predicate SameLists()
      reads this`addRm, this`bodyLumps
    {
      addRm == old(addRm) && bodyLumps == old(bodyLumps)
    }

    /** The list search and insertion shared by del_lump and anchor_lump. */
    method Place(op: Op) returns (lump: Lump)
      requires Valid() && Placed(op) && PlacedEnd(op) <= |buf|
      modifies this`addRm, this`bodyLumps
      ensures Valid() && fresh(lump) && Filed(lump, op)
    {
      lump := new Lump(op);
      if InBody(op.offset) {
        bodyLumps := FileInto(bodyLumps, lump, |buf|);
      } else {
        addRm := FileInto(addRm, lump, |buf|);
      }
    }

    /** del_lump; memory tells whether pkg_malloc succeeds. */
    method DelLump(offset: nat, len: nat, memory: bool) returns (lump: Lump?)
      requires Valid() && offset + len <= |buf|
      modifies this`addRm, this`bodyLumps
      ensures Valid() && (lump != null <==> memory)
      ensures if memory then fresh(lump) && Filed(lump, Del(offset, len)) else SameLists()
    {
      if !memory {
        return null;
      }
      lump := Place(Del(offset, len));
    }

    /** anchor_lump; the length it is given is never read again. */
    method AnchorLump(offset: nat, memory: bool) returns (lump: Lump?)
      requires Valid() && offset <= |buf|
      modifies this`addRm, this`bodyLumps
      ensures Valid() && (lump != null <==> memory)
      ensures if memory then fresh(lump) && Filed(lump, Nop(offset)) else SameLists()
    {
      if !memory {
        return null;
      }
      lump := Place(Nop(offset));
    }

    /** The Content-Length header and the end of the headers lie in the message, and are not
        filed under the body. */
    ghost predicate ClenInHeaders()
      reads this`eoh, this`unparsed, this`contentLength
    {
      && unparsed <= |buf| && !InBody(unparsed)
      && (contentLength.Some? ==>
            contentLength.value.offset + contentLength.value.len <= |buf| && !InBody(contentLength.value.offset))
    }

    function NewClenAnchor(bodyDelta: int, proto: Proto): Option<Op>
      reads this`contentLength, this`unparsed
    {
      ClenAnchor(proto, bodyDelta, contentLength, unparsed)
    }

    /** The first half of adjust_clen: find out whether a value is needed and file its anchor. */
    method PlaceClenAnchor(bodyDelta: int, proto: Proto, parseOk: bool, memory: bool)
      returns (ok: bool, anchor: Lump?)
      requires Valid() && ClenInHeaders()
      modifies this`addRm, this`bodyLumps
      ensures Valid()
      ensures var stream := proto == ProtoTcp || proto == ProtoTls;
              var op := NewClenAnchor(bodyDelta, proto);
              && (ok <==> (stream || bodyDelta != 0 ==> parseOk) && (op.Some? ==> memory))
              && (anchor != null <==> ok && op.Some?)
              && if anchor != null then fresh(anchor) && FiledInHeaders(anchor, op.value) else SameLists()
    {
      anchor := null;
      if proto == ProtoTcp || proto == ProtoTls {
        if !parseOk {
          return false, null;
        }
        if contentLength.None? {
          anchor := AnchorLump(unparsed, memory);
          return memory, anchor;
        }
      }
      if bodyDelta == 0 {
        return true, null;
      }
      if !parseOk {
        return false, null;
      }
      if contentLength.Some? {
        anchor := DelLump(contentLength.value.offset, contentLength.value.len, memory);
        return memory, anchor;
      }
      if proto == ProtoUdp {
        return true, null;
      }
      anchor := AnchorLump(unparsed, memory);
      return memory, anchor;
    }

    /** The second half: print the value and hang it behind the anchor. */
    method FillClen(anchor: Lump, bodyDelta: int, memory: nat) returns (ok: bool)
      requires Valid()
      modifies anchor`after
      ensures Valid()
      ensures var body := GetBody(buf, unparsed);
              && ok == (body.Some? && memory >= 3)
              && anchor.after
                 == if ok then [Add(ClenText(ClenValue(|buf|, body.value, bodyDelta), anchor.op.Del?))] + old(anchor.after)
                    else old(anchor.after)
    {
      var body := GetBody(buf, unparsed);
      if body.None? || memory < 3 {
        return false;
      }
      var digits := Int2Str(ClenValue(|buf|, body.value, bodyDelta));
      ok := InsertAfter(anchor, 0, Add(if anchor.op.Del? then digits else CONTENT_LENGTH + digits + CRLF), true);
    }

    /** adjust_clen does its work: what it must parse can be parsed, and for a value there is a
        body to measure and memory for the anchor, the number and the lump. */
    predicate ClenDone(bodyDelta: int, proto: Proto, parseOk: bool, memory: nat)
      reads this`contentLength, this`unparsed
    {
      && (proto == ProtoTcp || proto == ProtoTls || bodyDelta != 0 ==> parseOk)
      && (NewClenAnchor(bodyDelta, proto).Some? ==> memory >= 3 && GetBody(buf, unparsed).Some?)
    }

    /** adjust_clen.  parseOk: parse_headers succeeds; memory: how many allocations succeed. */
    method AdjustClen(bodyDelta: int, proto: Proto, parseOk: bool, memory: nat) returns (ok: bool, ghost anchor: Lump?)
      requires Valid() && ClenInHeaders()
      modifies this`addRm, this`bodyLumps
      ensures Valid() && bodyLumps == old(bodyLumps) && (ok <==> ClenDone(bodyDelta, proto, parseOk, memory))
      ensures ok ==> (anchor != null <==> NewClenAnchor(bodyDelta, proto).Some?)
      ensures anchor == null ==> addRm == old(addRm)
      ensures forall l :: l in addRm ==> l in old(addRm) || l == anchor
      ensures anchor != null ==>
                var op, body := NewClenAnchor(bodyDelta, proto), GetBody(buf, unparsed);
                && op.Some? && fresh(anchor) && (ok ==> body.Some?)
                && addRm == Insert(old(addRm), InsertPos(old(Entries(addRm)), op.value.offset), anchor)
                && EntryOf(anchor)
                   == Entry(op.value, [],
                            if ok then [Add(ClenText(ClenValue(|buf|, body.value, bodyDelta), op.value.Del?))] else [])
    {
      var a: Lump?;
      ok, a := PlaceClenAnchor(bodyDelta, proto, parseOk, memory > 0);
      anchor := a;
      if a != null {
        ok := FillClen(a, bodyDelta, memory);
      }
    }
  
    /** The header list as build_all will render it: with the new Content-Length, if any. */
    ghost function HeadersWithClen(hs: seq<Entry>, bodyDelta: int, proto: Proto): seq<Entry>
      requires NewClenAnchor(bodyDelta, proto).Some? ==> GetBody(buf, unparsed).Some?
      reads this`contentLength, this`unparsed
    {
      var op := NewClenAnchor(bodyDelta, proto);
      if op.None? then hs
      else Insert(hs, InsertPos(hs, op.value.offset),
                  Entry(op.value, [], [Add(ClenText(ClenValue(|buf|, GetBody(buf, unparsed).value, bodyDelta), op.value.Del?))]))
    }

    /** The last steps of build_all: write, with both lists measured.  The array is as long as what
        is written, so that writes behind the block allocated show in the text. */
    method WriteAll(ghost hs: seq<Entry>, ghost bs: seq<Entry>, env: Env) returns (text: string)
      requires hs == Entries(addRm) && Within(hs, |buf|)
      requires bs == Entries(bodyLumps) && Within(bs, |buf|)
      requires RenderEnd(bs, RenderEnd(hs, 0)) <= |buf|
      ensures text == Bytes(Output(hs, bs, |buf|, env), buf)
    {
      OutputBytes(hs, bs, buf, env);
      ghost var tail := buf[RenderEnd(bs, RenderEnd(hs, 0))..];
      var newBuf := new char[|Output(Entries(addRm), Entries(bodyLumps), |buf|, env)| + 1];
      var offset, sOffset := WriteLists(addRm, bodyLumps, hs, bs, buf, newBuf, env);
      ghost var written := newBuf[..];
      var end := Copy(newBuf, offset, buf[sOffset..]);
      assert newBuf[..end] == written[..offset] + tail;
      text := newBuf[..end];
    }
  
    /** lumps_len on the body list, which stays one that callers may edit further. */
    method MeasureBody(ghost bs: seq<Entry>, env: Env) returns (delta: int)
      requires Valid() && bs == Entries(bodyLumps)
      modifies (set l | l in bodyLumps)`op
      ensures Valid() && Entries(bodyLumps) == Clip(bs, 0) && delta == Delta(bs, 0, env)
      ensures Entries(addRm) == old(Entries(addRm))
    {
      ListOkMeans(bodyLumps, |buf|);
      delta := LumpsLen(bodyLumps, env);
      ClipOffsets(bs, 0);
      ClipStaysWithin(bs, 0, |buf|);
      ListOkMeans(bodyLumps, |buf|);
    }

    /** lumps_len on the header list. */
    method MeasureHeaders(ghost hs: seq<Entry>, env: Env) returns (delta: int)
      requires Valid() && hs == Entries(addRm)
      modifies (set l | l in addRm)`op
      ensures Valid() && Entries(addRm) == Clip(hs, 0) && delta == Delta(hs, 0, env)
      ensures Entries(bodyLumps) == old(Entries(bodyLumps))
    {
      ListOkMeans(addRm, |buf|);
      delta := LumpsLen(addRm, env);
      ClipOffsets(hs, 0);
      ClipStaysWithin(hs, 0, |buf|);
      ListOkMeans(addRm, |buf|);
    }

    /** adjust_clen as build_all calls it, seen through the values of the lists. */
    method TouchClen(ghost hs0: seq<Entry>, bodyDelta: int, proto: Proto, parseOk: bool, memory: nat)
      returns (ok: bool, ghost hs: seq<Entry>)
      requires Valid() && ClenInHeaders() && hs0 == Entries(addRm)
      modifies this`addRm, this`bodyLumps
      ensures Valid() && bodyLumps == old(bodyLumps) && hs == Entries(addRm)
      ensures forall l :: l in addRm ==> l in old(addRm) || fresh(l)
      ensures ok <==> ClenDone(bodyDelta, proto, parseOk, memory)
      ensures ok ==> hs == HeadersWithClen(hs0, bodyDelta, proto)
    {
      ghost var anchor;
      ghost var list := addRm;
      ok, anchor := AdjustClen(bodyDelta, proto, parseOk, memory);
      hs := Entries(addRm);
      if anchor != null {
        assert hs0 == Entries(list);
        ghost var e := EntryOf(anchor);
        InsertedEntries(list, hs0, InsertPos(hs0, e.op.offset), anchor);
        assert hs == Insert(hs0, InsertPos(hs0, e.op.offset), e);
      }
    }

    /** The first half of build_all: the body list is measured and the Content-Length adjusted. */
    method Prepare(touchClen: bool, proto: Proto, parseOk: bool, memory: nat, env: Env)
      returns (ok: bool, bodyDelta: int, ghost hs: seq<Entry>, ghost bs: seq<Entry>)
      requires Valid() && ClenInHeaders()
      modifies this`addRm, this`bodyLumps, (set l | l in bodyLumps)`op
      ensures Valid() && hs == Entries(addRm) && Entries(bodyLumps) == Clip(bs, 0) && bs == old(Entries(bodyLumps))
      ensures Within(bs, |buf|) && bodyDelta == Delta(bs, 0, env)
      ensures forall l :: l in addRm ==> l in old(addRm) || fresh(l)
      ensures ok <==> (touchClen ==> ClenDone(bodyDelta, proto, parseOk, memory))
      ensures ok ==> hs == if touchClen then HeadersWithClen(old(Entries(addRm)), bodyDelta, proto)
                           else old(Entries(addRm))
    {
      bs := Entries(bodyLumps);
      hs := Entries(addRm);
      ListOkMeans(bodyLumps, |buf|);
      bodyDelta := MeasureBody(bs, env);
      ok := true;
      if touchClen {
        ok, hs := TouchClen(hs, bodyDelta, proto, parseOk, memory);
      }
    }

    /** The second half of build_all, from measuring the header list on. */
    method Assemble(ghost hs: seq<Entry>, ghost bs: seq<Entry>, bodyDelta: int, memory: bool, env: Env)
      returns (r: BuildResult)
      requires Valid() && hs == Entries(addRm) && Entries(bodyLumps) == Clip(bs, 0)
      requires Within(hs, |buf|) && Within(bs, |buf|)
      requires bodyDelta == Delta(bs, 0, env)
      modifies (set l | l in addRm)`op
      ensures Valid() && Entries(addRm) == Clip(hs, 0) && Entries(bodyLumps) == Clip(bs, 0)
      ensures ResultIs(r, hs, bs, memory, env)
    {
      var delta := MeasureHeaders(hs, env);
      var newLen := NewLen(delta, bodyDelta);
      if newLen == 0 {
        return NoMessage;
      }
      if !memory {
        return Failed;
      }
      var text := WriteMeasured(hs, bs, env);
      r := Built(text, newLen);
    }

    /** The text for two lists that were measured. */
    method WriteMeasured(ghost hs: seq<Entry>, ghost bs: seq<Entry>, env: Env) returns (text: string)
      requires Entries(addRm) == Clip(hs, 0) && Entries(bodyLumps) == Clip(bs, 0)
      requires Within(hs, |buf|) && Within(bs, |buf|)
      ensures TextIs(text, hs, bs, env)
    {
      ClipStaysWithin(hs, 0, |buf|);
      ClipStaysWithin(bs, 0, |buf|);
      OutputDefined(hs, bs, |buf|);
      OutputLength(hs, bs, |buf|, env);
      text := WriteAll(Clip(hs, 0), Clip(bs, 0), env);
    }

    /** The rendering of the measured lists over the message, longer or shorter than measured by
        what ignored body lumps stood for. */
    ghost predicate TextIs(text: string, hs: seq<Entry>, bs: seq<Entry>, env: Env) {
      && RenderEnd(Clip(bs, 0), RenderEnd(Clip(hs, 0), 0)) <= |buf|
      && text == Bytes(Output(Clip(hs, 0), Clip(bs, 0), |buf|, env), buf)
      && |text| == |buf| + Delta(hs, 0, env) + Delta(bs, 0, env)
                   - Lost(Clip(bs, 0), RenderEnd(Clip(hs, 0), 0), env)
    }

    /** The new length, which is an unsigned int. */
    function NewLen(hdrDelta: int, bodyDelta: int): nat {
      (|buf| + hdrDelta + bodyDelta) % WORDS
    }

    /** A built text is the rendering of the measured lists over the message.  The length it was
        given room for is the computed one, an unsigned int, and the text differs from that by
        exactly what ignored body lumps stood for; only want of memory fails. */
    ghost predicate ResultIs(r: BuildResult, hs: seq<Entry>, bs: seq<Entry>, memory: bool, env: Env) {
      var newLen := NewLen(Delta(hs, 0, env), Delta(bs, 0, env));
      && (r.NoMessage? <==> newLen == 0)
      && (r.Failed? <==> newLen != 0 && !memory)
      && (r.Built? ==> r.room == newLen && TextIs(r.text, hs, bs, env))
    }

    /** For separate lists the text fills its block exactly. */
    lemma {:induction false} BuiltExactly(r: BuildResult, hs: seq<Entry>, bs: seq<Entry>, memory: bool, env: Env)
      requires ResultIs(r, hs, bs, memory, env) && r.Built? && |r.text| < WORDS
      requires Within(hs, |buf|) && Within(bs, |buf|) && Sorted(bs) && Separate(hs, bs)
      ensures |r.text| == r.room
    {
      PassesAgree(hs, bs, |buf|, env);
      NewLenFits(Delta(hs, 0, env), Delta(bs, 0, env));
    }

    lemma {:induction false} NewLenFits(hdrDelta: int, bodyDelta: int)
      requires 0 <= |buf| + hdrDelta + bodyDelta < WORDS
      ensures NewLen(hdrDelta, bodyDelta) == |buf| + hdrDelta + bodyDelta
    {
    }

    /** build_all.  hs and bs are the lists as they were measured; memory is what adjust_clen
        finds, bufMemory whether the new message can be allocated. */
    method BuildAll(touchClen: bool, proto: Proto, parseOk: bool, memory: nat, bufMemory: bool, env: Env)
      returns (r: BuildResult, ghost hs: seq<Entry>, ghost bs: seq<Entry>)
      requires Valid() && ClenInHeaders()
      modifies this`addRm, this`bodyLumps, (set l | l in addRm)`op, (set l | l in bodyLumps)`op
      ensures Valid() && bs == old(Entries(bodyLumps)) && Entries(bodyLumps) == Clip(bs, 0)
      ensures if touchClen && !ClenDone(Delta(bs, 0, env), proto, parseOk, memory) then r.Failed?
              else
                && ResultIs(r, hs, bs, bufMemory, env) && Entries(addRm) == Clip(hs, 0)
                && hs == if touchClen then HeadersWithClen(old(Entries(addRm)), Delta(bs, 0, env), proto)
                         else old(Entries(addRm))
    {
      var ok, bodyDelta;
      ok, bodyDelta, hs, bs := Prepare(touchClen, proto, parseOk, memory, env);
      if !ok {
        return Failed, hs, bs;
      }
      ListOkMeans(addRm, |buf|);
      r := Assemble(hs, bs, bodyDelta, bufMemory, env);
    }
  }

  /** The header list, then the body list from where the header list ended. */
  method WriteLists(addRm: seq<Lump>, bodyLumps: seq<Lump>, ghost hs: seq<Entry>, ghost bs: seq<Entry>,
                    orig: string, newBuf: array<char>, env: Env)
    returns (offset: nat, sOffset: nat)
    requires hs == Entries(addRm) && Within(hs, |orig|)
    requires bs == Entries(bodyLumps) && Within(bs, |orig|)
    requires |Render(hs, 0, env)| + |Render(bs, RenderEnd(hs, 0), env)| <= newBuf.Length
    modifies newBuf
    ensures sOffset == RenderEnd(bs, RenderEnd(hs, 0)) <= |orig|
    ensures offset == |Render(hs, 0, env)| + |Render(bs, RenderEnd(hs, 0), env)|
    ensures newBuf[..offset] == Bytes(Render(hs, 0, env), orig) + Bytes(Render(bs, RenderEnd(hs, 0), env), orig)
  {
    ghost var h := RenderEnd(hs, 0);
    ghost var first, second := Bytes(Render(hs, 0, env), orig), Bytes(Render(bs, h, env), orig);
    RenderStaysWithin(hs, 0, |orig|);
    RenderStaysWithin(bs, h, |orig|);
    FrontOfTwo(newBuf[..], first, second);
    offset, sOffset := ProcessLumps(addRm, hs, orig, newBuf, 0, 0, env);
    assert Entries(bodyLumps) == bs;
    offset, sOffset := ProcessLumps(bodyLumps, bs, orig, newBuf, offset, sOffset, env);
    assert newBuf[..offset] == newBuf[..][..offset];
  }

  lemma {:induction false} FrontOfTwo(content: string, a: string, b: string)
    requires |a| + |b| <= |content|
    ensures Spliced(Spliced(content, 0, a), |a|, b)[..|a| + |b|] == a + b
  {
    SplicedTwice(content, 0, a, b);
  }

  lemma {:induction false} OutputBytes(hs: seq<Entry>, bs: seq<Entry>, orig: string, env: Env)
    requires RenderEnd(bs, RenderEnd(hs, 0)) <= |orig|
    ensures var h := RenderEnd(hs, 0);
            Bytes(Output(hs, bs, |orig|, env), orig)
            == Bytes(Render(hs, 0, env), orig) + Bytes(Render(bs, h, env), orig) + orig[RenderEnd(bs, h)..]
  {
    var h := RenderEnd(hs, 0);
    BytesOfPieces(RenderEnd(bs, h), |orig|, "", orig);
    BytesConcat(Render(hs, 0, env), Render(bs, h, env), orig);
    BytesConcat(Render(hs, 0, env) + Render(bs, h, env), Span(RenderEnd(bs, h), |orig|), orig);
  }

  // ----- what a built message says ----------------------------------------------------------

  /** A lump that is filed in front of b0 belongs to the front. */
  lemma {:induction false} InsertInFront(hs: seq<Entry>, k: nat, e: Entry, b0: nat)
    requires Placed(e.op) && e.op.offset < b0 && k == InsertPos(hs, e.op.offset)
    ensures k <= FirstFrom(hs, b0)
    ensures FirstFrom(Insert(hs, k, e), b0) == FirstFrom(hs, b0) + 1
  {
    FrontOfPlace(hs, e.op.offset, b0);
    InsertIs(hs, k, e);
    FirstFromAppend(hs[..k], hs[k..], b0);
    FirstFromAppend(hs[..k], [e] + hs[k..], b0);
    FirstFromBehind(e, hs[k..], b0);
  }

  lemma {:induction false} FrontOfPlace(hs: seq<Entry>, offset: nat, b0: nat)
    requires offset < b0
    ensures FirstFrom(hs[..InsertPos(hs, offset)], b0) == InsertPos(hs, offset)
  {
    InsertPosSplits(hs, offset);
  }

  lemma {:induction false} InsertIs(hs: seq<Entry>, k: nat, e: Entry)
    requires k <= |hs|
    ensures hs == hs[..k] + hs[k..] && Insert(hs, k, e) == hs[..k] + ([e] + hs[k..])
  {
  }

  lemma {:induction false} FirstFromBehind(e: Entry, es: seq<Entry>, b0: nat)
    requires Placed(e.op) && e.op.offset < b0
    ensures FirstFrom([e] + es, b0) == 1 + FirstFrom(es, b0)
  {
    assert ([e] + es)[1..] == es;
  }

  lemma {:induction false} InsertCut(hs: seq<Entry>, k: nat, e: Entry, f: nat)
    requires k <= f <= |hs|
    ensures Insert(hs, k, e)[..f + 1] == Insert(hs[..f], k, e) && Insert(hs, k, e)[f + 1..] == hs[f..]
  {
  }

  /** Clipping that starts further on ends there, or where it ended before. */
  lemma {:induction false} ClipEndFrom(es: seq<Entry>, s: nat, t: nat)
    requires s <= t
    ensures ClipEnd(es, t) == if ClipEnd(es, s) < t then t else ClipEnd(es, s)
  {
    if es != [] {
      ClipEndIsFurthest(es[1..], Advance(es[0].op, s));
      ClipEndFrom(es[1..], Advance(es[0].op, s), Advance(es[0].op, t));
    }
  }

  lemma {:induction false} EndWithInserted(es: seq<Entry>, k: nat, e: Entry)
    requires k <= |es| && Placed(e.op)
    ensures ClipEnd(Insert(es, k, e), 0)
            == if ClipEnd(es, 0) < PlacedEnd(e.op) then PlacedEnd(e.op) else ClipEnd(es, 0)
  {
    var s := ClipEnd(es[..k], 0);
    ClipCut(es, k, 0);
    ClipCut(Insert(es, k, e), k, 0);
    assert Insert(es, k, e)[..k] == es[..k] && Insert(es, k, e)[k..] == [e] + es[k..];
    assert ([e] + es[k..])[1..] == es[k..];
    ClipEndIsFurthest(es[k..], s);
    ClipEndFrom(es[k..], s, Advance(e.op, s));
  }

  /** A lump in front of the body changes nothing about the body or its count. */
  lemma {:induction false} InsertKeepsChange(hs: seq<Entry>, k: nat, e: Entry, b0: nat, env: Env)
    requires Placed(e.op) && e.op.offset < b0 && PlacedEnd(e.op) <= b0 && k == InsertPos(hs, e.op.offset)
    ensures ChangeBehind(Insert(hs, k, e), b0, env) == ChangeBehind(hs, b0, env)
  {
    var f := FirstFrom(hs, b0);
    InsertInFront(hs, k, e, b0);
    InsertCut(hs, k, e, f);
    EndWithInserted(hs[..f], k, e);
  }

  lemma {:induction false} EndFromLater(es: seq<Entry>, s: nat, t: nat)
    requires StartsAfter(es, t) && s <= t
    ensures RenderEnd(es, s) == RenderEnd(es, t) || (RenderEnd(es, s) == s && RenderEnd(es, t) == t)
  {
    if es != [] && !Placed(es[0].op) {
      EndFromLater(es[1..], s, t);
    }
  }

  /** Body lumps fare the same wherever in front of them they are entered. */
  lemma {:induction false} LeadFromLater(bs: seq<Entry>, b0: nat, s: nat, t: nat, env: Env)
    requires AllFrom(bs, t) && s <= t <= b0
    ensures LeadChange(bs, b0, s, env) == LeadChange(bs, b0, t, env)
    ensures Lost(Clip(bs, 0), s, env) == Lost(Clip(bs, 0), t, env)
  {
    var lead := bs[..FirstFrom(bs, b0)];
    NothingLostInBody(bs, t, s, env);
    NothingLostInBody(bs, t, t, env);
    NothingLostInBody(lead, t, s, env);
    NothingLostInBody(lead, t, t, env);
    ClipCut(bs, |lead|, 0);
    AllFromStarts(lead, t);
    ClipFromLater(lead, 0, t);
    EndFromLater(Clip(lead, 0), s, t);
  }

  lemma {:induction false} InsertKeepsCount(hs: seq<Entry>, k: nat, bs: seq<Entry>, e: Entry, b0: nat, env: Env)
    requires Placed(e.op) && e.op.offset < b0 && PlacedEnd(e.op) <= b0 && k == InsertPos(hs, e.op.offset)
    requires AllFrom(bs, PlacedEnd(e.op))
    ensures Miscounted(Insert(hs, k, e), bs, b0, env) == Miscounted(hs, bs, b0, env)
  {
    InsertInFront(hs, k, e, b0);
    EndWithInserted(hs, k, e);
    if ClipEnd(hs, 0) < PlacedEnd(e.op) {
      LeadFromLater(bs, b0, ClipEnd(hs, 0), PlacedEnd(e.op), env);
    }
  }

  lemma {:induction false} InsertKeepsExcess(hs: seq<Entry>, k: nat, bs: seq<Entry>, e: Entry, b0: nat, env: Env)
    requires Placed(e.op) && e.op.offset < b0 && PlacedEnd(e.op) <= b0 && k == InsertPos(hs, e.op.offset)
    requires AllFrom(bs, PlacedEnd(e.op))
    ensures Excess(Insert(hs, k, e), bs, b0, env) == Excess(hs, bs, b0, env)
  {
    InsertKeepsChange(hs, k, e, b0, env);
    InsertKeepsCount(hs, k, bs, e, b0, env);
  }

  /** The message that build_all writes with the lump of adjust_clen: text, the value, the other
      headers, and the body that starts at b0.  The value is the number of body bytes if and
      only if nothing is miscounted in the lists that adjust_clen was given.  Body lumps start
      behind the end of the headers, where that lump ends. */
  lemma {:induction false} BuiltContentLength(hs0: seq<Entry>, bs: seq<Entry>, op: Op, hs: seq<Entry>, text: string,
                                              b0: nat, n: nat, env: Env)
    requires Sorted(hs0) && Within(hs0, n) && Within(bs, n)
    requires Placed(op) && op.offset < b0 && PlacedEnd(op) <= b0 <= n && AllFrom(bs, PlacedEnd(op))
    requires text == ClenText(ClenValue(n, b0, Delta(bs, 0, env)), op.Del?)
    requires hs == Insert(hs0, InsertPos(hs0, op.offset), Entry(op, [], [Add(text)]))
    ensures BodyDefined(hs, bs, b0, n) && ReadsAs(hs, bs, op, text, b0, n, env)
    ensures ClenNumber(bs, b0, n, env) == |BodyCells(hs, bs, b0, n, env)|
            <==> MakesUp(Excess(hs0, bs, b0, env), |BodyCells(hs, bs, b0, n, env)|)
  {
    var e := Entry(op, [], [Add(text)]);
    var k := InsertPos(hs0, op.offset);
    InsertKeepsSorted(hs0, e);
    InsertKeepsWithin(hs0, k, e, n);
    InsertKeepsExcess(hs0, k, bs, e, b0, env);
    assert hs[k] == e;
    ShortEntry(op, text, env);
    ContentLengthCorrect(hs, k, bs, b0, n, env, op.Del?);
  }

  // ----- a request with a new URI -------------------------------------------------------------

  /** Both lists, entered with s bytes of the message consumed, and the rest of the message. */
  function OutputFrom(hs: seq<Entry>, bs: seq<Entry>, s: nat, n: nat, env: Env): seq<Cell>
    requires RenderEnd(bs, RenderEnd(hs, s)) <= n
  {
    Render(hs, s, env) + Render(bs, RenderEnd(hs, s), env) + Span(RenderEnd(bs, RenderEnd(hs, s)), n)
  }

  /** The text up to the URI and the new one.  build_req_buf_from_sip_req writes this, then both
      lists entered behind the old URI. */
  function UriFront(uri: Range, newUri: string): (front: seq<Cell>)
    ensures |front| == uri.offset + |newUri|
  {
    Span(0, uri.offset) + News(newUri)
  }

  lemma {:induction false} RequestDefined(hs: seq<Entry>, bs: seq<Entry>, n: nat, s: nat)
    requires Within(hs, n) && Within(bs, n) && s <= n
    ensures RenderEnd(Clip(hs, 0), s) <= n && RenderEnd(Clip(bs, 0), RenderEnd(Clip(hs, 0), s)) <= n
  {
    ClipStaysWithin(hs, 0, n);
    ClipStaysWithin(bs, 0, n);
    RenderStaysWithin(Clip(hs, 0), s, n);
    RenderStaysWithin(Clip(bs, 0), RenderEnd(Clip(hs, 0), s), n);
  }

  lemma {:induction false} ClippedLength(es: seq<Entry>, s: nat, env: Env)
    ensures |Render(Clip(es, 0), s, env)|
            == RenderEnd(Clip(es, 0), s) - s + Delta(es, 0, env) - Lost(Clip(es, 0), s, env)
  {
    RenderLength(Clip(es, 0), s, env);
    DeltaIsRawDelta(es, 0, env);
  }

  /** What the lumps stand for that the writing pass ignores when it starts with s bytes consumed. */
  function Ignored(hs: seq<Entry>, bs: seq<Entry>, s: nat, env: Env): int {
    Lost(Clip(hs, 0), s, env) + Lost(Clip(bs, 0), RenderEnd(Clip(hs, 0), s), env)
  }

  lemma {:induction false} OutputFromLength(hs: seq<Entry>, bs: seq<Entry>, s: nat, n: nat, env: Env)
    requires Within(hs, n) && Within(bs, n) && s <= n
    ensures RenderEnd(Clip(bs, 0), RenderEnd(Clip(hs, 0), s)) <= n
    ensures |OutputFrom(Clip(hs, 0), Clip(bs, 0), s, n, env)|
            == n - s + Delta(hs, 0, env) + Delta(bs, 0, env) - Ignored(hs, bs, s, env)
  {
    RequestDefined(hs, bs, n, s);
    ClippedLength(hs, s, env);
    ClippedLength(bs, RenderEnd(Clip(hs, 0), s), env);
  }

  /** Whatever the lists, the bytes written and the length computed differ by exactly what the
      lumps stood for that are ignored, in the header list as well as in the body list. */
  lemma {:induction false} RequestLength(hs: seq<Entry>, bs: seq<Entry>, n: nat, uri: Range, newUri: string, env: Env)
    requires Within(hs, n) && Within(bs, n) && uri.offset + uri.len <= n
    ensures RenderEnd(Clip(bs, 0), RenderEnd(Clip(hs, 0), uri.offset + uri.len)) <= n
    ensures |UriFront(uri, newUri)| + |OutputFrom(Clip(hs, 0), Clip(bs, 0), uri.offset + uri.len, n, env)|
            == n + Delta(hs, 0, env) + Delta(bs, 0, env) - uri.len + |newUri|
               - Ignored(hs, bs, uri.offset + uri.len, env)
  {
    OutputFromLength(hs, bs, uri.offset + uri.len, n, env);
  }

  /** No lump is ignored if and only if no lump starts in front of the end of the URI and no
      header lump reaches past the start of a body lump. */
  lemma {:induction false} RequestLumpsApplied(hs: seq<Entry>, bs: seq<Entry>, s: nat)
    requires Sorted(hs) && Sorted(bs)
    ensures NoOverlap(Clip(hs, 0), s) && NoOverlap(Clip(bs, 0), RenderEnd(Clip(hs, 0), s))
            <==> AllFrom(hs, s) && AllFrom(bs, s) && Separate(hs, bs)
  {
    ClipRemovesOverlaps(hs, 0);
    OverlapIffStartsBefore(Clip(hs, 0), 0, s);
    ClipKeepsStart(hs, s);
    StartsAfterAll(hs, s);
    if AllFrom(hs, s) {
      var h := RenderEnd(Clip(hs, 0), s);
      ClipAllFrom(hs, s);
      ClipRemovesOverlaps(hs, s);
      ClipRemovesOverlaps(bs, 0);
      OverlapIffStartsBefore(Clip(bs, 0), 0, h);
      ClipKeepsStart(bs, h);
      StartsAfterAll(bs, h);
      ClipEndIsFurthest(hs, s);
    }
  }

  /** An anchor on the first line is counted and never written. */
  lemma {:induction false} RequestMayDisagree(env: Env)
    ensures var hs := [Entry(Nop(0), [], [Add("x")])];
            && RenderEnd(Clip([], 0), RenderEnd(Clip(hs, 0), 5)) <= 9
            && |UriFront(Range(3, 2), "ab")| + |OutputFrom(Clip(hs, 0), Clip([], 0), 5, 9, env)| == 9
            && 9 + Delta(hs, 0, env) + Delta([], 0, env) - 2 + |"ab"| == 10
  {
    var hs := [Entry(Nop(0), [], [Add("x")])];
    Single(hs[0], 0, env);
    Single(hs[0], 5, env);
    ShortEntry(hs[0].op, "x", env);
    RequestLength(hs, [], 9, Range(3, 2), "ab", env);
  }

  /** With all lumps behind the URI, in separate lists, the request has exactly the length computed. */
  lemma {:induction false} RequestFilledExactly(hs: seq<Entry>, bs: seq<Entry>, n: nat, uri: Range, newUri: string, env: Env)
    requires Within(hs, n) && Within(bs, n) && uri.offset + uri.len <= n && Sorted(hs) && Sorted(bs)
    requires AllFrom(hs, uri.offset + uri.len) && AllFrom(bs, uri.offset + uri.len) && Separate(hs, bs)
    ensures RenderEnd(Clip(bs, 0), RenderEnd(Clip(hs, 0), uri.offset + uri.len)) <= n
    ensures |UriFront(uri, newUri)| + |OutputFrom(Clip(hs, 0), Clip(bs, 0), uri.offset + uri.len, n, env)|
            == n + Delta(hs, 0, env) + Delta(bs, 0, env) - uri.len + |newUri|
  {
    var s := uri.offset + uri.len;
    RequestLength(hs, bs, n, uri, newUri, env);
    NothingIgnored(hs, bs, s, env);
  }

  lemma {:induction false} NothingIgnored(hs: seq<Entry>, bs: seq<Entry>, s: nat, env: Env)
    requires Sorted(hs) && Sorted(bs) && AllFrom(hs, s) && AllFrom(bs, s) && Separate(hs, bs)
    ensures Ignored(hs, bs, s, env) == 0
  {
    RequestLumpsApplied(hs, bs, s);
    NothingLost(Clip(hs, 0), s, env);
    NothingLost(Clip(bs, 0), RenderEnd(Clip(hs, 0), s), env);
  }

  /** When no header lump is, replacing the URI is one more deletion with one more insertion, so
      everything proved of Output holds of the request as well. */
  lemma {:induction false} RequestOutputIsOutput(hs: seq<Entry>, bs: seq<Entry>, s: nat, n: nat, uri: Range,
                                                 newUri: string, lump: Entry, env: Env)
    requires s == uri.offset + uri.len && RenderEnd(Clip(bs, 0), RenderEnd(Clip(hs, 0), s)) <= n
    requires AllFrom(hs, s) && lump == Entry(Del(uri.offset, uri.len), [Add(newUri)], [])
    ensures RenderEnd(Clip(bs, 0), RenderEnd(Clip([lump] + hs, 0), 0)) <= n
    ensures UriFront(uri, newUri) + OutputFrom(Clip(hs, 0), Clip(bs, 0), s, n, env)
            == Output(Clip([lump] + hs, 0), Clip(bs, 0), n, env)
  {
    UriLump(hs, s, uri, newUri, lump, env);
    JoinOutputs(UriFront(uri, newUri), Clip([lump] + hs, 0), Clip(hs, 0), Clip(bs, 0), s, n, env);
  }

  /** Two ways into the body list with the same text in front. */
  lemma {:induction false} JoinOutputs(front: seq<Cell>, with: seq<Entry>, hs: seq<Entry>, bs: seq<Entry>, s: nat, n: nat, env: Env)
    requires RenderEnd(bs, RenderEnd(hs, s)) <= n && RenderEnd(with, 0) == RenderEnd(hs, s)
    requires Render(with, 0, env) == front + Render(hs, s, env)
    ensures front + OutputFrom(hs, bs, s, n, env) == Output(with, bs, n, env)
  {
    var h := RenderEnd(with, 0);
    Regrouped(front, Render(hs, s, env), Render(bs, h, env), Span(RenderEnd(bs, h), n));
  }

  lemma {:induction false} Regrouped(a: seq<Cell>, b: seq<Cell>, c: seq<Cell>, d: seq<Cell>)
    ensures (a + b) + c + d == a + (b + c + d)
  {
  }

  lemma {:induction false} UriLump(hs: seq<Entry>, s: nat, uri: Range, newUri: string, lump: Entry, env: Env)
    requires s == uri.offset + uri.len && AllFrom(hs, s) && lump == Entry(Del(uri.offset, uri.len), [Add(newUri)], [])
    ensures RenderEnd(Clip([lump] + hs, 0), 0) == RenderEnd(Clip(hs, 0), s)
    ensures Render(Clip([lump] + hs, 0), 0, env) == UriFront(uri, newUri) + Render(Clip(hs, 0), s, env)
  {
    assert ([lump] + hs)[1..] == hs;
    ClipAllFrom(hs, s);
    assert EntryText(lump, env) == newUri by {
      assert [Add(newUri)][1..] == [];
      assert newUri + "" == newUri;
    }
    RenderClipHead([lump] + hs, 0, env);
    ClipRemovesOverlaps([lump] + hs, 0);
    ClipRemovesOverlaps(hs, s);
  }
}
