/** The whole message: the header list, then the body list, then the rest of the text.

    The length is computed list by list, each starting at offset zero, but the writing
    pass enters the body list where the header list ended. */
module LumpOutput {
  import opened LumpModel
  import opened LumpTheorems
  import opened Sequences

  // ----- lengths ------------------------------------------------------------------------

  /** The length difference of a list whose lumps all take effect. */
  function RawDelta(es: seq<Entry>, env: Env): int {
    if es == [] then 0 else EntryLen(es[0], env) - Removed(es[0].op) + RawDelta(es[1..], env)
  }

  /** The part of that difference that belongs to lumps the writing pass ignores. */
  function Lost(es: seq<Entry>, s: nat, env: Env): int {
    if es == [] then 0
    else (if Overlapped(es[0].op, s) then EntryLen(es[0], env) - Removed(es[0].op) else 0)
         + Lost(es[1..], StepEnd(es[0].op, s), env)
  }

  lemma {:induction false} DeltaIsRawDelta(es: seq<Entry>, s: nat, env: Env)
    ensures Delta(es, s, env) == RawDelta(Clip(es, s), env)
  {
    if es != [] {
      DeltaIsRawDelta(es[1..], Advance(es[0].op, s), env);
      assert Clip(es, s)[1..] == Clip(es[1..], Advance(es[0].op, s));
    }
  }

  lemma {:induction false} RenderLength(es: seq<Entry>, s: nat, env: Env)
    ensures |Render(es, s, env)| == RenderEnd(es, s) - s + RawDelta(es, env) - Lost(es, s, env)
  {
    if es != [] {
      EntryLenAgrees(es[0], env);
      RenderLength(es[1..], StepEnd(es[0].op, s), env);
    }
  }

  lemma {:induction false} NothingLost(es: seq<Entry>, s: nat, env: Env)
    requires NoOverlap(es, s)
    ensures Lost(es, s, env) == 0
  {
    if es != [] {
      NothingLost(es[1..], StepEnd(es[0].op, s), env);
    }
  }

  // ----- joining two lists ----------------------------------------------------------------

  lemma {:induction false} ClipEndAppend(a: seq<Entry>, b: seq<Entry>, s: nat)
    ensures ClipEnd(a + b, s) == ClipEnd(b, ClipEnd(a, s))
  {
    if a == [] {
      assert a + b == b;
    } else {
      ClipEndAppend(a[1..], b, Advance(a[0].op, s));
      assert (a + b)[1..] == a[1..] + b;
    }
  }

  lemma {:induction false} ClipAppend(a: seq<Entry>, b: seq<Entry>, s: nat)
    ensures Clip(a + b, s) == Clip(a, s) + Clip(b, ClipEnd(a, s))
  {
    if a == [] {
      assert a + b == b;
    } else {
      var s' := Advance(a[0].op, s);
      ClipAppend(a[1..], b, s');
      assert (a + b)[1..] == a[1..] + b;
      Regroup([a[0].(op := ClipOp(a[0].op, s))], Clip(a[1..], s'), Clip(b, ClipEnd(a, s)));
    }
  }

  lemma {:induction false} RenderEndAppend(a: seq<Entry>, b: seq<Entry>, s: nat)
    ensures RenderEnd(a + b, s) == RenderEnd(b, RenderEnd(a, s))
  {
    if a == [] {
      assert a + b == b;
    } else {
      RenderEndAppend(a[1..], b, StepEnd(a[0].op, s));
      assert (a + b)[1..] == a[1..] + b;
    }
  }

  lemma {:induction false} RenderAppend(a: seq<Entry>, b: seq<Entry>, s: nat, env: Env)
    ensures Render(a + b, s, env) == Render(a, s, env) + Render(b, RenderEnd(a, s), env)
    ensures RenderEnd(a + b, s) == RenderEnd(b, RenderEnd(a, s))
  {
    RenderEndAppend(a, b, s);
    if a == [] {
      assert a + b == b;
    } else {
      var s' := StepEnd(a[0].op, s);
      RenderAppend(a[1..], b, s', env);
      RenderOnFirst(a, b, s, env, Render(a[1..], s', env), Render(b, RenderEnd(a[1..], s'), env));
    }
  }

  lemma {:induction false} RenderOnFirst(a: seq<Entry>, b: seq<Entry>, s: nat, env: Env, x: seq<Cell>, y: seq<Cell>)
    requires a != [] && x == Render(a[1..], StepEnd(a[0].op, s), env)
    requires Render(a[1..] + b, StepEnd(a[0].op, s), env) == x + y
    ensures Render(a + b, s, env) == Render(a, s, env) + y
  {
    RenderFirst(a, s, env);
    RenderFirst(a + b, s, env);
    assert (a + b)[0] == a[0] && (a + b)[1..] == a[1..] + b;
    Regroup(RenderEntry(a[0], s, env), x, y);
  }

  lemma {:induction false} RenderFirst(es: seq<Entry>, s: nat, env: Env)
    requires es != []
    ensures Render(es, s, env) == RenderEntry(es[0], s, env) + Render(es[1..], StepEnd(es[0].op, s), env)
  {
  }

  // ----- where the header list ends -------------------------------------------------------

  /** Clipping ends at the furthest end of any lump. */
  lemma {:induction false} ClipEndIsFurthest(es: seq<Entry>, s: nat)
    ensures s <= ClipEnd(es, s)
    ensures forall i :: 0 <= i < |es| && Placed(es[i].op) ==> PlacedEnd(es[i].op) <= ClipEnd(es, s)
    ensures ClipEnd(es, s) == s
            || exists i :: 0 <= i < |es| && Placed(es[i].op) && PlacedEnd(es[i].op) == ClipEnd(es, s)
  {
    if es != [] {
      var s' := Advance(es[0].op, s);
      ClipEndIsFurthest(es[1..], s');
      forall i | 0 <= i < |es| && Placed(es[i].op)
        ensures PlacedEnd(es[i].op) <= ClipEnd(es, s)
      {
        if i > 0 {
          assert es[1..][i - 1] == es[i];
        }
      }
      if ClipEnd(es, s) != s {
        if ClipEnd(es[1..], s') == s' {
          assert Placed(es[0].op) && PlacedEnd(es[0].op) == s';
        } else {
          var i :| 0 <= i < |es[1..]| && Placed(es[1..][i].op) && PlacedEnd(es[1..][i].op) == ClipEnd(es[1..], s');
          assert es[i + 1] == es[1..][i];
        }
      }
    }
  }

  /** The first placed lump of a list starts at h or later. */
  predicate StartsAfter(es: seq<Entry>, h: nat) {
    es == [] || (if Placed(es[0].op) then h <= es[0].op.offset else StartsAfter(es[1..], h))
  }

  lemma {:induction false} OverlapIffStartsBefore(es: seq<Entry>, s: nat, h: nat)
    requires NoOverlap(es, s) && s <= h
    ensures NoOverlap(es, h) <==> StartsAfter(es, h)
  {
    if es != [] && !Placed(es[0].op) {
      OverlapIffStartsBefore(es[1..], s, h);
    }
  }

  lemma {:induction false} StartsAfterAll(es: seq<Entry>, h: nat)
    requires Sorted(es)
    ensures StartsAfter(es, h) <==> forall j :: 0 <= j < |es| && Placed(es[j].op) ==> h <= es[j].op.offset
  {
    if es != [] && !Placed(es[0].op) {
      StartsAfterAll(es[1..], h);
      forall j | 0 < j < |es|
        ensures es[j] == es[1..][j - 1]
      {
      }
    }
  }

  lemma {:induction false} ClipFromLater(es: seq<Entry>, s: nat, h: nat)
    requires StartsAfter(es, h) && s <= h
    ensures Clip(es, s) == Clip(es, h)
    ensures StartsAfter(Clip(es, s), h)
  {
    if es != [] {
      if !Placed(es[0].op) {
        ClipFromLater(es[1..], s, h);
        assert Clip(es, s)[1..] == Clip(es[1..], s);
      }
    }
  }

  lemma {:induction false} ClipKeepsStart(es: seq<Entry>, h: nat)
    ensures StartsAfter(Clip(es, 0), h) <==> StartsAfter(es, h)
  {
    if es != [] && !Placed(es[0].op) {
      ClipKeepsStart(es[1..], h);
      assert Clip(es, 0)[1..] == Clip(es[1..], 0);
    }
  }

  /** No header lump reaches past the start of a body lump. */
  predicate Separate(hs: seq<Entry>, bs: seq<Entry>) {
    forall i, j :: 0 <= i < |hs| && 0 <= j < |bs| && Placed(hs[i].op) && Placed(bs[j].op)
                   ==> PlacedEnd(hs[i].op) <= bs[j].op.offset
  }

  lemma {:induction false} SeparateIffStartsAfter(hs: seq<Entry>, bs: seq<Entry>)
    requires Sorted(bs)
    ensures Separate(hs, bs) <==> StartsAfter(bs, ClipEnd(hs, 0))
  {
    ClipEndIsFurthest(hs, 0);
    StartsAfterAll(bs, ClipEnd(hs, 0));
  }

  /** The writing pass, entering the body list where the header list ended, ignores no body
      lump exactly when the two lists are separate. */
  lemma {:induction false} BodyLumpsApplied(hs: seq<Entry>, bs: seq<Entry>)
    requires Sorted(bs)
    ensures NoOverlap(Clip(bs, 0), RenderEnd(Clip(hs, 0), 0)) <==> Separate(hs, bs)
  {
    ClipRemovesOverlaps(hs, 0);
    ClipRemovesOverlaps(bs, 0);
    SeparateIffStartsAfter(hs, bs);
    ClipKeepsStart(bs, ClipEnd(hs, 0));
    OverlapIffStartsBefore(Clip(bs, 0), 0, ClipEnd(hs, 0));
  }

  // ----- the finished message ---------------------------------------------------------------

  /** What build_all writes for a message of n bytes, given the two lists as the length
      pass left them. */
  function Output(hs: seq<Entry>, bs: seq<Entry>, n: nat, env: Env): seq<Cell>
    requires RenderEnd(bs, RenderEnd(hs, 0)) <= n
  {
    Render(hs, 0, env) + Render(bs, RenderEnd(hs, 0), env) + Span(RenderEnd(bs, RenderEnd(hs, 0)), n)
  }

  /** Whatever the lists, the bytes written and the length computed differ by exactly what
      the ignored body lumps stood for. */
  lemma {:induction false} OutputLength(hs: seq<Entry>, bs: seq<Entry>, n: nat, env: Env)
    requires RenderEnd(Clip(bs, 0), RenderEnd(Clip(hs, 0), 0)) <= n
    ensures |Output(Clip(hs, 0), Clip(bs, 0), n, env)|
            == n + Delta(hs, 0, env) + Delta(bs, 0, env)
               - Lost(Clip(bs, 0), RenderEnd(Clip(hs, 0), 0), env)
  {
    RenderLength(Clip(hs, 0), 0, env);
    RenderLength(Clip(bs, 0), RenderEnd(Clip(hs, 0), 0), env);
    ClipRemovesOverlaps(hs, 0);
    NothingLost(Clip(hs, 0), 0, env);
    DeltaIsRawDelta(hs, 0, env);
    DeltaIsRawDelta(bs, 0, env);
  }

  lemma {:induction false} RenderStaysWithin(es: seq<Entry>, s: nat, n: nat)
    requires Within(es, n) && s <= n
    ensures RenderEnd(es, s) <= n
  {
    if es != [] {
      assert es[0] in es;
      assert forall i :: 0 <= i < |es[1..]| ==> es[1..][i] == es[i + 1];
      RenderStaysWithin(es[1..], StepEnd(es[0].op, s), n);
    }
  }

  lemma {:induction false} OutputDefined(hs: seq<Entry>, bs: seq<Entry>, n: nat)
    requires Within(hs, n) && Within(bs, n)
    ensures RenderEnd(Clip(hs, 0), 0) <= n
    ensures RenderEnd(Clip(bs, 0), RenderEnd(Clip(hs, 0), 0)) <= n
  {
    ClipStaysWithin(hs, 0, n);
    ClipStaysWithin(bs, 0, n);
    RenderStaysWithin(Clip(hs, 0), 0, n);
    RenderStaysWithin(Clip(bs, 0), RenderEnd(Clip(hs, 0), 0), n);
  }

  /** When the lists are separate the buffer is filled exactly: the two passes agree. */
  lemma {:induction false} PassesAgree(hs: seq<Entry>, bs: seq<Entry>, n: nat, env: Env)
    requires Within(hs, n) && Within(bs, n) && Sorted(bs) && Separate(hs, bs)
    ensures RenderEnd(Clip(bs, 0), RenderEnd(Clip(hs, 0), 0)) <= n
    ensures |Output(Clip(hs, 0), Clip(bs, 0), n, env)| == n + Delta(hs, 0, env) + Delta(bs, 0, env)
  {
    OutputDefined(hs, bs, n);
    OutputLength(hs, bs, n, env);
    BodyLumpsApplied(hs, bs);
    NothingLost(Clip(bs, 0), RenderEnd(Clip(hs, 0), 0), env);
  }

  /** A list of one lump. */
  lemma {:induction false} Single(e: Entry, s: nat, env: Env)
    ensures Clip([e], s) == [e.(op := ClipOp(e.op, s))] && ClipEnd([e], s) == Advance(e.op, s)
    ensures RenderEnd([e], s) == StepEnd(e.op, s)
    ensures Delta([e], s, env) == EntryLen(e, env) - Removed(ClipOp(e.op, s))
    ensures Lost([e], s, env) == if Overlapped(e.op, s) then EntryLen(e, env) - Removed(e.op) else 0
    ensures ListText([e], env) == EntryText(e, env)
  {
    assert [e][1..] == [];
  }

  /** A lump with one text behind it, or none. */
  lemma {:induction false} ShortEntry(op: Op, text: string, env: Env)
    requires Placed(op)
    ensures EntryLen(Entry(op, [], []), env) == 0
    ensures EntryLen(Entry(op, [], [Add(text)]), env) == |text|
    ensures EntryText(Entry(op, [], [Add(text)]), env) == text
  {
    assert [Add(text)][1..] == [];
  }

  /** They need not agree otherwise: a header deletion of five bytes runs over an anchor in
      the body, whose one inserted byte is counted and never written. */
  lemma {:induction false} PassesMayDisagree(env: Env)
    ensures var hs := [Entry(Del(0, 5), [], [])];
            var bs := [Entry(Nop(3), [], [Add("x")])];
            && Sorted(hs) && Sorted(bs) && Within(hs, 9) && Within(bs, 9) && !Separate(hs, bs)
            && RenderEnd(Clip(bs, 0), RenderEnd(Clip(hs, 0), 0)) <= 9
            && |Output(Clip(hs, 0), Clip(bs, 0), 9, env)| != 9 + Delta(hs, 0, env) + Delta(bs, 0, env)
  {
    var hs := [Entry(Del(0, 5), [], [])];
    var bs := [Entry(Nop(3), [], [Add("x")])];
    assert !Separate(hs, bs) by {
      assert Placed(hs[0].op) && Placed(bs[0].op) && PlacedEnd(hs[0].op) > bs[0].op.offset;
    }
    Single(hs[0], 0, env);
    Single(bs[0], 0, env);
    Single(bs[0], 5, env);
    ShortEntry(bs[0].op, "x", env);
    OutputLength(hs, bs, 9, env);
  }

  /** The other way round: a body deletion under a header deletion is counted twice and done once,
      so that four bytes are written behind the computed length. */
  lemma {:induction false} PassesMayOverrun(env: Env)
    ensures var hs, bs := [Entry(Del(0, 5), [], [])], [Entry(Del(3, 4), [], [])];
            && Sorted(hs) && Sorted(bs) && Within(hs, 9) && Within(bs, 9)
            && RenderEnd(Clip(bs, 0), RenderEnd(Clip(hs, 0), 0)) <= 9
            && |Output(Clip(hs, 0), Clip(bs, 0), 9, env)| == 9 + Delta(hs, 0, env) + Delta(bs, 0, env) + 4
  {
    var hs, bs := [Entry(Del(0, 5), [], [])], [Entry(Del(3, 4), [], [])];
    Single(hs[0], 0, env);
    Single(bs[0], 0, env);
    Single(bs[0], 5, env);
    ShortEntry(bs[0].op, "", env);
    OutputLength(hs, bs, 9, env);
  }

  lemma {:induction false} JoinedOk(hs: seq<Entry>, bs: seq<Entry>, n: nat)
    requires Sorted(hs) && Sorted(bs) && Separate(hs, bs) && Within(hs, n) && Within(bs, n)
    ensures Sorted(hs + bs) && Within(hs + bs, n)
  {
    var es := hs + bs;
    assert forall i :: 0 <= i < |es| ==> es[i] == if i < |hs| then hs[i] else bs[i - |hs|];
    assert forall j :: 0 <= j < |hs| && Placed(hs[j].op) ==> hs[j].op.offset <= PlacedEnd(hs[j].op);
  }

  /** Separate lists behave as one list. */
  lemma {:induction false} OutputIsOneRendering(hs: seq<Entry>, bs: seq<Entry>, n: nat, env: Env)
    requires Sorted(hs) && Sorted(bs) && Separate(hs, bs) && Within(hs, n) && Within(bs, n)
    ensures Sorted(hs + bs) && Within(hs + bs, n)
    ensures ClipEnd(hs + bs, 0) <= n
    ensures RenderEnd(Clip(bs, 0), RenderEnd(Clip(hs, 0), 0)) == ClipEnd(hs + bs, 0)
    ensures Output(Clip(hs, 0), Clip(bs, 0), n, env)
            == Render(Clip(hs + bs, 0), 0, env) + Span(ClipEnd(hs + bs, 0), n)
  {
    var h := ClipEnd(hs, 0);
    JoinedOk(hs, bs, n);
    SeparateIffStartsAfter(hs, bs);
    ClipFromLater(bs, 0, h);
    ClipAppend(hs, bs, 0);
    ClipEndAppend(hs, bs, 0);
    ClipRemovesOverlaps(hs, 0);
    RenderAppend(Clip(hs, 0), Clip(bs, h), 0, env);
    ClipRemovesOverlaps(bs, h);
    ClipStaysWithin(hs + bs, 0, n);
  }

  /** The meaning of a whole message built from separate, sorted lists: the surviving
      original bytes are those no deletion covers, in order, and the inserted bytes are the
      texts of the lumps in list order. */
  lemma {:induction false} OutputMeaning(hs: seq<Entry>, bs: seq<Entry>, n: nat, env: Env)
    requires Sorted(hs) && Sorted(bs) && Separate(hs, bs) && Within(hs, n) && Within(bs, n)
    ensures RenderEnd(Clip(bs, 0), RenderEnd(Clip(hs, 0), 0)) <= n
    ensures var out := Output(Clip(hs, 0), Clip(bs, 0), n, env);
            && Origs(out) == Uncovered(hs + bs, 0, n)
            && Inserted(out) == ListText(hs + bs, env)
  {
    var es := hs + bs;
    OutputIsOneRendering(hs, bs, n, env);
    OrigsConcat(Render(Clip(es, 0), 0, env), Span(ClipEnd(es, 0), n));
    InsertedConcat(Render(Clip(es, 0), 0, env), Span(ClipEnd(es, 0), n));
    FiltersSpan([], ClipEnd(es, 0), n);
    RenderKeepsUncovered(es, 0, n, env);
    RenderInserts(es, 0, env);
  }

  // ----- where each lump's text lands ---------------------------------------------------------

  lemma {:induction false} CoveredSplit(a: seq<Entry>, b: seq<Entry>, p: nat)
    ensures Covered(a + b, p) <==> Covered(a, p) || Covered(b, p)
  {
    if Covered(a, p) {
      var i :| 0 <= i < |a| && a[i].op.Del? && a[i].op.offset <= p < PlacedEnd(a[i].op);
      assert (a + b)[i] == a[i];
    }
    if Covered(b, p) {
      var i :| 0 <= i < |b| && b[i].op.Del? && b[i].op.offset <= p < PlacedEnd(b[i].op);
      assert (a + b)[|a| + i] == b[i];
    }
  }

  /** All text between a position that every lump of a list starts before, and the end of
      the clipped list, is deleted. */
  lemma {:induction false} CoveredUpToEnd(es: seq<Entry>, off: nat, p: nat)
    requires forall i :: 0 <= i < |es| && Placed(es[i].op) ==> es[i].op.offset <= off
    requires off <= p < ClipEnd(es, 0)
    ensures Covered(es, p)
  {
    ClipEndIsFurthest(es, 0);
    var i :| 0 <= i < |es| && Placed(es[i].op) && PlacedEnd(es[i].op) == ClipEnd(es, 0);
  }

  lemma {:induction false} NotCoveredBelow(es: seq<Entry>, off: nat, p: nat)
    requires forall i :: 0 <= i < |es| && Placed(es[i].op) ==> off <= es[i].op.offset
    requires p < off
    ensures !Covered(es, p)
  {
  }

  /** The surviving bytes in front of the insertion point of a lump at off, when pre is
      everything before it in the list. */
  lemma {:induction false} KeptBefore(pre: seq<Entry>, rest: seq<Entry>, off: nat, env: Env)
    requires Sorted(pre)
    requires forall i :: 0 <= i < |pre| && Placed(pre[i].op) ==> pre[i].op.offset <= off
    requires forall i :: 0 <= i < |rest| && Placed(rest[i].op) ==> off <= rest[i].op.offset
    ensures var s := ClipEnd(pre, 0);
            Origs(Render(Clip(pre, 0), 0, env)) + (if s <= off then Uncovered(pre + rest, s, off) else [])
            == Uncovered(pre + rest, 0, off)
  {
    var s := ClipEnd(pre, 0);
    ClipEndIsFurthest(pre, 0);
    RenderKeepsUncovered(pre, 0, s, env);
    assert Origs(Render(Clip(pre, 0), 0, env)) == Uncovered(pre, 0, s);
    var m := if s <= off then s else off;
    forall p: nat | 0 <= p < m
      ensures Covered(pre, p) == Covered(pre + rest, p)
    {
      CoveredSplit(pre, rest, p);
      NotCoveredBelow(rest, off, p);
    }
    UncoveredSame(pre, pre + rest, 0, m);
    if s <= off {
      UncoveredSplit(pre + rest, 0, s, off);
    } else {
      UncoveredSplit(pre, 0, off, s);
      forall p: nat | off <= p < s
        ensures Covered(pre, p)
      {
        CoveredUpToEnd(pre, off, p);
      }
      UncoveredNone(pre, off, s);
    }
  }

  /** The text of a deletion or anchor at position i of a sorted list is inserted at its own
      offset: what is written before it keeps exactly the surviving bytes below the offset,
      what is written after it exactly those from the end of the lump on. */
  lemma {:induction false} InsertionPlace(es: seq<Entry>, i: nat, n: nat, env: Env)
    requires Sorted(es) && Within(es, n) && i < |es| && Placed(es[i].op)
    ensures ClipEnd(es, 0) <= n
    ensures exists front, back ::
              && Render(Clip(es, 0), 0, env) + Span(ClipEnd(es, 0), n)
                 == front + News(EntryText(es[i], env)) + back
              && Origs(front) == Uncovered(es, 0, es[i].op.offset)
              && Origs(back) == Uncovered(es, PlacedEnd(es[i].op), n)
  {
    var s := ClipEnd(es[..i], 0);
    var s' := Advance(es[i].op, s);
    var whole, kept := Render(Clip(es[..i], 0), 0, env), Kept(ClipOp(es[i].op, s), s);
    var tail, text := Render(Clip(es[i + 1..], s'), s', env), News(EntryText(es[i], env));
    ClipStaysWithin(es, 0, n);
    RenderAt(es, i, env);
    Rearrange(whole, kept, text, tail, Span(ClipEnd(es, 0), n));
    FrontKeeps(es, i, n, env);
    BackKeeps(es, i, n, env);
    var front, back := whole + kept, tail + Span(ClipEnd(es, 0), n);
    assert Render(Clip(es, 0), 0, env) + Span(ClipEnd(es, 0), n) == front + text + back;
  }

  /** The rendering of a clipped list, cut open at one lump. */
  lemma {:induction false} RenderAt(es: seq<Entry>, i: nat, env: Env)
    requires i < |es|
    ensures var s := ClipEnd(es[..i], 0);
            var s' := Advance(es[i].op, s);
            Render(Clip(es, 0), 0, env)
            == Render(Clip(es[..i], 0), 0, env)
               + (Kept(ClipOp(es[i].op, s), s) + News(EntryText(es[i], env)) + Render(Clip(es[i + 1..], s'), s', env))
  {
    var pre, rest := es[..i], es[i..];
    assert es == pre + rest;
    ClipAppend(pre, rest, 0);
    ClipRemovesOverlaps(pre, 0);
    RenderAppend(Clip(pre, 0), Clip(rest, ClipEnd(pre, 0)), 0, env);
    RenderClipHead(rest, ClipEnd(pre, 0), env);
    assert rest[1..] == es[i + 1..];
  }

  lemma {:induction false} Rearrange(a: seq<Cell>, b: seq<Cell>, c: seq<Cell>, d: seq<Cell>, e: seq<Cell>)
    ensures (a + (b + c + d)) + e == (a + b) + c + (d + e)
  {
  }

  lemma {:induction false} FrontKeeps(es: seq<Entry>, i: nat, n: nat, env: Env)
    requires Sorted(es) && Within(es, n) && i < |es| && Placed(es[i].op)
    ensures var s := ClipEnd(es[..i], 0);
            Origs(Render(Clip(es[..i], 0), 0, env) + Kept(ClipOp(es[i].op, s), s))
            == Uncovered(es, 0, es[i].op.offset)
  {
    var pre, rest := es[..i], es[i..];
    var s, off := ClipEnd(pre, 0), es[i].op.offset;
    assert es == pre + rest;
    KeptBefore(pre, rest, off, env);
    OrigsConcat(Render(Clip(pre, 0), 0, env), Kept(ClipOp(es[i].op, s), s));
    if s <= off {
      forall p: nat | s <= p < off
        ensures !Covered(es, p)
      {
        CoveredSplit(pre, rest, p);
        NotCoveredBelow(rest, off, p);
        ClipEndIsFurthest(pre, 0);
      }
      FiltersKept(es, es[i].op, s);
    }
  }

  lemma {:induction false} EndAfter(es: seq<Entry>, i: nat)
    requires i < |es|
    ensures Advance(es[i].op, ClipEnd(es[..i], 0)) == ClipEnd(es[..i + 1], 0)
    ensures ClipEnd(es, 0) == ClipEnd(es[i + 1..], ClipEnd(es[..i + 1], 0))
  {
    assert ClipEnd(es, 0) == ClipEnd(es[i + 1..], ClipEnd(es[..i + 1], 0)) by {
      ClipEndAppend(es[..i + 1], es[i + 1..], 0);
      assert es == es[..i + 1] + es[i + 1..];
    }
    assert ClipEnd(es[..i + 1], 0) == ClipEnd([es[i]], ClipEnd(es[..i], 0)) by {
      ClipEndAppend(es[..i], [es[i]], 0);
      assert es[..i + 1] == es[..i] + [es[i]];
    }
    assert ClipEnd([es[i]], ClipEnd(es[..i], 0)) == Advance(es[i].op, ClipEnd(es[..i], 0)) by {
      assert [es[i]][1..] == [];
    }
  }

  /** From the end of lump i on, its tail decides what survives. */
  lemma {:induction false} UncoveredAfter(es: seq<Entry>, i: nat, n: nat)
    requires Sorted(es) && Within(es, n) && i < |es| && Placed(es[i].op)
    requires PlacedEnd(es[i].op) <= ClipEnd(es[..i + 1], 0) <= n
    ensures Uncovered(es[i + 1..], ClipEnd(es[..i + 1], 0), n) == Uncovered(es, PlacedEnd(es[i].op), n)
  {
    var pre, rest := es[..i + 1], es[i + 1..];
    var end, s' := PlacedEnd(es[i].op), ClipEnd(pre, 0);
    assert es == pre + rest;
    ClipEndIsFurthest(pre, 0);
    forall p: nat | s' <= p < n
      ensures Covered(rest, p) == Covered(es, p)
    {
      CoveredSplit(pre, rest, p);
    }
    UncoveredSame(rest, es, s', n);
    forall p: nat | end <= p < s'
      ensures Covered(es, p)
    {
      CoveredUpToEnd(pre, end, p);
      CoveredSplit(pre, rest, p);
    }
    UncoveredNone(es, end, s');
    UncoveredSplit(es, end, s', n);
  }

  lemma {:induction false} BackKeeps(es: seq<Entry>, i: nat, n: nat, env: Env)
    requires Sorted(es) && Within(es, n) && i < |es| && Placed(es[i].op)
    ensures ClipEnd(es, 0) <= n
    ensures var s' := Advance(es[i].op, ClipEnd(es[..i], 0));
            Origs(Render(Clip(es[i + 1..], s'), s', env) + Span(ClipEnd(es, 0), n))
            == Uncovered(es, PlacedEnd(es[i].op), n)
  {
    var rest, s' := es[i + 1..], ClipEnd(es[..i + 1], 0);
    EndAfter(es, i);
    ClipStaysWithin(es, 0, n);
    ClipStaysWithin(es[..i + 1], 0, n);
    ClipEndIsFurthest(es[..i + 1], 0);
    assert es[..i + 1][i] == es[i];
    RenderKeepsUncovered(rest, s', n, env);
    OrigsConcat(Render(Clip(rest, s'), s', env), Span(ClipEnd(es, 0), n));
    FiltersSpan([], ClipEnd(es, 0), n);
    UncoveredAfter(es, i, n);
  }
}
