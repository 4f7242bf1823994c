/** What the two passes over a lump list mean together.

    The length pass clips overlapping deletions and returns a length difference; the
    writing pass then copies, skips and inserts.  Here the clipped rendering is measured
    against the list as the callers built it: which original bytes survive, what is
    inserted and where, and how many bytes come out. */
module LumpTheorems {
  import opened LumpModel
  import opened Sequences

  // ----- what the callers asked for ---------------------------------------------------

  /** The order del_lump and anchor_lump maintain: placed lumps by ascending offset. */
  ghost predicate Sorted(es: seq<Entry>) {
    forall i, j :: 0 <= i < j < |es| && Placed(es[i].op) && Placed(es[j].op)
                   ==> es[i].op.offset <= es[j].op.offset
  }

  /** Every placed lump lies inside a message of n bytes. */
  ghost predicate Within(es: seq<Entry>, n: nat) {
    forall i :: 0 <= i < |es| && Placed(es[i].op) ==> PlacedEnd(es[i].op) <= n
  }

  /** Some deletion of the list covers position p. */
  predicate Covered(es: seq<Entry>, p: nat) {
    exists i :: 0 <= i < |es| && es[i].op.Del? && es[i].op.offset <= p < PlacedEnd(es[i].op)
  }

  /** The positions of [lo, hi) that no deletion covers, ascending. */
  function Uncovered(es: seq<Entry>, lo: nat, hi: nat): seq<nat>
    decreases hi - lo
  {
    if lo >= hi then []
    else (if Covered(es, lo) then [] else [lo]) + Uncovered(es, lo + 1, hi)
  }

  /** The original positions in a rendering, in output order. */
  function Origs(cells: seq<Cell>): seq<nat> {
    if cells == [] then []
    else if cells[0].Orig? then [cells[0].pos] + Origs(cells[1..])
    else Origs(cells[1..])
  }

  /** The inserted bytes in a rendering, in output order. */
  function Inserted(cells: seq<Cell>): string {
    if cells == [] then ""
    else if cells[0].New? then [cells[0].c] + Inserted(cells[1..])
    else Inserted(cells[1..])
  }

  // ----- filters over renderings --------------------------------------------------------

  lemma {:induction false} OrigsConcat(a: seq<Cell>, b: seq<Cell>)
    ensures Origs(a + b) == Origs(a) + Origs(b)
  {
    if a == [] {
      assert a + b == b;
    } else {
      OrigsConcat(a[1..], b);
      assert (a + b)[0] == a[0] && (a + b)[1..] == a[1..] + b;
    }
  }

  lemma {:induction false} InsertedConcat(a: seq<Cell>, b: seq<Cell>)
    ensures Inserted(a + b) == Inserted(a) + Inserted(b)
  {
    if a == [] {
      assert a + b == b;
    } else {
      InsertedConcat(a[1..], b);
      assert (a + b)[0] == a[0] && (a + b)[1..] == a[1..] + b;
    }
  }

  lemma {:induction false} FiltersNews(text: string)
    ensures Origs(News(text)) == [] && Inserted(News(text)) == text
  {
    if text != "" {
      FiltersNews(text[1..]);
      assert News(text)[1..] == News(text[1..]);
      assert text == [text[0]] + text[1..];
    }
  }

  lemma {:induction false} FiltersSpan(es: seq<Entry>, lo: nat, hi: nat)
    requires lo <= hi
    requires forall p: nat :: lo <= p < hi ==> !Covered(es, p)
    ensures Origs(Span(lo, hi)) == Uncovered(es, lo, hi) && Inserted(Span(lo, hi)) == ""
    decreases hi - lo
  {
    if lo < hi {
      FiltersSpan(es, lo + 1, hi);
      assert Span(lo, hi)[1..] == Span(lo + 1, hi);
    }
  }

  lemma {:induction false} UncoveredSplit(es: seq<Entry>, lo: nat, mid: nat, hi: nat)
    requires lo <= mid <= hi
    ensures Uncovered(es, lo, hi) == Uncovered(es, lo, mid) + Uncovered(es, mid, hi)
    decreases mid - lo
  {
    if lo < mid {
      UncoveredSplit(es, lo + 1, mid, hi);
    }
  }

  lemma {:induction false} UncoveredSame(es: seq<Entry>, fs: seq<Entry>, lo: nat, hi: nat)
    requires forall p: nat :: lo <= p < hi ==> Covered(es, p) == Covered(fs, p)
    ensures Uncovered(es, lo, hi) == Uncovered(fs, lo, hi)
    decreases hi - lo
  {
    if lo < hi {
      UncoveredSame(es, fs, lo + 1, hi);
    }
  }

  lemma {:induction false} UncoveredNone(es: seq<Entry>, lo: nat, hi: nat)
    requires forall p: nat :: lo <= p < hi ==> Covered(es, p)
    ensures Uncovered(es, lo, hi) == []
    decreases hi - lo
  {
    if lo < hi {
      UncoveredNone(es, lo + 1, hi);
    }
  }

  // ----- clipping -------------------------------------------------------------------------

  /** The writing pass never takes its "overlapped" branch, started with s bytes consumed. */
  predicate NoOverlap(es: seq<Entry>, s: nat) {
    es == [] || (!Overlapped(es[0].op, s) && NoOverlap(es[1..], StepEnd(es[0].op, s)))
  }

  lemma {:induction false} ClipRemovesOverlaps(es: seq<Entry>, s: nat)
    ensures NoOverlap(Clip(es, s), s)
    ensures RenderEnd(Clip(es, s), s) == ClipEnd(es, s)
  {
    if es != [] {
      ClipRemovesOverlaps(es[1..], Advance(es[0].op, s));
      assert Clip(es, s)[1..] == Clip(es[1..], Advance(es[0].op, s));
    }
  }

  /** Running the length pass again changes no lump and returns the same number. */
  lemma {:induction false} ClipIsIdempotent(es: seq<Entry>, s: nat, env: Env)
    ensures Clip(Clip(es, s), s) == Clip(es, s)
    ensures Delta(Clip(es, s), s, env) == Delta(es, s, env)
    ensures ClipEnd(Clip(es, s), s) == ClipEnd(es, s)
  {
    if es != [] {
      ClipIsIdempotent(es[1..], Advance(es[0].op, s), env);
      assert Clip(es, s)[1..] == Clip(es[1..], Advance(es[0].op, s));
    }
  }

  lemma {:induction false} ClipOffsets(es: seq<Entry>, s: nat)
    ensures forall i :: 0 <= i < |es| ==> Placed(Clip(es, s)[i].op) == Placed(es[i].op)
    ensures forall i :: 0 <= i < |es| && Placed(Clip(es, s)[i].op) ==> s <= Clip(es, s)[i].op.offset
    ensures Sorted(Clip(es, s))
  {
    if es != [] {
      var s' := Advance(es[0].op, s);
      ClipOffsets(es[1..], s');
      var c := Clip(es, s);
      forall i, j | 0 <= i < j < |c| && Placed(c[i].op) && Placed(c[j].op)
        ensures c[i].op.offset <= c[j].op.offset
      {
        assert c[j] == Clip(es[1..], s')[j - 1];
        if i > 0 {
          assert c[i] == Clip(es[1..], s')[i - 1];
        }
      }
      forall i | 0 <= i < |es|
        ensures Placed(c[i].op) == Placed(es[i].op)
        ensures Placed(c[i].op) ==> s <= c[i].op.offset
      {
        if i > 0 {
          assert c[i] == Clip(es[1..], s')[i - 1];
        }
      }
    }
  }

  lemma {:induction false} ClipStaysWithin(es: seq<Entry>, s: nat, n: nat)
    requires Within(es, n) && s <= n
    ensures Within(Clip(es, s), n) && ClipEnd(es, s) <= n
  {
    if es != [] {
      assert es[0] in es;
      var s' := Advance(es[0].op, s);
      ClipStaysWithin(es[1..], s', n);
      var c := Clip(es, s);
      forall i | 0 <= i < |c| && Placed(c[i].op)
        ensures PlacedEnd(c[i].op) <= n
      {
        if i > 0 {
          assert c[i] == Clip(es[1..], s')[i - 1];
        }
      }
    }
  }

  // ----- which original bytes survive ---------------------------------------------------

  lemma {:induction false} SortedTail(es: seq<Entry>, n: nat)
    requires es != [] && Sorted(es) && Within(es, n)
    ensures Sorted(es[1..]) && Within(es[1..], n)
    ensures Placed(es[0].op) ==> forall p: nat :: p < es[0].op.offset ==> !Covered(es, p)
    ensures forall p: nat :: Covered(es, p) ==
                        (Covered(es[1..], p) || (es[0].op.Del? && es[0].op.offset <= p < PlacedEnd(es[0].op)))
  {
    forall p: nat | Covered(es[1..], p)
      ensures Covered(es, p)
    {
      var i :| 0 <= i < |es[1..]| && es[1..][i].op.Del? && es[1..][i].op.offset <= p < PlacedEnd(es[1..][i].op);
      assert es[i + 1] == es[1..][i];
    }
    forall p: nat | Covered(es, p) && !(es[0].op.Del? && es[0].op.offset <= p < PlacedEnd(es[0].op))
      ensures Covered(es[1..], p)
    {
      var i :| 0 <= i < |es| && es[i].op.Del? && es[i].op.offset <= p < PlacedEnd(es[i].op);
      assert es[1..][i - 1] == es[i];
    }
  }

  /** The original text copied in front of a clipped lump. */
  function Kept(op: Op, s: nat): seq<Cell> {
    if Placed(op) && s <= op.offset then Span(s, op.offset) else []
  }

  /** The cells the writing pass emits for the first lump of a clipped list. */
  lemma {:induction false} RenderClipHead(es: seq<Entry>, s: nat, env: Env)
    requires es != []
    ensures Render(Clip(es, s), s, env)
            == Kept(ClipOp(es[0].op, s), s) + News(EntryText(es[0], env))
               + Render(Clip(es[1..], Advance(es[0].op, s)), Advance(es[0].op, s), env)
  {
    assert Clip(es, s)[1..] == Clip(es[1..], Advance(es[0].op, s));
    assert EntryText(Clip(es, s)[0], env) == EntryText(es[0], env);
  }

  lemma {:induction false} OrigsOfThree(a: seq<Cell>, b: seq<Cell>, c: seq<Cell>)
    ensures Origs(a + b + c) == Origs(a) + Origs(b) + Origs(c)
  {
    OrigsConcat(a + b, c);
    OrigsConcat(a, b);
  }

  lemma {:induction false} InsertedOfThree(a: seq<Cell>, b: seq<Cell>, c: seq<Cell>)
    ensures Inserted(a + b + c) == Inserted(a) + Inserted(b) + Inserted(c)
  {
    InsertedConcat(a + b, c);
    InsertedConcat(a, b);
  }

  lemma {:induction false} FiltersPiece(kept: seq<Cell>, text: string, rest: seq<Cell>)
    ensures Origs(kept + News(text) + rest) == Origs(kept) + Origs(rest)
    ensures Inserted(kept + News(text) + rest) == Inserted(kept) + text + Inserted(rest)
  {
    FiltersNews(text);
    OrigsOfThree(kept, News(text), rest);
    InsertedOfThree(kept, News(text), rest);
    assert Origs(kept) + [] == Origs(kept);
  }

  lemma {:induction false} FiltersKept(es: seq<Entry>, op: Op, s: nat)
    requires Placed(op) ==> forall p: nat :: s <= p < op.offset ==> !Covered(es, p)
    ensures Inserted(Kept(op, s)) == ""
    ensures Origs(Kept(op, s)) == if Placed(op) && s <= op.offset then Uncovered(es, s, op.offset) else []
  {
    if Placed(op) && s <= op.offset {
      FiltersSpan(es, s, op.offset);
    }
  }

  lemma {:induction false} RenderClipFilters(es: seq<Entry>, s: nat, env: Env)
    requires es != []
    ensures var next := Advance(es[0].op, s);
            var rest := Render(Clip(es[1..], next), next, env);
            && Inserted(Render(Clip(es, s), s, env)) == EntryText(es[0], env) + Inserted(rest)
            && Origs(Render(Clip(es, s), s, env)) == Origs(Kept(ClipOp(es[0].op, s), s)) + Origs(rest)
  {
    var op, s' := ClipOp(es[0].op, s), Advance(es[0].op, s);
    RenderClipHead(es, s, env);
    FiltersPiece(Kept(op, s), EntryText(es[0], env), Render(Clip(es[1..], s'), s', env));
    FiltersKept([], op, s);
    assert "" + EntryText(es[0], env) == EntryText(es[0], env);
  }

  /** After clipping, the inserted bytes are the lumps' texts in list order. */
  lemma {:induction false} RenderInserts(es: seq<Entry>, s: nat, env: Env)
    ensures Inserted(Render(Clip(es, s), s, env)) == ListText(es, env)
  {
    if es != [] {
      RenderClipFilters(es, s, env);
      RenderInserts(es[1..], Advance(es[0].op, s), env);
    }
  }

  /** Behind the head of a list only its tail deletes. */
  lemma {:induction false} TailDecides(es: seq<Entry>, s: nat, n: nat)
    requires es != [] && Sorted(es) && Within(es, n) && s <= n
    ensures Uncovered(es, Advance(es[0].op, s), n) == Uncovered(es[1..], Advance(es[0].op, s), n)
  {
    SortedTail(es, n);
    UncoveredSame(es, es[1..], Advance(es[0].op, s), n);
  }

  /** In front of a placed head nothing is deleted; from where it was clipped to, everything. */
  lemma {:induction false} HeadDecides(es: seq<Entry>, op: Op, s: nat, n: nat)
    requires es != [] && Sorted(es) && Within(es, n) && Placed(es[0].op) && op == ClipOp(es[0].op, s)
    ensures s <= op.offset <= Advance(es[0].op, s)
    ensures Uncovered(es, s, op.offset) == Origs(Kept(op, s)) && Uncovered(es, op.offset, Advance(es[0].op, s)) == []
  {
    SortedTail(es, n);
    FiltersKept(es, op, s);
    UncoveredNone(es, op.offset, Advance(es[0].op, s));
  }

  /** The positions the head of a sorted list leaves, before those its tail leaves. */
  lemma {:induction false} UncoveredHead(es: seq<Entry>, s: nat, n: nat)
    requires es != [] && Sorted(es) && Within(es, n) && s <= n
    ensures s <= Advance(es[0].op, s) <= n
    ensures Uncovered(es, s, n)
            == Origs(Kept(ClipOp(es[0].op, s), s)) + Uncovered(es[1..], Advance(es[0].op, s), n)
  {
    var op, s' := ClipOp(es[0].op, s), Advance(es[0].op, s);
    assert Placed(es[0].op) ==> PlacedEnd(es[0].op) <= n;
    TailDecides(es, s, n);
    if Placed(op) {
      HeadDecides(es, op, s, n);
      UncoveredSplit(es, s, op.offset, n);
      UncoveredSplit(es, op.offset, s', n);
    }
  }

  /** After clipping, the original bytes that are written, with the tail that is copied
      last, are exactly those that no deletion of the unclipped list covers, in order. */
  lemma {:induction false} RenderKeepsUncovered(es: seq<Entry>, s: nat, n: nat, env: Env)
    requires Sorted(es) && Within(es, n) && s <= n
    ensures Origs(Render(Clip(es, s), s, env)) + Uncovered([], ClipEnd(es, s), n) == Uncovered(es, s, n)
  {
    if es == [] {
      assert Origs(Render([], s, env)) == [];
    } else {
      var s' := Advance(es[0].op, s);
      SortedTail(es, n);
      UncoveredHead(es, s, n);
      RenderClipFilters(es, s, env);
      RenderKeepsUncovered(es[1..], s', n, env);
      Regroup(Origs(Kept(ClipOp(es[0].op, s), s)), Origs(Render(Clip(es[1..], s'), s', env)), Uncovered([], ClipEnd(es[1..], s'), n));
    }
  }
}
