/** Regular-expression substitution: templates such as /re/replacement/g, and rewriting a text
    with one.  The regular-expression engine is a parameter. */
module Subst {
  import opened Wrappers
  import opened Sequences
  import opened Buffers

  const MAX_REPLACE_WITH := 100

  // ----- what a replacement text means --------------------------------------------------------

  /** What stands for an escape: a group of the match, a character, or the request URI. */
  datatype What = Nmatch(n: nat) | Chr(c: char) | Uri

  datatype Item = Lit(c: char) | Special(what: What)

  function Unescape(ch: char): What {
    if ch == '\\' then Chr('\\')
    else if ch == 'n' then Chr('\n')
    else if ch == 'r' then Chr('\r')
    else if ch == 't' then Chr('\t')
    else if ch == 'u' then Uri
    else if '0' <= ch <= '9' then Nmatch(ch as nat - '0' as nat)
    else Chr(ch)
  }

  /** A replacement as a list of items, and the number of characters it takes. */
  datatype Template = Template(items: seq<Item>, len: nat)

  /** The replacement at the start of s, up to the first separator that is not escaped. */
  function Items(s: string, sep: char): Option<Template> {
    if s == "" then None
    else if s[0] == '\\' then
      if |s| == 1 then None
      else
        match Items(s[2..], sep)
        case None => None
        case Some(t) => Some(Template([Special(Unescape(s[1]))] + t.items, t.len + 2))
    else if s[0] == sep then Some(Template([], 0))
    else
      match Items(s[1..], sep)
      case None => None
      case Some(t) => Some(Template([Lit(s[0])] + t.items, t.len + 1))
  }

  function Width(items: seq<Item>): nat {
    if items == [] then 0 else (if items[0].Lit? then 1 else 2) + Width(items[1..])
  }

  /** A group of a match: where it starts and ends. */
  datatype Span = Span(so: nat, eo: nat)

  /** What an expansion depends on: the text that was matched against, the groups, and the URI if
      the message is a request. */
  datatype Env = Env(text: string, groups: seq<Option<Span>>, uri: Option<string>)

  predicate EnvOk(e: Env) {
    forall i | 0 <= i < |e.groups| && e.groups[i].Some? ::
      e.groups[i].value.so <= e.groups[i].value.eo <= |e.text|
  }

  function Value(w: What, e: Env): string
    requires EnvOk(e)
  {
    match w
    case Nmatch(n) =>
      if n < |e.groups| && e.groups[n].Some? then e.text[e.groups[n].value.so..e.groups[n].value.eo] else ""
    case Chr(c) => [c]
    case Uri => if e.uri.Some? then e.uri.value else ""
  }

  /** The text that a replacement stands for. */
  function Expand(items: seq<Item>, e: Env): string
    requires EnvOk(e)
  {
    if items == [] then ""
    else (match items[0] case Lit(c) => [c] case Special(w) => Value(w, e)) + Expand(items[1..], e)
  }

  // ----- templates as the source keeps them ---------------------------------------------------

  /** An escape in the replacement text. */
  datatype Esc = Esc(offset: nat, size: nat, what: What)

  datatype Expr = Expr(re: string, icase: bool, newline: bool, replacement: string, all: bool,
                       escapes: seq<Esc>, maxPmatch: nat)

  /** The escapes of a list of items that starts at position at. */
  function EscsOf(items: seq<Item>, at: nat): seq<Esc> {
    if items == [] then []
    else match items[0]
      case Lit(_) => EscsOf(items[1..], at + 1)
      case Special(w) => [Esc(at, 2, w)] + EscsOf(items[1..], at + 2)
  }

  function MaxGroup(escs: seq<Esc>): nat {
    if escs == [] then 0
    else
      var m := MaxGroup(escs[..|escs| - 1]);
      match escs[|escs| - 1].what
      case Nmatch(n) => if m < n then n else m
      case _ => m
  }

  /** The escapes come in order, do not overlap, and lie inside the text. */
  predicate Ordered(escs: seq<Esc>, from: nat, len: nat) {
    if escs == [] then from <= len
    else from <= escs[0].offset && Ordered(escs[1..], escs[0].offset + escs[0].size, len)
  }

  lemma {:induction false} EscsOrdered(items: seq<Item>, from: nat, at: nat)
    requires from <= at
    ensures Ordered(EscsOf(items, at), from, at + Width(items))
    ensures forall x | x in EscsOf(items, at) :: x.size == 2
  {
    if items != [] {
      match items[0]
      case Lit(_) => EscsOrdered(items[1..], from, at + 1);
      case Special(_) => EscsOrdered(items[1..], at + 2, at + 2);
    }
  }

  lemma {:induction false} EscsSnoc(items: seq<Item>, x: Item, at: nat)
    ensures Width(items + [x]) == Width(items) + if x.Lit? then 1 else 2
    ensures EscsOf(items + [x], at) == EscsOf(items, at) + if x.Lit? then [] else [Esc(at + Width(items), 2, x.what)]
  {
    if items == [] {
      assert [x][1..] == [];
    } else {
      assert (items + [x])[1..] == items[1..] + [x];
      EscsSnoc(items[1..], x, at + if items[0].Lit? then 1 else 2);
    }
  }

  /** The text spells the items. */
  predicate Spells(items: seq<Item>, text: string) {
    if items == [] then text == ""
    else match items[0]
      case Lit(c) => text != "" && text[0] == c && Spells(items[1..], text[1..])
      case Special(w) =>
        |text| >= 2 && text[0] == '\\' && Unescape(text[1]) == w && Spells(items[1..], text[2..])
  }

  lemma {:induction false} ItemsSpell(s: string, sep: char)
    requires Items(s, sep).Some?
    ensures var t := Items(s, sep).value;
      t.len < |s| && s[t.len] == sep && Width(t.items) == t.len && Spells(t.items, s[..t.len])
    decreases |s|
  {
    var t := Items(s, sep).value;
    if s[0] == '\\' {
      ItemsSpell(s[2..], sep);
      assert s[..t.len][2..] == s[2..][..t.len - 2];
    } else if s[0] != sep {
      ItemsSpell(s[1..], sep);
      assert s[..t.len][1..] == s[1..][..t.len - 1];
    }
  }

  // ----- the two passes over a template -------------------------------------------------------

  /** What replace_build writes when it has copied the text up to p and escs are still to come. */
  function Fill(text: string, p: nat, escs: seq<Esc>, e: Env): string
    requires EnvOk(e) && Ordered(escs, p, |text|)
    decreases |escs|
  {
    if escs == [] then text[p..]
    else
      OrderedInside(escs[1..], escs[0].offset + escs[0].size, |text|);
      text[p..escs[0].offset] + Value(escs[0].what, e) + Fill(text, escs[0].offset + escs[0].size, escs[1..], e)
  }

  lemma {:induction false} OrderedInside(escs: seq<Esc>, from: nat, len: nat)
    requires Ordered(escs, from, len)
    ensures from <= len
  {
    if escs != [] {
      OrderedInside(escs[1..], escs[0].offset + escs[0].size, len);
    }
  }

  lemma NextLit(text: string, p: nat, at: nat, items: seq<Item>)
    requires p <= at <= |text| && items != [] && items[0].Lit? && Spells(items, text[at..])
    ensures at < |text| && Spells(items[1..], text[at + 1..]) && text[p..at + 1] == text[p..at] + [items[0].c]
  {
    assert text[at..][1..] == text[at + 1..];
  }

  lemma NextSpecial(text: string, at: nat, items: seq<Item>)
    requires at <= |text| && items != [] && items[0].Special? && Spells(items, text[at..])
    ensures at + 2 <= |text| && Spells(items[1..], text[at + 2..]) && text[at + 2..at + 2] == ""
  {
    assert text[at..][2..] == text[at + 2..];
  }

  /** The escapes and the text together are the items: filling gives the expansion. */
  lemma {:induction false} FillIsExpansion(text: string, p: nat, at: nat, items: seq<Item>, e: Env)
    requires EnvOk(e) && p <= at <= |text| && Spells(items, text[at..])
    requires Ordered(EscsOf(items, at), p, |text|)
    ensures Fill(text, p, EscsOf(items, at), e) == text[p..at] + Expand(items, e)
    decreases |items|
  {
    if items == [] {
      assert text[p..] == text[p..at] + "";
    } else {
      match items[0]
      case Lit(c) =>
        NextLit(text, p, at, items);
        assert EscsOf(items, at) == EscsOf(items[1..], at + 1);
        FillIsExpansion(text, p, at + 1, items[1..], e);
        Regroup(text[p..at], [c], Expand(items[1..], e));
      case Special(w) =>
        NextSpecial(text, at, items);
        var more := EscsOf(items[1..], at + 2);
        assert EscsOf(items, at)[0] == Esc(at, 2, w) && EscsOf(items, at)[1..] == more;
        FillIsExpansion(text, at + 2, at + 2, items[1..], e);
        assert Fill(text, at + 2, more, e) == "" + Expand(items[1..], e) == Expand(items[1..], e);
        Regroup(text[p..at], Value(w, e), Expand(items[1..], e));
    }
  }

  /** replace_len: the text without its escapes, with their values. */
  function FillLen(len: int, escs: seq<Esc>, e: Env): int
    requires EnvOk(e)
    decreases |escs|
  {
    if escs == [] then len else FillLen(len - escs[0].size + |Value(escs[0].what, e)|, escs[1..], e)
  }

  lemma {:induction false} FillLenShift(len: int, d: int, escs: seq<Esc>, e: Env)
    requires EnvOk(e)
    ensures FillLen(len + d, escs, e) == FillLen(len, escs, e) + d
    decreases |escs|
  {
    if escs != [] {
      FillLenShift(len - escs[0].size + |Value(escs[0].what, e)|, d, escs[1..], e);
    }
  }

  /** The computed length is the length of what is written. */
  lemma {:induction false} LengthsAgree(text: string, p: nat, escs: seq<Esc>, e: Env)
    requires EnvOk(e) && Ordered(escs, p, |text|) && p <= |text|
    ensures FillLen(|text| - p, escs, e) == |Fill(text, p, escs, e)|
    decreases |escs|
  {
    if escs != [] {
      var q := escs[0].offset + escs[0].size;
      OrderedInside(escs[1..], q, |text|);
      LengthsAgree(text, q, escs[1..], e);
      FillLenShift(|text| - q, escs[0].offset - p + |Value(escs[0].what, e)|, escs[1..], e);
    }
  }

  /** replace_len. */
  method ReplaceLen(x: Expr, e: Env) returns (len: int)
    requires EnvOk(e)
    ensures len == FillLen(|x.replacement|, x.escapes, e)
  {
    len := |x.replacement|;
    var r := 0;
    assert x.escapes[0..] == x.escapes;
    while r < |x.escapes|
      invariant r <= |x.escapes| && FillLen(len, x.escapes[r..], e) == FillLen(|x.replacement|, x.escapes, e)
    {
      assert x.escapes[r..][1..] == x.escapes[r + 1..];
      var esc := x.escapes[r];
      match esc.what {
        case Nmatch(n) =>
          len := len - esc.size;
          if n < |e.groups| && e.groups[n].Some? {
            len := len + (e.groups[n].value.eo - e.groups[n].value.so);
          }
        case Chr(_) =>
          len := len - (esc.size - 1);
        case Uri =>
          len := len - esc.size;
          if e.uri.Some? {
            len := len + |e.uri.value|;
          }
      }
      r := r + 1;
    }
  }

  /** A template whose escapes lie in order inside its text. */
  predicate ExprOk(x: Expr) {
    Ordered(x.escapes, 0, |x.replacement|)
  }

  /** replace_build: a buffer of the computed length, filled exactly with the expansion. */
  method ReplaceBuild(x: Expr, e: Env) returns (rpl: string)
    requires EnvOk(e) && ExprOk(x)
    ensures rpl == Fill(x.replacement, 0, x.escapes, e)
  {
    var len := ReplaceLen(x, e);
    LengthsAgree(x.replacement, 0, x.escapes, e);
    if len == 0 {
      return "";
    }
    var buf := new char[len];
    FillBuffer(x, e, buf);
    rpl := buf[..];
  }

  /** With done written, the text copied up to p and escs still to come, the result will be goal. */
  predicate Filling(done: string, text: string, p: nat, escs: seq<Esc>, e: Env, goal: string)
    requires EnvOk(e)
  {
    Ordered(escs, p, |text|) && done + Fill(text, p, escs, e) == goal
  }

  lemma FillOn(done: string, text: string, p: nat, escs: seq<Esc>, e: Env, goal: string)
    requires escs != [] && EnvOk(e) && Filling(done, text, p, escs, e, goal)
    ensures var esc := escs[0];
      && p <= esc.offset && esc.offset + esc.size <= |text|
      && |done| + |text[p..esc.offset]| + |Value(esc.what, e)| <= |goal|
      && Filling(done + (text[p..esc.offset] + Value(esc.what, e)), text, esc.offset + esc.size, escs[1..], e, goal)
  {
    var q := escs[0].offset + escs[0].size;
    OrderedInside(escs[1..], q, |text|);
    Regroup(done, text[p..escs[0].offset] + Value(escs[0].what, e), Fill(text, q, escs[1..], e));
  }

  /** The copy loop of replace_build. */
  method FillBuffer(x: Expr, e: Env, buf: array<char>)
    requires EnvOk(e) && ExprOk(x) && buf.Length == |Fill(x.replacement, 0, x.escapes, e)|
    modifies buf
    ensures buf[..] == Fill(x.replacement, 0, x.escapes, e)
  {
    var p: nat, dest: nat, r: nat := 0, 0, 0;
    ghost var goal := Fill(x.replacement, 0, x.escapes, e);
    ghost var escs := x.escapes;
    while r < |x.escapes|
      invariant r <= |x.escapes| && escs == x.escapes[r..] && dest <= buf.Length
      invariant Filling(buf[..dest], x.replacement, p, escs, e, goal)
    {
      assert escs[0] == x.escapes[r];
      dest, p := FillOne(x.replacement, p, x.escapes[r], e, buf, dest, escs, goal);
      escs := escs[1..];
      r := r + 1;
    }
    dest := Append(buf, dest, x.replacement[p..]);
  }

  /** The body of the copy loop: the text in front of an escape, and the value of the escape. */
  method FillOne(text: string, p: nat, esc: Esc, e: Env, buf: array<char>, dest: nat,
                 ghost escs: seq<Esc>, ghost goal: string)
    returns (dest': nat, p': nat)
    requires escs != [] && escs[0] == esc && EnvOk(e)
    requires dest <= buf.Length == |goal| && Filling(buf[..dest], text, p, escs, e, goal)
    modifies buf
    ensures dest' <= buf.Length && Filling(buf[..dest'], text, p', escs[1..], e, goal)
  {
    FillOn(buf[..dest], text, p, escs, e, goal);
    var size := esc.offset - p;
    var v := CopyValue(esc.what, e);
    dest' := Append2(buf, dest, text[p..p + size], v);
    p' := p + size + esc.size;
  }

  /** The characters that the switch of replace_build copies for an escape. */
  method CopyValue(w: What, e: Env) returns (v: string)
    requires EnvOk(e)
    ensures v == Value(w, e)
  {
    v := "";
    match w {
      case Nmatch(n) =>
        if n < |e.groups| && e.groups[n].Some? {
          v := e.text[e.groups[n].value.so..e.groups[n].value.eo];
        }
      case Chr(c) => v := [c];
      case Uri =>
        if e.uri.Some? {
          v := e.uri.value;
        }
    }
  }

  // ----- parsing a template -------------------------------------------------------------------

  function Specials(items: seq<Item>): nat {
    if items == [] then 0 else (if items[0].Lit? then 0 else 1) + Specials(items[1..])
  }

  lemma {:induction false} SpecialsCount(items: seq<Item>, at: nat)
    ensures |EscsOf(items, at)| == Specials(items)
  {
    if items != [] {
      SpecialsCount(items[1..], at + if items[0].Lit? then 1 else 2);
    }
  }

  /** done was read in front of s, and rest is what Items makes of s: what it makes of all. */
  function Joined(done: seq<Item>, rest: Option<Template>): Option<Template> {
    if rest.None? then None else Some(Template(done + rest.value.items, Width(done) + rest.value.len))
  }

  lemma ItemsOn(done: seq<Item>, s: string, sep: char)
    requires s != "" && sep != '\\'
    ensures s[0] == '\\' && |s| > 1 ==>
      Joined(done, Items(s, sep)) == Joined(done + [Special(Unescape(s[1]))], Items(s[2..], sep))
    ensures s[0] != '\\' && s[0] != sep ==>
      Joined(done, Items(s, sep)) == Joined(done + [Lit(s[0])], Items(s[1..], sep))
  {
    if s[0] == '\\' && |s| > 1 {
      EscsSnoc(done, Special(Unescape(s[1])), 0);
      if Items(s[2..], sep).Some? {
        Regroup(done, [Special(Unescape(s[1]))], Items(s[2..], sep).value.items);
      }
    } else if s[0] != '\\' && s[0] != sep {
      EscsSnoc(done, Lit(s[0]), 0);
      if Items(s[1..], sep).Some? {
        Regroup(done, [Lit(s[0])], Items(s[1..], sep).value.items);
      }
    }
  }

  /** The replacement part of subst_parser, on the text s behind the first separator: the escapes
      found, and where the closing separator is. */
  method ParseReplacement(s: string, sep: char) returns (end: Option<nat>, rw: seq<Esc>, maxPmatch: nat)
    requires sep != '\\'
    ensures end.Some? <==> Items(s, sep).Some? && Specials(Items(s, sep).value.items) < MAX_REPLACE_WITH
    ensures end.Some? ==> var t := Items(s, sep).value;
      end.value == t.len && rw == EscsOf(t.items, 0) && maxPmatch == MaxGroup(rw)
  {
    rw, maxPmatch := [], 0;
    var p := 0;
    var escape := false;
    ghost var done: seq<Item> := [];
    ghost var at := 0;
    ghost var whole := Items(s, sep);
    assert s[0..] == s && (whole.Some? ==> [] + whole.value.items == whole.value.items);
    while p < |s|
      invariant at == Width(done) && p == (if escape then at + 1 else at) && p <= |s|
      invariant escape ==> s[at] == '\\'
      invariant Joined(done, Items(s[at..], sep)) == whole
      invariant rw == EscsOf(done, 0) && maxPmatch == MaxGroup(rw) && |rw| < MAX_REPLACE_WITH
    {
      ItemsOn(done, s[at..], sep);
      if escape {
        escape := false;
        var w := Unescape(s[p]);
        assert s[at..][2..] == s[at + 2..] && s[at..][1] == s[p];
        rw, maxPmatch := NoteEscape(rw, maxPmatch, w, p - 1, done);
        done := done + [Special(w)];
        at := at + 2;
        if |rw| >= MAX_REPLACE_WITH {
          TooMany(done, Items(s[at..], sep), whole);
          return None, [], 0;
        }
      } else if s[p] == '\\' {
        escape := true;
      } else if s[p] == sep {
        assert done + [] == done;
        SpecialsCount(done, 0);
        return Some(p), rw, maxPmatch;
      } else {
        assert s[at..][1..] == s[at + 1..];
        EscsSnoc(done, Lit(s[p]), 0);
        done := done + [Lit(s[p])];
        at := at + 1;
      }
      p := p + 1;
    }
    end := None;
  }

  method NoteEscape(rw0: seq<Esc>, max0: nat, w: What, at: nat, ghost done: seq<Item>)
    returns (rw: seq<Esc>, maxPmatch: nat)
    requires rw0 == EscsOf(done, 0) && max0 == MaxGroup(rw0) && at == Width(done)
    ensures rw == EscsOf(done + [Special(w)], 0) && maxPmatch == MaxGroup(rw) && |rw| == |rw0| + 1
    ensures Width(done + [Special(w)]) == at + 2
  {
    EscsSnoc(done, Special(w), 0);
    rw := rw0 + [Esc(at, 2, w)];
    maxPmatch := max0;
    if w.Nmatch? && maxPmatch < w.n {
      maxPmatch := w.n;
    }
    assert rw[..|rw| - 1] == rw0;
  }

  lemma TooMany(done: seq<Item>, rest: Option<Template>, whole: Option<Template>)
    requires Joined(done, rest) == whole && |EscsOf(done, 0)| >= MAX_REPLACE_WITH
    ensures whole.Some? ==> Specials(whole.value.items) >= MAX_REPLACE_WITH
  {
    SpecialsCount(done, 0);
    if rest.Some? {
      SpecialsSum(done, rest.value.items);
    }
  }

  lemma {:induction false} SpecialsSum(a: seq<Item>, b: seq<Item>)
    ensures Specials(a + b) == Specials(a) + Specials(b)
  {
    if a == [] {
      assert a + b == b;
    } else {
      assert (a + b)[1..] == a[1..] + b;
      SpecialsSum(a[1..], b);
    }
  }

  // ----- the whole template -------------------------------------------------------------------

  /** The first separator at or behind position p that has no backslash in front of it. */
  function Separator(s: string, sep: char, p: nat): (r: Option<nat>)
    requires 1 <= p <= |s|
    ensures r.Some? ==> p <= r.value < |s|
    decreases |s| - p
  {
    if p == |s| then None
    else if s[p] == sep && s[p - 1] != '\\' then Some(p)
    else Separator(s, sep, p + 1)
  }

  /** The loop that looks for the end of the regular expression. */
  method FindSeparator(s: string, sep: char) returns (p: nat)
    requires |s| >= 1
    ensures 1 <= p <= |s| && Separator(s, sep, 1) == if p < |s| then Some(p) else None
  {
    p := 1;
    while p < |s| && !(s[p] == sep && s[p - 1] != '\\')
      invariant 1 <= p <= |s| && Separator(s, sep, p) == Separator(s, sep, 1)
    {
      p := p + 1;
    }
  }

  /** The flags behind the last separator: all of them known. */
  predicate FlagsOk(s: string) {
    forall i :: 0 <= i < |s| ==> s[i] == 'i' || s[i] == 's' || s[i] == 'g'
  }

  /** What a template text means: nothing if it is malformed. */
  datatype Meaning = Meaning(re: string, items: seq<Item>, icase: bool, newline: bool, all: bool)

  /** What the text behind the regular expression means. */
  function MeaningFrom(re: string, s: string, sep: char): Option<Meaning> {
    match Items(s, sep)
    case None => None
    case Some(t) =>
      ItemsSpell(s, sep);
      var flags := s[t.len + 1..];
      if Specials(t.items) >= MAX_REPLACE_WITH || !FlagsOk(flags) then None
      else Some(Meaning(re, t.items, 'i' in flags, 's' !in flags, 'g' in flags))
  }

  function MeaningOf(s: string): Option<Meaning> {
    if |s| < 3 || s[0] == '\\' then None
    else
      match Separator(s, s[0], 1)
      case None => None
      case Some(k) => MeaningFrom(s[1..k], s[k + 1..], s[0])
  }

  /** The template as it is kept has the meaning m. */
  ghost predicate Means(x: Expr, m: Meaning) {
    && x.re == m.re && x.icase == m.icase && x.newline == m.newline && x.all == m.all
    && Spells(m.items, x.replacement) && Width(m.items) == |x.replacement|
    && x.escapes == EscsOf(m.items, 0) && x.maxPmatch == MaxGroup(x.escapes)
  }

  /** subst_parser, when the regular expression compiles and memory does not run out. */
  method Parse(s: string) returns (x: Option<Expr>)
    ensures x.Some? <==> MeaningOf(s).Some?
    ensures x.Some? ==> Means(x.value, MeaningOf(s).value) && ExprOk(x.value)
  {
    if |s| < 3 {
      return None;
    }
    var c := s[0];
    if c == '\\' {
      return None;
    }
    var p := FindSeparator(s, c);
    if p == |s| {
      return None;
    }
    x := ParseFrom(s[1..p], s[p + 1..], c);
  }

  method ParseFrom(re: string, s: string, sep: char) returns (x: Option<Expr>)
    requires sep != '\\'
    ensures x.Some? <==> MeaningFrom(re, s, sep).Some?
    ensures x.Some? ==> Means(x.value, MeaningFrom(re, s, sep).value) && ExprOk(x.value)
  {
    var end, rw, maxPmatch := ParseReplacement(s, sep);
    if end.None? {
      return None;
    }
    ItemsSpell(s, sep);
    ghost var t := Items(s, sep).value;
    EscsOrdered(t.items, 0, 0);
    var ok, icase, newline, all := ParseFlags(s[end.value + 1..]);
    if !ok {
      return None;
    }
    x := Some(Expr(re, icase, newline, s[..end.value], all, rw, maxPmatch));
  }

  method ParseFlags(s: string) returns (ok: bool, icase: bool, newline: bool, all: bool)
    ensures ok <==> FlagsOk(s)
    ensures ok ==> icase == ('i' in s) && newline == ('s' !in s) && all == ('g' in s)
  {
    ok, icase, newline, all := true, false, true, false;
    var p := 0;
    while p < |s|
      invariant p <= |s| && ok && FlagsOk(s[..p])
      invariant icase == ('i' in s[..p]) && newline == ('s' !in s[..p]) && all == ('g' in s[..p])
    {
      assert s[..p + 1] == s[..p] + [s[p]];
      if s[p] == 'i' {
        icase := true;
      } else if s[p] == 's' {
        newline := false;
      } else if s[p] == 'g' {
        all := true;
      } else {
        return false, false, false, false;
      }
      p := p + 1;
    }
    assert s[..p] == s;
  }

  /** A parsed template is filled in to what its items expand to. */
  lemma FillMeans(x: Expr, m: Meaning, e: Env)
    requires Means(x, m) && ExprOk(x) && EnvOk(e)
    ensures Fill(x.replacement, 0, x.escapes, e) == Expand(m.items, e)
  {
    assert x.replacement[0..] == x.replacement;
    FillIsExpansion(x.replacement, 0, 0, m.items, e);
  }

  // ----- running a template -------------------------------------------------------------------

  /** regexec on a text, with or without REG_NOTBOL: the groups of a match, if there is one. */
  type Regex = (string, bool) -> Option<seq<Option<Span>>>

  /** A match has at least group 0, and its groups lie inside the text. */
  ghost predicate Sane(re: Regex) {
    forall s, b | re(s, b).Some? :: |re(s, b).value| > 0 && EnvOk(Env(s, re(s, b).value, None))
  }

  /** Delete size characters at offset and put rpl in their place. */
  datatype Edit = Edit(offset: nat, size: nat, rpl: string)

  /** What one match comes to: no match, a match without group 0, or a range and its replacement. */
  datatype Look = NoMatch | Bad | Hit(so: nat, eo: nat, rpl: string)

  function LookAt(re: Regex, x: Expr, uri: Option<string>, rest: string, notBol: bool): (r: Look)
    requires Sane(re) && ExprOk(x)
    ensures r.Hit? ==> r.so <= r.eo <= |rest|
  {
    match re(rest, notBol)
    case None => NoMatch
    case Some(m) =>
      assert EnvOk(Env(rest, m, None));
      if m[0].None? then Bad
      else Hit(m[0].value.so, m[0].value.eo, Fill(x.replacement, 0, x.escapes, Env(rest, m, uri)))
  }

  type Looker = (string, bool) -> Look

  /** What every text comes to under one template. */
  ghost function Matcher(re: Regex, x: Expr, uri: Option<string>): (look: Looker)
    requires Sane(re) && ExprOk(x)
    ensures Steady(look)
  {
    (s, b) => LookAt(re, x, uri, s, b)
  }

  /** Matches lie inside the text. */
  ghost predicate Steady(look: Looker) {
    forall s, b | look(s, b).Hit? :: look(s, b).so <= look(s, b).eo <= |s|
  }

  /** No match that the global loop meets behind the first one ends where it was looked for. */
  ghost predicate MovesOn(look: Looker, rest: string, notBol: bool)
    requires Steady(look)
    decreases |rest|, !notBol
  {
    match look(rest, notBol)
    case Hit(so, eo, rpl) => (notBol ==> eo > 0) && MovesOn(look, rest[eo..], true)
    case _ => true
  }

  /** The edits that a template makes in the rest of an input; None is an error. */
  ghost function Edits(look: Looker, all: bool, rest: string, base: nat, notBol: bool): Option<seq<Edit>>
    requires Steady(look) && (all ==> MovesOn(look, rest, notBol))
    decreases |rest|, !notBol
  {
    match look(rest, notBol)
    case NoMatch => Some([])
    case Bad => None
    case Hit(so, eo, rpl) =>
      var edit := Edit(base + so, eo - so, rpl);
      if !all then Some([edit])
      else
        match Edits(look, all, rest[eo..], base + eo, true)
        case None => None
        case Some(l) => Some([edit] + l)
  }

  /** The input with every match replaced, or the first one only. */
  ghost function Substituted(look: Looker, all: bool, rest: string, notBol: bool): string
    requires Steady(look) && (all ==> MovesOn(look, rest, notBol))
    decreases |rest|, !notBol
  {
    match look(rest, notBol)
    case NoMatch => rest
    case Bad => rest
    case Hit(so, eo, rpl) =>
      rest[..so] + rpl + if all then Substituted(look, all, rest[eo..], true) else rest[eo..]
  }

  /** The edits come in order and do not overlap. */
  predicate InOrder(l: seq<Edit>, from: nat, len: nat) {
    if l == [] then from <= len else from <= l[0].offset && InOrder(l[1..], l[0].offset + l[0].size, len)
  }

  /** The input from position from on, with the edits made. */
  function Splice(input: string, from: nat, l: seq<Edit>): string
    requires InOrder(l, from, |input|)
    decreases |l|
  {
    EditsInside(l, from, |input|);
    if l == [] then input[from..]
    else
      EditsInside(l[1..], l[0].offset + l[0].size, |input|);
      input[from..l[0].offset] + l[0].rpl + Splice(input, l[0].offset + l[0].size, l[1..])
  }

  lemma {:induction false} EditsInside(l: seq<Edit>, from: nat, len: nat)
    requires InOrder(l, from, len)
    ensures from <= len
  {
    if l != [] {
      EditsInside(l[1..], l[0].offset + l[0].size, len);
    }
  }

  /** Making the edits l from position from on gives out. */
  predicate Makes(input: string, from: nat, l: seq<Edit>, out: string) {
    InOrder(l, from, |input|) && Splice(input, from, l) == out
  }

  lemma MakesMore(input: string, from: nat, so: nat, eo: nat, rpl: string, l: seq<Edit>, out: string)
    requires so <= eo && from + eo <= |input| && Makes(input, from + eo, l, out)
    ensures Makes(input, from, [Edit(from + so, eo - so, rpl)] + l, input[from..][..so] + rpl + out)
  {
    assert ([Edit(from + so, eo - so, rpl)] + l)[1..] == l;
    assert input[from..][..so] == input[from..from + so];
  }

  /** Making the edits gives the substituted input. */
  lemma {:induction false} SpliceIsSubstitution(look: Looker, all: bool, input: string, from: nat, notBol: bool)
    requires Steady(look) && from <= |input| && (all ==> MovesOn(look, input[from..], notBol))
    requires Edits(look, all, input[from..], from, notBol).Some?
    ensures Makes(input, from, Edits(look, all, input[from..], from, notBol).value,
                  Substituted(look, all, input[from..], notBol))
    decreases |input| - from, !notBol
  {
    var rest := input[from..];
    match look(rest, notBol)
    case Hit(so, eo, rpl) =>
      var left := rest[eo..];
      assert left == input[from + eo..];
      if all {
        var l := Edits(look, all, left, from + eo, true);
        assert l.Some? && Edits(look, all, rest, from, notBol) == Some([Edit(from + so, eo - so, rpl)] + l.value);
        SpliceIsSubstitution(look, all, input, from + eo, true);
        MakesMore(input, from, so, eo, rpl, l.value, Substituted(look, all, left, true));
      } else {
        MakesMore(input, from, so, eo, rpl, [], left);
      }
    case _ =>
  }

  /** With the edits l made up to position p, the loop will come to goal. */
  ghost predicate Running(look: Looker, all: bool, input: string, l: seq<Edit>, p: nat, notBol: bool,
                          goal: Option<seq<Edit>>)
    requires Steady(look)
  {
    p <= |input| && (all ==> MovesOn(look, input[p..], notBol)) && After(l, Edits(look, all, input[p..], p, notBol)) == goal
  }

  lemma RunsOn(look: Looker, all: bool, input: string, l: seq<Edit>, p: nat, notBol: bool, goal: Option<seq<Edit>>,
               r: Look)
    requires Steady(look) && Running(look, all, input, l, p, notBol, goal) && r == look(input[p..], notBol)
    ensures match r
      case NoMatch => Some(l) == goal
      case Bad => goal == None
      case Hit(so, eo, rpl) =>
        var l' := l + [Edit(so + p, eo - so, rpl)];
        && p + eo <= |input| && so <= eo && (all && notBol ==> eo > 0)
        && if all then Running(look, all, input, l', p + eo, true, goal) else Some(l') == goal
  {
    AfterEnds(l, goal);
    if r.Hit? {
      assert input[p..][r.eo..] == input[p + r.eo..];
      AfterOne(l, Edit(r.so + p, r.eo - r.so, r.rpl), Edits(look, all, input[p..], p, notBol));
    }
  }

  /** subst_run: the edits, and how many; count is -1 after an error. */
  method Run(re: Regex, x: Expr, uri: Option<string>, input: string) returns (l: seq<Edit>, count: int)
    requires Sane(re) && ExprOk(x) && (x.all ==> MovesOn(Matcher(re, x, uri), input, false))
    ensures match Edits(Matcher(re, x, uri), x.all, input, 0, false)
      case None => l == [] && count == -1
      case Some(r) => l == r && count == |r|
  {
    l := [];
    var p := 0;
    var notBol := false;
    var more := true;
    ghost var look := Matcher(re, x, uri);
    ghost var goal := Edits(look, x.all, input, 0, false);
    assert input[0..] == input;
    AfterEnds(l, goal);
    count := 0;
    while more
      invariant count == |l| && if more then Running(look, x.all, input, l, p, notBol, goal) else Some(l) == goal
      decreases more, |input| - p, !notBol
    {
      var r := MatchAndBuild(re, x, uri, input[p..], notBol);
      RunsOn(look, x.all, input, l, p, notBol, goal, r);
      if r.Bad? {
        return [], -1;
      }
      if r.Hit? {
        l := l + [Edit(r.so + p, r.eo - r.so, r.rpl)];
        notBol := true;
        p := p + r.eo;
        count := count + 1;
      }
      more := r.Hit? && x.all;
    }
  }

  /** One round of subst_run: the match in rest and what replaces it. */
  method MatchAndBuild(re: Regex, x: Expr, uri: Option<string>, rest: string, notBol: bool) returns (r: Look)
    requires Sane(re) && ExprOk(x)
    ensures r == LookAt(re, x, uri, rest, notBol)
  {
    var m := re(rest, notBol);
    if m.None? {
      return NoMatch;
    }
    assert EnvOk(Env(rest, m.value, None));
    if m.value[0].None? {
      return Bad;
    }
    var rpl := ReplaceBuild(x, Env(rest, m.value, uri));
    r := Hit(m.value[0].value.so, m.value[0].value.eo, rpl);
  }

  /** The edits made so far, then the rest. */
  function After(l: seq<Edit>, rest: Option<seq<Edit>>): Option<seq<Edit>> {
    if rest.None? then None else Some(l + rest.value)
  }

  lemma AfterEnds(l: seq<Edit>, rest: Option<seq<Edit>>)
    ensures After([], rest) == rest && After(l, Some([])) == Some(l)
  {
    assert l + [] == l && (rest.Some? ==> [] + rest.value == rest.value);
  }

  lemma AfterOne(l: seq<Edit>, x: Edit, rest: Option<seq<Edit>>)
    ensures rest.Some? && rest.value == [x] ==> After(l, rest) == Some(l + [x])
    ensures rest.Some? && rest.value != [] && rest.value[0] == x ==>
      After(l, rest) == After(l + [x], Some(rest.value[1..]))
  {
    if rest.Some? && rest.value != [] && rest.value[0] == x {
      assert rest.value == [x] + rest.value[1..];
      Regroup(l, [x], rest.value[1..]);
    }
  }

  /** The length of the result: what the input loses and gains by the edits. */
  function SpliceLen(len: int, l: seq<Edit>): int
    decreases |l|
  {
    if l == [] then len else SpliceLen(len + |l[0].rpl| - l[0].size, l[1..])
  }

  lemma {:induction false} SpliceLenShift(len: int, d: int, l: seq<Edit>)
    ensures SpliceLen(len + d, l) == SpliceLen(len, l) + d
    decreases |l|
  {
    if l != [] {
      SpliceLenShift(len + |l[0].rpl| - l[0].size, d, l[1..]);
    }
  }

  lemma {:induction false} SpliceLenAgrees(input: string, from: nat, l: seq<Edit>)
    requires InOrder(l, from, |input|)
    ensures from <= |input| && SpliceLen(|input| - from, l) == |Splice(input, from, l)|
    decreases |l|
  {
    EditsInside(l, from, |input|);
    if l != [] {
      var q := l[0].offset + l[0].size;
      EditsInside(l[1..], q, |input|);
      SpliceLenAgrees(input, q, l[1..]);
      SpliceLenShift(|input| - q, l[0].offset - from + |l[0].rpl|, l[1..]);
    }
  }

  /** With done written and the input copied up to p, the edits l will make it goal. */
  predicate Splicing(done: string, input: string, p: nat, l: seq<Edit>, goal: string) {
    InOrder(l, p, |input|) && done + Splice(input, p, l) == goal
  }

  lemma SpliceOn(done: string, input: string, p: nat, l: seq<Edit>, goal: string)
    requires l != [] && Splicing(done, input, p, l, goal)
    ensures var x := l[0];
      && p <= x.offset && x.offset + x.size <= |input|
      && |done| + |input[p..x.offset]| + |x.rpl| <= |goal|
      && Splicing(done + (input[p..x.offset] + x.rpl), input, x.offset + x.size, l[1..], goal)
  {
    var q := l[0].offset + l[0].size;
    EditsInside(l[1..], q, |input|);
    Regroup(done, input[p..l[0].offset] + l[0].rpl, Splice(input, q, l[1..]));
  }

  /** The second half of subst_str: a buffer of the computed length, filled with the result. */
  method Apply(input: string, l: seq<Edit>) returns (res: string)
    requires InOrder(l, 0, |input|)
    ensures res == Splice(input, 0, l)
  {
    var len := ResultLength(input, l);
    SpliceLenAgrees(input, 0, l);
    var buf := new char[len];
    var p: nat, dest: nat := 0, 0;
    var i := 0;
    ghost var goal := Splice(input, 0, l);
    assert buf[..0] == "" && "" + goal == goal && l[0..] == l;
    while i < |l|
      invariant i <= |l| && dest <= len && Splicing(buf[..dest], input, p, l[i..], goal)
    {
      assert l[i..][1..] == l[i + 1..];
      dest, p := ApplyOne(input, l[i], buf, p, dest, l[i..], goal);
      i := i + 1;
    }
    EditsInside(l[i..], p, |input|);
    dest := Append(buf, dest, input[p..]);
    res := buf[..];
  }

  /** The first loop: the length of the result. */
  method ResultLength(input: string, l: seq<Edit>) returns (len: int)
    ensures len == SpliceLen(|input|, l)
  {
    len := |input|;
    var i := 0;
    assert l[0..] == l;
    while i < |l|
      invariant i <= |l| && SpliceLen(len, l[i..]) == SpliceLen(|input|, l)
    {
      assert l[i..][1..] == l[i + 1..];
      len := len + |l[i].rpl| - l[i].size;
      i := i + 1;
    }
  }

  /** One round of the second loop: the copy up to the match, and the replacement. */
  method ApplyOne(input: string, x: Edit, buf: array<char>, p: nat, dest: nat, ghost rest: seq<Edit>, ghost goal: string)
    returns (dest': nat, p': nat)
    requires rest != [] && x == rest[0] && dest <= buf.Length == |goal| && Splicing(buf[..dest], input, p, rest, goal)
    modifies buf
    ensures dest' <= buf.Length && Splicing(buf[..dest'], input, p', rest[1..], goal)
  {
    SpliceOn(buf[..dest], input, p, rest, goal);
    var size := x.offset - p;
    dest' := Append2(buf, dest, input[p..p + size], x.rpl);
    p' := p + size + x.size;
  }

  /** subst_str: the substituted input, or nothing when there is no match or an error. */
  method SubstStr(re: Regex, x: Expr, uri: Option<string>, input: string) returns (res: Option<string>, count: int)
    requires Sane(re) && ExprOk(x) && (x.all ==> MovesOn(Matcher(re, x, uri), input, false))
    ensures match Edits(Matcher(re, x, uri), x.all, input, 0, false)
      case None => res == None && count == -1
      case Some(l) =>
        && count == |l|
        && res == if l == [] then None else Some(Substituted(Matcher(re, x, uri), x.all, input, false))
  {
    var l;
    l, count := Run(re, x, uri, input);
    if l == [] {
      return None, count;
    }
    assert input[0..] == input;
    SpliceIsSubstitution(Matcher(re, x, uri), x.all, input, 0, false);
    var s := Apply(input, l);
    res := Some(s);
  }

  // ----- when the global loop ends ------------------------------------------------------------

  /** Where the global loop is after n rounds: the position and the flag, if it still runs. */
  ghost function Round(look: Looker, input: string, p: nat, notBol: bool, n: nat): Option<(nat, bool)>
    requires Steady(look) && p <= |input|
    decreases n
  {
    if n == 0 then Some((p, notBol))
    else
      match look(input[p..], notBol)
      case Hit(so, eo, rpl) => Round(look, input, p + eo, true, n - 1)
      case _ => None
  }

  /** While the loop moves on it ends within |input| + 2 rounds. */
  lemma {:induction false} MovingEnds(look: Looker, input: string, p: nat, notBol: bool, n: nat)
    requires Steady(look) && p <= |input| && MovesOn(look, input[p..], notBol)
    requires n >= |input| - p + if notBol then 1 else 2
    ensures Round(look, input, p, notBol, n) == None
    decreases |input| - p, !notBol
  {
    match look(input[p..], notBol)
    case Hit(so, eo, rpl) =>
      assert input[p..][eo..] == input[p + eo..];
      MovingEnds(look, input, p + eo, true, n - 1);
    case _ =>
  }

  /** A match that ends where it was looked for, behind the first one, is found again and again. */
  lemma {:induction false} EmptyMatchRepeats(look: Looker, input: string, p: nat, n: nat)
    requires Steady(look) && p <= |input| && look(input[p..], true).Hit? && look(input[p..], true).eo == 0
    ensures Round(look, input, p, true, n) == Some((p, true))
    decreases n
  {
    if n > 0 {
      EmptyMatchRepeats(look, input, p, n - 1);
    }
  }

  lemma {:induction false} StuckNeverEnds(look: Looker, input: string, p: nat, notBol: bool, n: nat)
    requires Steady(look) && p <= |input| && !MovesOn(look, input[p..], notBol)
    ensures Round(look, input, p, notBol, n).Some?
    decreases |input| - p, !notBol, n
  {
    if n > 0 {
      match look(input[p..], notBol)
      case Hit(so, eo, rpl) =>
        assert input[p..][eo..] == input[p + eo..];
        if notBol && eo == 0 {
          EmptyMatchRepeats(look, input, p, n);
        } else {
          StuckNeverEnds(look, input, p + eo, true, n - 1);
        }
      case _ =>
    }
  }

  /** An expression that matches no empty text moves on through every input. */
  lemma NoEmptyMatchEnds(re: Regex, x: Expr, uri: Option<string>, input: string)
    requires Sane(re) && ExprOk(x)
    requires forall s, b | re(s, b).Some? && re(s, b).value[0].Some? :: re(s, b).value[0].value.so < re(s, b).value[0].value.eo
    ensures MovesOn(Matcher(re, x, uri), input, false)
  {
    NonEmptyMovesOn(Matcher(re, x, uri), input, false);
  }

  lemma {:induction false} NonEmptyMovesOn(look: Looker, rest: string, notBol: bool)
    requires Steady(look) && forall s, b | look(s, b).Hit? :: look(s, b).so < look(s, b).eo
    ensures MovesOn(look, rest, notBol)
    decreases |rest|
  {
    if look(rest, notBol).Hit? {
      NonEmptyMovesOn(look, rest[look(rest, notBol).eo..], true);
    }
  }

  /** The global loop ends if and only if no match that it meets behind the first one ends where
      it was looked for. */
  lemma LoopEndsIffMovesOn(look: Looker, input: string)
    requires Steady(look)
    ensures (exists n :: Round(look, input, 0, false, n) == None) <==> MovesOn(look, input, false)
  {
    assert input[0..] == input;
    if MovesOn(look, input, false) {
      MovingEnds(look, input, 0, false, |input| + 2);
    } else {
      forall n: nat ensures Round(look, input, 0, false, n).Some? {
        StuckNeverEnds(look, input, 0, false, n);
      }
    }
  }
}
