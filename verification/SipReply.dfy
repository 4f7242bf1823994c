/** A reply built locally from a request: the length is computed in a first pass, the text is
    written in a second one. */
module SipReply {
  import opened Wrappers
  import opened Sequences
  import opened Buffers
  import opened Decimal
  import opened SipText

  const TOTAG_TOKEN := ";tag="

  // ----- reply lumps --------------------------------------------------------------------------

  datatype Flags = Flags(hdr: bool, body: bool, nodup: bool, nofree: bool, shmem: bool)

  class RplLump {
    const text: string
    const flags: Flags

    constructor (text: string, flags: Flags)
      ensures this.text == text && this.flags == flags
    {
      this.text, this.flags := text, flags;
    }
  }

  /** Every lump is a header or a body, never empty, and at most one is a body. */
  predicate WellFormed(l: seq<RplLump>) {
    && (forall i | 0 <= i < |l| :: l[i].flags.hdr != l[i].flags.body && l[i].text != "")
    && (forall i, j | 0 <= i < j < |l| :: !(l[i].flags.body && l[j].flags.body))
  }

  function Keep(l: seq<RplLump>): seq<RplLump> {
    if l == [] then [] else (if l[0].flags.shmem then [l[0]] else []) + Keep(l[1..])
  }

  function WithoutLump(l: seq<RplLump>, x: RplLump): seq<RplLump> {
    if l == [] then [] else if l[0] == x then l[1..] else [l[0]] + WithoutLump(l[1..], x)
  }

  lemma {:induction false} NotThere(l: seq<RplLump>, x: RplLump)
    requires x !in l
    ensures WithoutLump(l, x) == l
  {
    if l != [] {
      NotThere(l[1..], x);
    }
  }

  /** A list made from some of the lumps, in order, is as well formed as the whole. */
  lemma {:induction false} KeepWellFormed(l: seq<RplLump>)
    requires WellFormed(l)
    ensures WellFormed(Keep(l)) && forall x | x in Keep(l) :: x in l && x.flags.shmem
  {
    if l != [] {
      assert WellFormed(l[1..]);
      KeepWellFormed(l[1..]);
      var k := Keep(l[1..]);
      if l[0].flags.shmem {
        assert forall x | x in k :: !(l[0].flags.body && x.flags.body);
        assert ([l[0]] + k)[1..] == k;
      } else {
        assert [] + k == k;
      }
    }
  }

  class ReplyLumps {
    var lumps: seq<RplLump>

    constructor ()
      ensures lumps == []
    {
      lumps := [];
    }

    /** add_lump_rpl2; room: the allocation succeeds. */
    method Add(s: string, flags: Flags, room: bool) returns (lump: RplLump?)
      requires WellFormed(lumps)
      modifies this
      ensures WellFormed(lumps)
      ensures lump != null <==>
        flags.hdr != flags.body && !flags.shmem && s != "" && room
        && !(flags.body && exists x :: x in old(lumps) && x.flags.body)
      ensures lump == null ==> lumps == old(lumps)
      ensures lump != null ==> fresh(lump) && lump.text == s && lump.flags == flags && lumps == old(lumps) + [lump]
    {
      if (flags.hdr && flags.body) || (!flags.hdr && !flags.body) || flags.shmem {
        return null;
      }
      if s == "" || !room {
        return null;
      }
      lump := new RplLump(s, flags);
      if lumps != [] && flags.body {
        var foo := 0;
        while foo < |lumps|
          invariant foo <= |lumps| && forall i | 0 <= i < foo :: !lumps[i].flags.body
        {
          if lumps[foo].flags.body {
            assert lumps[foo] in lumps;
            return null;
          }
          foo := foo + 1;
        }
      }
      lumps := lumps + [lump];
    }

    /** unlink_lump_rpl. */
    method Unlink(lump: RplLump)
      requires WellFormed(lumps)
      modifies this
      ensures WellFormed(lumps) && lumps == WithoutLump(old(lumps), lump)
    {
      var foo := 0;
      while foo < |lumps| && lumps[foo] != lump
        invariant foo <= |lumps| && lump !in lumps[..foo]
      {
        foo := foo + 1;
      }
      if foo < |lumps| {
        FirstPlace(lumps, lump, foo);
        lumps := lumps[..foo] + lumps[foo + 1..];
      } else {
        NotThere(lumps, lump);
      }
    }

    /** del_nonshm_lump_rpl: only the lumps in shared memory stay. */
    method DelNonShm()
      requires WellFormed(lumps)
      modifies this
      ensures WellFormed(lumps) && lumps == Keep(old(lumps))
    {
      KeepWellFormed(lumps);
      ghost var goal := Keep(lumps);
      var it := 0;
      assert lumps[0..] == lumps && lumps[..0] + goal == goal;
      while it < |lumps|
        invariant it <= |lumps| && lumps[..it] + Keep(lumps[it..]) == goal
        decreases |lumps| - it
      {
        KeepStep(lumps, it);
        if !lumps[it].flags.shmem {
          lumps := lumps[..it] + lumps[it + 1..];
        } else {
          it := it + 1;
        }
      }
      assert lumps[..it] == lumps && lumps + [] == lumps;
    }
  }

  lemma FirstPlace(l: seq<RplLump>, x: RplLump, i: nat)
    requires i < |l| && l[i] == x && x !in l[..i]
    ensures WithoutLump(l, x) == l[..i] + l[i + 1..]
    decreases i
  {
    if i > 0 {
      assert l[0] in l[..i] && l[..i] == [l[0]] + l[1..][..i - 1];
      FirstPlace(l[1..], x, i - 1);
    }
  }

  lemma KeepStep(l: seq<RplLump>, i: nat)
    requires i < |l|
    ensures if l[i].flags.shmem then l[..i + 1] + Keep(l[i + 1..]) == l[..i] + Keep(l[i..])
      else var m := l[..i] + l[i + 1..]; m[..i] + Keep(m[i..]) == l[..i] + Keep(l[i..])
  {
    assert l[i..][1..] == l[i + 1..];
    if !l[i].flags.shmem {
      assert (l[..i] + l[i + 1..])[i..] == l[i + 1..];
    }
  }

  // ----- the request, as far as the reply takes from it ---------------------------------------

  datatype Kind = To | Via1 | Via | RecordRoute | From | CallId | CSeq | Other

  /** A run of characters inside a header.  The parser leaves the last character of a quoted tag
      out, so that the length of an empty one is -1. */
  datatype Span = Span(start: nat, len: int)

  predicate Inside(s: Span, end: nat) {
    s.start <= end && 0 <= s.start + s.len <= end
  }

  /** A header from its name to its line end; bodyEnd is where its body ends, tag is where the tag
      of a To header is, if a tag pointer is set. */
  datatype Hdr = Hdr(kind: Kind, text: string, bodyEnd: nat, tag: Option<Span>)

  /** What goes into the reply.  newTag is empty when no tag is to be set; oldRport is the rport
      parameter of the first Via; rport and received are what the builders made, if anything. */
  datatype Reply = Reply(
    version: string, code: nat, reason: string, newTag: string, hdrs: seq<Hdr>,
    oldRport: Option<Span>, rport: Option<string>, received: Option<string>,
    lumps: seq<RplLump>, server: Option<string>, warning: Option<string>)

  predicate HdrOk(h: Hdr, oldRport: Option<Span>) {
    && h.bodyEnd <= |h.text|
    && (h.tag.Some? ==> Inside(h.tag.value, |h.text|))
    && (h.kind == Via1 && oldRport.Some? ==>
          1 <= oldRport.value.start && oldRport.value.len >= 0 && Inside(oldRport.value, h.bodyEnd))
  }

  /** The tag of the parsed To header, which is the first one. */
  function ToTag(hdrs: seq<Hdr>): Option<Span> {
    if hdrs == [] then None else if hdrs[0].kind == To then hdrs[0].tag else ToTag(hdrs[1..])
  }

  /** A tag of the request is to be replaced. */
  predicate Replaces(r: Reply) {
    r.newTag != "" && ToTag(r.hdrs).Some?
  }

  /** What the parser and the builders guarantee: one first Via, and an rport is built whenever
      the Via has one.  The tag of the first To header is replaced in every one, by pointers into
      the first: where it is to be, a second one would be copied up to a place in front of it. */
  ghost predicate ReplyOk(r: Reply) {
    && (forall h | h in r.hdrs :: HdrOk(h, r.oldRport))
    && (r.oldRport.Some? ==> r.rport.Some?)
    && Count(r.hdrs, Via1) == 1 && (Replaces(r) ==> Count(r.hdrs, To) == 1)
    && WellFormed(r.lumps)
  }

  /** The header can be written: a tag to be replaced is its own. */
  predicate Fits(r: Reply, h: Hdr) {
    HdrOk(h, r.oldRport) && (h.kind == To && Replaces(r) ==> Inside(ToTag(r.hdrs).value, |h.text|))
  }

  lemma {:induction false} NoTo(hdrs: seq<Hdr>, h: Hdr)
    requires Count(hdrs, To) == 0 && h in hdrs
    ensures h.kind != To
  {
    if h != hdrs[0] {
      NoTo(hdrs[1..], h);
    }
  }

  /** The only To header has the tag. */
  lemma {:induction false} OnlyTo(hdrs: seq<Hdr>, h: Hdr)
    requires Count(hdrs, To) == 1 && h in hdrs && h.kind == To
    ensures ToTag(hdrs) == h.tag
  {
    if hdrs[0].kind == To {
      if h != hdrs[0] {
        NoTo(hdrs[1..], h);
      }
    } else {
      OnlyTo(hdrs[1..], h);
    }
  }

  lemma AllFit(r: Reply)
    requires ReplyOk(r)
    ensures forall h | h in r.hdrs :: Fits(r, h)
  {
    forall h | h in r.hdrs
      ensures Fits(r, h)
    {
      if h.kind == To && Replaces(r) {
        OnlyTo(r.hdrs, h);
      }
    }
  }

  function Count(hdrs: seq<Hdr>, k: Kind): nat {
    if hdrs == [] then 0 else (if hdrs[0].kind == k then 1 else 0) + Count(hdrs[1..], k)
  }

  function Str(o: Option<string>): string {
    if o.Some? then o.value else ""
  }

  /** The Record-Route headers of a request go into some replies only. */
  predicate WantsRoute(code: nat) {
    180 <= code < 300
  }

  // ----- the text that is written -------------------------------------------------------------

  function Digit(n: nat): char {
    ('0' as nat + n % 10) as char
  }

  function Code(code: nat): string {
    [Digit(code / 100), Digit(code / 10), Digit(code)]
  }

  function FirstLine(r: Reply): string {
    r.version + " " + Code(r.code) + " " + r.reason + CRLF
  }

  /** The first value of a Via header; in the topmost one rport is filled in. */
  function ViaBody(r: Reply, h: Hdr): string
    requires HdrOk(h, r.oldRport)
  {
    if h.kind == Via1 && r.rport.Some? && r.oldRport.Some? then
      h.text[..r.oldRport.value.start - 1] + r.rport.value
      + h.text[r.oldRport.value.start + r.oldRport.value.len..h.bodyEnd]
    else if h.kind == Via1 then h.text[..h.bodyEnd] + Str(r.rport)
    else h.text[..h.bodyEnd]
  }

  function ViaText(r: Reply, h: Hdr): string
    requires HdrOk(h, r.oldRport)
  {
    ViaBody(r, h) + if h.kind == Via1 then Str(r.received) + CRLF else CRLF
  }

  function ToText(r: Reply, h: Hdr): string
    requires Fits(r, h) && h.kind == To
  {
    if r.newTag == "" then h.text
    else
      match ToTag(r.hdrs)
      case Some(tag) => h.text[..tag.start] + r.newTag + h.text[tag.start + tag.len..]
      case None => h.text[..h.bodyEnd] + TOTAG_TOKEN + r.newTag + h.text[h.bodyEnd..]
  }

  function HdrText(r: Reply, h: Hdr): string
    requires Fits(r, h)
  {
    match h.kind
    case To => ToText(r, h)
    case Via1 => ViaText(r, h)
    case Via => ViaText(r, h)
    case RecordRoute => if WantsRoute(r.code) then h.text else ""
    case Other => ""
    case _ => h.text
  }

  function HdrsText(r: Reply, hdrs: seq<Hdr>): string
    requires forall h | h in hdrs :: Fits(r, h)
  {
    if hdrs == [] then "" else HdrText(r, hdrs[0]) + HdrsText(r, hdrs[1..])
  }

  function HdrLumps(l: seq<RplLump>): string {
    if l == [] then "" else (if l[0].flags.hdr then l[0].text else "") + HdrLumps(l[1..])
  }

  /** The body: the last lump that is one. */
  function BodyOf(l: seq<RplLump>): Option<string> {
    if l == [] then None
    else if BodyOf(l[1..]).Some? then BodyOf(l[1..])
    else if l[0].flags.body then Some(l[0].text)
    else None
  }

  function Line(o: Option<string>): string {
    if o.Some? then o.value + CRLF else ""
  }

  /** The length line names the number of characters behind the empty line. */
  function LengthLine(l: seq<RplLump>): string {
    CONTENT_LENGTH + DigitsOf(|Str(BodyOf(l))|) + CRLF
  }

  /** The length line, the warning, the empty line and the body. */
  function EndText(r: Reply): string {
    LengthLine(r.lumps) + Line(r.warning) + (CRLF + Str(BodyOf(r.lumps)))
  }

  /** Everything behind the headers taken from the request. */
  function TailText(r: Reply): string {
    HdrLumps(r.lumps) + Line(r.server) + EndText(r)
  }

  function ReplyText(r: Reply): string
    requires ReplyOk(r)
  {
    AllFit(r);
    FirstLine(r) + HdrsText(r, r.hdrs) + TailText(r)
  }

  // ----- the length that is computed ----------------------------------------------------------

  /** The length of the tag of the parsed To header, 0 without one. */
  function TagLen(r: Reply): int {
    if ToTag(r.hdrs).Some? then ToTag(r.hdrs).value.len else 0
  }

  /** What the first pass adds for one header. */
  function HdrLen(r: Reply, h: Hdr): int {
    match h.kind
    case To =>
      |h.text| + (if r.newTag == "" then 0
                  else if TagLen(r) != 0 then |r.newTag| - TagLen(r)
                  else |r.newTag| + |TOTAG_TOKEN|)
    case Via1 => h.bodyEnd + |CRLF| + |Str(r.received)| + |Str(r.rport)|
    case Via => h.bodyEnd + |CRLF|
    case RecordRoute => if WantsRoute(r.code) then |h.text| else 0
    case Other => 0
    case _ => |h.text|
  }

  function HdrsLen(r: Reply, hdrs: seq<Hdr>): int {
    if hdrs == [] then 0 else HdrLen(r, hdrs[0]) + HdrsLen(r, hdrs[1..])
  }

  function LumpsLen(l: seq<RplLump>): nat {
    if l == [] then 0 else |l[0].text| + LumpsLen(l[1..])
  }

  function OptLen(o: Option<string>): nat {
    if o.Some? then |o.value| + |CRLF| else 0
  }

  /** What the first pass takes off for the old rport and its semicolon. */
  function RportCut(r: Reply): int {
    if r.rport.Some? && r.oldRport.Some? then r.oldRport.value.len + 1 else 0
  }

  function ReplyLen(r: Reply): int {
    |r.version| + 1 + 3 + 1 + |r.reason| + |CRLF| - RportCut(r)
    + HdrsLen(r, r.hdrs) + LumpsLen(r.lumps) + OptLen(r.server) + OptLen(r.warning)
    + |CONTENT_LENGTH| + (if BodyOf(r.lumps).Some? then |DigitsOf(|BodyOf(r.lumps).value|)| else 1) + |CRLF|
    + |CRLF|
  }

  /** The tag pointer is set to an empty tag while a new tag is wanted: every To header is
      measured as if the tag were missing and written as if it were there. */
  predicate EmptyTag(r: Reply) {
    Replaces(r) && TagLen(r) == 0
  }

  lemma HdrAgrees(r: Reply, h: Hdr)
    requires Fits(r, h)
    ensures |HdrText(r, h)| ==
      HdrLen(r, h) - (if h.kind == Via1 then RportCut(r) else 0) - (if h.kind == To && EmptyTag(r) then 5 else 0)
  {
  }

  function Cuts(r: Reply, hdrs: seq<Hdr>): int {
    if hdrs == [] then 0 else (if hdrs[0].kind == Via1 then RportCut(r) else 0) + Cuts(r, hdrs[1..])
  }

  lemma {:induction false} OneCut(r: Reply, hdrs: seq<Hdr>)
    requires Count(hdrs, Via1) <= 1
    ensures Cuts(r, hdrs) == if Count(hdrs, Via1) == 1 then RportCut(r) else 0
  {
    if hdrs != [] {
      OneCut(r, hdrs[1..]);
    }
  }

  lemma {:induction false} HdrsAgree(r: Reply, hdrs: seq<Hdr>)
    requires forall h | h in hdrs :: Fits(r, h)
    ensures |HdrsText(r, hdrs)|
            == HdrsLen(r, hdrs) - Cuts(r, hdrs) - if EmptyTag(r) then 5 * Count(hdrs, To) else 0
  {
    if hdrs != [] {
      HdrAgrees(r, hdrs[0]);
      HdrsAgree(r, hdrs[1..]);
    }
  }

  lemma FirstLineLength(r: Reply)
    ensures |FirstLine(r)| == |r.version| + 1 + 3 + 1 + |r.reason| + |CRLF|
  {
  }

  lemma LengthLineLength(l: seq<RplLump>)
    ensures |LengthLine(l)| == |CONTENT_LENGTH|
      + (if BodyOf(l).Some? then |DigitsOf(|BodyOf(l).value|)| else 1) + |CRLF|
  {
  }

  lemma {:induction false} LumpsAgree(l: seq<RplLump>)
    requires WellFormed(l)
    ensures LumpsLen(l) == |HdrLumps(l)| + |Str(BodyOf(l))|
    ensures (forall x | x in l :: !x.flags.body) ==> BodyOf(l) == None
  {
    if l != [] {
      assert WellFormed(l[1..]);
      LumpsAgree(l[1..]);
      if l[0].flags.body {
        assert forall x | x in l[1..] :: !x.flags.body;
      }
    }
  }

  /** The length computed is the length written, but for five characters when a new tag is to
      replace an empty one. */
  lemma LengthsAgree(r: Reply)
    requires ReplyOk(r)
    ensures ReplyLen(r) == |ReplyText(r)| + if EmptyTag(r) then 5 else 0
  {
    AllFit(r);
    HdrsAgree(r, r.hdrs);
    OneCut(r, r.hdrs);
    LumpsAgree(r.lumps);
    FirstLineLength(r);
    LengthLineLength(r.lumps);
  }

  /** The buffer is filled exactly if and only if no empty tag is to be replaced. */
  lemma FilledExactlyIff(r: Reply)
    requires ReplyOk(r)
    ensures ReplyLen(r) == |ReplyText(r)|
            <==> r.newTag == "" || ToTag(r.hdrs).None? || ToTag(r.hdrs).value.len != 0
  {
    LengthsAgree(r);
  }

  const VIA := Hdr(Via1, "Via: SIP/2.0/UDP a\r\n", 18, None)

  function BadReply(to: Hdr): Reply {
    Reply("SIP/2.0", 200, "OK", "x", [VIA, to], None, None, None, [], None, None)
  }

  lemma BadReplyOk(to: Hdr)
    requires to.kind == To && HdrOk(to, None) && to.tag.Some? && to.tag.value.len == 0
    ensures ReplyOk(BadReply(to)) && EmptyTag(BadReply(to))
  {
    var h, none: seq<Hdr> := BadReply(to).hdrs, [];
    assert h[0] == VIA && h[1..] == [to] && [to][0] == to && [to][1..] == none;
    assert Count(none, Via1) == 0 && Count([to], Via1) == 0 && Count(h, Via1) == 1;
    assert Count(none, To) == 0 && Count([to], To) == 1 && Count(h, To) == 1;
    assert ToTag(h) == ToTag([to]) == to.tag;
    assert |VIA.text| == 20 && HdrOk(VIA, None);
    assert forall x | x in h :: x == VIA || x == to;
  }

  const TO := Hdr(To, "To: <sip:b>;tag=;x=y\r\n", 20, Some(Span(16, 0)))
  const QUOTED_TO := Hdr(To, "To: <sip:b>;tag=\"a\"\r\n", 19, Some(Span(17, 0)))

  /** The parser sets the tag pointer to an empty tag for ";tag=;" when the last parameter has a
      value, and for a quoted tag of one character; the reply is then shorter than measured.  Where
      ";tag=" ends the header it sets no pointer, and a last parameter without a value is an error. */
  lemma EmptyTagIsMismeasured()
    ensures ReplyOk(BadReply(TO)) && ReplyLen(BadReply(TO)) == |ReplyText(BadReply(TO))| + 5
    ensures ReplyOk(BadReply(QUOTED_TO)) && ReplyLen(BadReply(QUOTED_TO)) == |ReplyText(BadReply(QUOTED_TO))| + 5
  {
    assert |TO.text| == 22 && |QUOTED_TO.text| == 21;
    BadReplyOk(TO);
    LengthsAgree(BadReply(TO));
    BadReplyOk(QUOTED_TO);
    LengthsAgree(BadReply(QUOTED_TO));
  }

  // ----- first pass ---------------------------------------------------------------------------

  method MeasureHdr(r: Reply, h: Hdr, toTag: Option<Span>) returns (len: int)
    requires toTag == ToTag(r.hdrs)
    ensures len == HdrLen(r, h)
  {
    len := 0;
    match h.kind {
      case To =>
        if r.newTag != "" {
          var tagLen := if toTag.Some? then toTag.value.len else 0;
          if tagLen != 0 {
            len := len + |r.newTag| - tagLen;
          } else {
            len := len + |r.newTag| + |TOTAG_TOKEN|;
          }
        }
        len := len + |h.text|;
      case Via1 =>
        len := len + h.bodyEnd + |CRLF|;
        len := len + |Str(r.received)| + |Str(r.rport)|;
      case Via =>
        len := len + h.bodyEnd + |CRLF|;
      case RecordRoute =>
        if !(r.code < 180 || r.code >= 300) {
          len := len + |h.text|;
        }
      case Other =>
      case _ =>
        len := len + |h.text|;
    }
  }

  /** The first pass over the headers and the lumps. */
  method Measure(r: Reply) returns (len: int, body: Option<string>)
    ensures len == ReplyLen(r) && body == BodyOf(r.lumps)
  {
    len := 0;
    if r.rport.Some? && r.oldRport.Some? {
      len := len - (r.oldRport.value.len + 1);
    }
    len := len + |r.version| + 1 + 3 + 1 + |r.reason| + |CRLF|;
    ghost var before := len;
    var toTag := ToTag(r.hdrs);
    var i := 0;
    while i < |r.hdrs|
      invariant i <= |r.hdrs| && len + HdrsLen(r, r.hdrs[i..]) == before + HdrsLen(r, r.hdrs)
    {
      assert r.hdrs[i..][1..] == r.hdrs[i + 1..];
      var d := MeasureHdr(r, r.hdrs[i], toTag);
      len := len + d;
      i := i + 1;
    }
    var d;
    d, body := MeasureLumps(r.lumps);
    len := len + d;
    if r.server.Some? {
      len := len + |r.server.value| + |CRLF|;
    }
    if r.warning.Some? {
      len := len + |r.warning.value| + |CRLF|;
    }
    if body.Some? {
      var digits := Int2Str(|body.value|);
      len := len + |CONTENT_LENGTH| + |digits| + |CRLF|;
    } else {
      len := len + |CONTENT_LENGTH| + 1 + |CRLF|;
    }
    len := len + |CRLF|;
  }

  method MeasureLumps(l: seq<RplLump>) returns (len: nat, body: Option<string>)
    ensures len == LumpsLen(l) && body == BodyOf(l)
  {
    len, body := 0, None;
    var i := 0;
    assert l[0..] == l;
    while i < |l|
      invariant i <= |l| && len + LumpsLen(l[i..]) == LumpsLen(l)
      invariant BodyOf(l) == if BodyOf(l[i..]).Some? then BodyOf(l[i..]) else body
    {
      assert l[i..][1..] == l[i + 1..];
      len := len + |l[i].text|;
      if l[i].flags.body {
        body := Some(l[i].text);
      }
      i := i + 1;
    }
  }

  // ----- second pass --------------------------------------------------------------------------

  method WriteViaBody(r: Reply, h: Hdr, buf: array<char>, p: nat) returns (q: nat)
    requires HdrOk(h, r.oldRport) && (h.kind == Via1 || h.kind == Via) && (r.oldRport.Some? ==> r.rport.Some?)
    requires p + |ViaBody(r, h)| <= buf.Length
    modifies buf
    ensures q == p + |ViaBody(r, h)| && buf[..q] == old(buf[..p]) + ViaBody(r, h)
  {
    if h.kind == Via {
      q := Append(buf, p, h.text[..h.bodyEnd]);
    } else if r.rport.Some? && r.oldRport.Some? {
      var gone := r.oldRport.value;
      q := Append3(buf, p, h.text[..gone.start - 1], r.rport.value, h.text[gone.start + gone.len..h.bodyEnd]);
    } else {
      q := Append2(buf, p, h.text[..h.bodyEnd], Str(r.rport));
    }
  }

  method WriteVia(r: Reply, h: Hdr, buf: array<char>, p: nat) returns (q: nat)
    requires HdrOk(h, r.oldRport) && (h.kind == Via1 || h.kind == Via) && (r.oldRport.Some? ==> r.rport.Some?)
    requires p + |ViaText(r, h)| <= buf.Length
    modifies buf
    ensures q == p + |ViaText(r, h)| && buf[..q] == old(buf[..p]) + ViaText(r, h)
  {
    q := WriteViaBody(r, h, buf, p);
    if h.kind == Via1 {
      q := Append2(buf, q, Str(r.received), CRLF);
      Regroup(old(buf[..p]), ViaBody(r, h), Str(r.received) + CRLF);
    } else {
      q := Append(buf, q, CRLF);
      Regroup(old(buf[..p]), ViaBody(r, h), CRLF);
    }
  }

  /** Where in its own text the bookmark of a To header leads. */
  function OwnMark(r: Reply, h: Hdr): Span
    requires Fits(r, h)
  {
    if r.newTag == "" then (if h.tag.Some? then h.tag.value else Span(h.bodyEnd, 0))
    else Span(if ToTag(r.hdrs).Some? then ToTag(r.hdrs).value.start else h.bodyEnd + |TOTAG_TOKEN|, |r.newTag|)
  }

  function Shift(s: Span, d: nat): Span {
    s.(start := d + s.start)
  }

  /** A To header, and the bookmark of its tag. */
  method WriteTo(r: Reply, h: Hdr, toTag: Option<Span>, buf: array<char>, p: nat) returns (q: nat, mark: Span)
    requires Fits(r, h) && h.kind == To && toTag == ToTag(r.hdrs) && p + |ToText(r, h)| <= buf.Length
    modifies buf
    ensures q == p + |ToText(r, h)| && buf[..q] == old(buf[..p]) + ToText(r, h)
    ensures mark == Shift(OwnMark(r, h), p)
  {
    if r.newTag != "" {
      if toTag.Some? {
        var end := toTag.value.start + toTag.value.len;
        mark := Span(p + toTag.value.start, |r.newTag|);
        q := Append3(buf, p, h.text[..toTag.value.start], r.newTag, h.text[end..]);
      } else {
        mark := Span(p + h.bodyEnd + |TOTAG_TOKEN|, |r.newTag|);
        q := Append3(buf, p, h.text[..h.bodyEnd] + TOTAG_TOKEN, r.newTag, h.text[h.bodyEnd..]);
      }
    } else {
      if h.tag.Some? {
        mark := Span(p + h.tag.value.start, h.tag.value.len);
      } else {
        mark := Span(p + h.bodyEnd, 0);
      }
      q := Append(buf, p, h.text);
    }
  }

  method WriteHdr(r: Reply, h: Hdr, toTag: Option<Span>, buf: array<char>, p: nat) returns (q: nat, mark: Option<Span>)
    requires Fits(r, h) && toTag == ToTag(r.hdrs)
    requires (r.oldRport.Some? ==> r.rport.Some?) && p + |HdrText(r, h)| <= buf.Length
    modifies buf
    ensures q == p + |HdrText(r, h)| && buf[..q] == old(buf[..p]) + HdrText(r, h)
    ensures mark == if h.kind == To then Some(Shift(OwnMark(r, h), p)) else None
  {
    q, mark := p, None;
    match h.kind {
      case Via1 => q := WriteVia(r, h, buf, p);
      case Via => q := WriteVia(r, h, buf, p);
      case RecordRoute =>
        if r.code < 180 || r.code >= 300 {
        } else {
          q := Append(buf, p, h.text);
        }
      case To =>
        var m;
        q, m := WriteTo(r, h, toTag, buf, p);
        mark := Some(m);
      case Other =>
      case _ => q := Append(buf, p, h.text);
    }
  }

  /** The bookmark, which each To header sets anew, when the headers are written from position at. */
  function MarkOf(r: Reply, hdrs: seq<Hdr>, at: nat): Option<Span>
    requires forall h | h in hdrs :: Fits(r, h)
  {
    if hdrs == [] then None
    else
      var later := MarkOf(r, hdrs[1..], at + |HdrText(r, hdrs[0])|);
      if later.None? && hdrs[0].kind == To then Some(Shift(OwnMark(r, hdrs[0]), at)) else later
  }

  method WriteHdrs(r: Reply, buf: array<char>, p: nat) returns (q: nat, mark: Option<Span>)
    requires (forall h | h in r.hdrs :: Fits(r, h)) && (r.oldRport.Some? ==> r.rport.Some?)
    requires p + |HdrsText(r, r.hdrs)| <= buf.Length
    modifies buf
    ensures q == p + |HdrsText(r, r.hdrs)| && buf[..q] == old(buf[..p]) + HdrsText(r, r.hdrs)
    ensures mark == MarkOf(r, r.hdrs, p)
  {
    q, mark := p, None;
    ghost var goal, last := buf[..p] + HdrsText(r, r.hdrs), MarkOf(r, r.hdrs, p);
    var toTag := ToTag(r.hdrs);
    var i := 0;
    assert r.hdrs[0..] == r.hdrs;
    while i < |r.hdrs|
      invariant i <= |r.hdrs| && q <= buf.Length && Writing(r, r.hdrs[i..], buf[..q], mark, goal, last)
    {
      assert r.hdrs[i..][1..] == r.hdrs[i + 1..];
      WritesOn(r, r.hdrs[i..], buf[..q], mark, goal, last);
      var m;
      q, m := WriteHdr(r, r.hdrs[i], toTag, buf, q);
      if m.Some? {
        mark := m;
      }
      i := i + 1;
    }
    assert buf[..q] + "" == buf[..q];
  }

  /** With done written and mark set, the headers hdrs will make it goal and last. */
  ghost predicate Writing(r: Reply, hdrs: seq<Hdr>, done: string, mark: Option<Span>, goal: string, last: Option<Span>) {
    && (forall h | h in hdrs :: Fits(r, h))
    && done + HdrsText(r, hdrs) == goal
    && last == if MarkOf(r, hdrs, |done|).Some? then MarkOf(r, hdrs, |done|) else mark
  }

  lemma WritesOn(r: Reply, hdrs: seq<Hdr>, done: string, mark: Option<Span>, goal: string, last: Option<Span>)
    requires hdrs != [] && Writing(r, hdrs, done, mark, goal, last)
    ensures Fits(r, hdrs[0]) && |done| + |HdrText(r, hdrs[0])| <= |goal|
    ensures Writing(r, hdrs[1..], done + HdrText(r, hdrs[0]),
                    if hdrs[0].kind == To then Some(Shift(OwnMark(r, hdrs[0]), |done|)) else mark, goal, last)
  {
    Regroup(done, HdrText(r, hdrs[0]), HdrsText(r, hdrs[1..]));
  }

  method WriteLumps(l: seq<RplLump>, buf: array<char>, p: nat) returns (q: nat)
    requires p + |HdrLumps(l)| <= buf.Length
    modifies buf
    ensures q == p + |HdrLumps(l)| && buf[..q] == old(buf[..p]) + HdrLumps(l)
  {
    q := p;
    ghost var goal := buf[..p] + HdrLumps(l);
    var i := 0;
    assert l[0..] == l;
    while i < |l|
      invariant i <= |l| && q <= buf.Length && buf[..q] + HdrLumps(l[i..]) == goal
    {
      assert l[i..][1..] == l[i + 1..];
      ghost var text := if l[i].flags.hdr then l[i].text else "";
      Regroup(buf[..q], text, HdrLumps(l[i + 1..]));
      assert |goal| == q + |text| + |HdrLumps(l[i + 1..])|;
      if l[i].flags.hdr {
        q := Append(buf, q, l[i].text);
      } else {
        assert buf[..q] + "" == buf[..q];
      }
      i := i + 1;
    }
    assert buf[..q] + "" == buf[..q];
  }

  /** The three digits of the code, from the last to the first. */
  method WriteCode(code: nat, buf: array<char>, p: nat) returns (q: nat)
    requires p + 3 <= buf.Length
    modifies buf
    ensures q == p + 3 && buf[..q] == old(buf[..p]) + Code(code)
  {
    var foo := code;
    var i := 2;
    while i >= 0
      invariant -1 <= i <= 2 && foo == (if i == 2 then code else if i == 1 then code / 10 else if i == 0 then code / 100 else code / 1000)
      invariant buf[..p] == old(buf[..p])
      invariant i < 2 ==> buf[p + 2] == Digit(code)
      invariant i < 1 ==> buf[p + 1] == Digit(code / 10)
      invariant i < 0 ==> buf[p] == Digit(code / 100)
    {
      buf[p + i] := ('0' as nat + foo - foo / 10 * 10) as char;
      i := i - 1;
      foo := foo / 10;
    }
    q := p + 3;
  }

  method WriteFirstLine(r: Reply, buf: array<char>) returns (q: nat)
    requires |FirstLine(r)| <= buf.Length
    modifies buf
    ensures q == |FirstLine(r)| && buf[..q] == FirstLine(r)
  {
    q := Append2(buf, 0, r.version, " ");
    assert buf[..q] == r.version + " ";
    q := WriteCode(r.code, buf, q);
    q := Append2(buf, q, " ", r.reason);
    q := Append(buf, q, CRLF);
    assert buf[..q] == r.version + " " + Code(r.code) + (" " + r.reason) + CRLF;
    Regroup(r.version + " " + Code(r.code), " ", r.reason);
  }

  method WriteLine(o: Option<string>, buf: array<char>, p: nat) returns (q: nat)
    requires p + |Line(o)| <= buf.Length
    modifies buf
    ensures q == p + |Line(o)| && buf[..q] == old(buf[..p]) + Line(o)
  {
    q := p;
    if o.Some? {
      q := Append2(buf, p, o.value, CRLF);
    }
  }

  method WriteLengthLine(l: seq<RplLump>, body: Option<string>, buf: array<char>, p: nat) returns (q: nat)
    requires body == BodyOf(l) && p + |LengthLine(l)| <= buf.Length
    modifies buf
    ensures q == p + |LengthLine(l)| && buf[..q] == old(buf[..p]) + LengthLine(l)
  {
    if body.Some? {
      var digits := Int2Str(|body.value|);
      q := Append2(buf, p, CONTENT_LENGTH, digits);
      q := Append(buf, q, CRLF);
      Regroup(old(buf[..p]), CONTENT_LENGTH + digits, CRLF);
    } else {
      assert DigitsOf(0) == "0";
      q := Append(buf, p, CONTENT_LENGTH + "0" + CRLF);
    }
  }

  method WriteEnd(r: Reply, body: Option<string>, buf: array<char>, p: nat) returns (q: nat)
    requires body == BodyOf(r.lumps) && p + |EndText(r)| <= buf.Length
    modifies buf
    ensures q == p + |EndText(r)| && buf[..q] == old(buf[..p]) + EndText(r)
  {
    q := WriteLengthLine(r.lumps, body, buf, p);
    q := WriteLine(r.warning, buf, q);
    Regroup(old(buf[..p]), LengthLine(r.lumps), Line(r.warning));
    q := Append2(buf, q, CRLF, Str(body));
    Regroup(old(buf[..p]), LengthLine(r.lumps) + Line(r.warning), CRLF + Str(body));
  }

  method WriteTail(r: Reply, body: Option<string>, buf: array<char>, p: nat) returns (q: nat)
    requires body == BodyOf(r.lumps) && p + |TailText(r)| <= buf.Length
    modifies buf
    ensures q == p + |TailText(r)| && buf[..q] == old(buf[..p]) + TailText(r)
  {
    q := WriteLumps(r.lumps, buf, p);
    q := WriteLine(r.server, buf, q);
    Regroup(old(buf[..p]), HdrLumps(r.lumps), Line(r.server));
    q := WriteEnd(r, body, buf, q);
    Regroup(old(buf[..p]), HdrLumps(r.lumps) + Line(r.server), EndText(r));
  }

  function Bookmark(r: Reply): Option<Span>
    requires ReplyOk(r)
  {
    AllFit(r);
    MarkOf(r, r.hdrs, |FirstLine(r)|)
  }

  /** build_res_buf_from_sip_req: the reply stands at the start of the buffer, the length returned
      is the one computed, and the bookmark is that of the last To header. */
  method Build(r: Reply) returns (buf: array<char>, len: int, mark: Option<Span>, ghost written: nat)
    requires ReplyOk(r)
    ensures fresh(buf) && len == ReplyLen(r) && buf.Length == len + 1
    ensures written == |ReplyText(r)| && written < buf.Length
    ensures buf[..written] == ReplyText(r) && buf[written] == 0 as char
    ensures mark == Bookmark(r)
  {
    LengthsAgree(r);
    AllFit(r);
    var body;
    len, body := Measure(r);
    buf := new char[len + 1];
    var p := WriteFirstLine(r, buf);
    p, mark := WriteHdrs(r, buf, p);
    p := WriteTail(r, body, buf, p);
    written := p;
    ghost var text := buf[..p];
    buf[p] := 0 as char;
    assert buf[..p] == text;
  }

  // ----- what the bookmark is worth -----------------------------------------------------------

  /** What is written as the tag of a To header. */
  function TagText(r: Reply, h: Hdr): string
    requires HdrOk(h, r.oldRport)
  {
    if r.newTag != "" then r.newTag
    else if h.tag.Some? && h.tag.value.len >= 0 then h.text[h.tag.value.start..h.tag.value.start + h.tag.value.len]
    else ""
  }

  /** mark is a place in text where tag stands. */
  predicate Marks(text: string, mark: Span, tag: string) {
    && Inside(mark, |text|)
    && tag == if mark.len < 0 then "" else text[mark.start..mark.start + mark.len]
  }

  lemma MarksIn(before: string, text: string, more: string, mark: Span, tag: string)
    requires Marks(text, mark, tag)
    ensures Marks(before + text + more, Shift(mark, |before|), tag)
  {
    if mark.len >= 0 {
      assert (before + text + more)[|before| + mark.start..|before| + mark.start + mark.len]
          == text[mark.start..mark.start + mark.len];
    }
  }

  lemma OwnMarkLeads(r: Reply, h: Hdr)
    requires Fits(r, h) && h.kind == To
    ensures Marks(ToText(r, h), OwnMark(r, h), TagText(r, h))
  {
    if r.newTag != "" {
      var front := if ToTag(r.hdrs).Some? then h.text[..ToTag(r.hdrs).value.start] else h.text[..h.bodyEnd] + TOTAG_TOKEN;
      assert ToText(r, h)[|front|..|front| + |r.newTag|] == r.newTag;
    }
  }

  /** The last To header. */
  function LastTo(hdrs: seq<Hdr>): Option<Hdr> {
    if hdrs == [] then None
    else if LastTo(hdrs[1..]).Some? then LastTo(hdrs[1..])
    else if hdrs[0].kind == To then Some(hdrs[0])
    else None
  }

  lemma {:induction false} MarkLeads(r: Reply, hdrs: seq<Hdr>, before: string, more: string)
    requires forall h | h in hdrs :: Fits(r, h)
    ensures MarkOf(r, hdrs, |before|).Some? <==> LastTo(hdrs).Some?
    ensures LastTo(hdrs).Some? ==>
      && HdrOk(LastTo(hdrs).value, r.oldRport)
      && Marks(before + HdrsText(r, hdrs) + more, MarkOf(r, hdrs, |before|).value, TagText(r, LastTo(hdrs).value))
  {
    if hdrs != [] {
      var text, rest := HdrText(r, hdrs[0]), HdrsText(r, hdrs[1..]);
      MarkLeads(r, hdrs[1..], before + text, more);
      Regroup(before, text, rest);
      if hdrs[0].kind == To && LastTo(hdrs[1..]).None? {
        OwnMarkLeads(r, hdrs[0]);
        MarksIn(before, text, rest + more, OwnMark(r, hdrs[0]), TagText(r, hdrs[0]));
        assert before + text + (rest + more) == before + (text + rest) + more;
      }
    }
  }

  /** The bookmark names the tag of the last To header in the reply. */
  lemma BookmarkLeads(r: Reply)
    requires ReplyOk(r)
    ensures Bookmark(r).Some? <==> LastTo(r.hdrs).Some?
    ensures LastTo(r.hdrs).Some? ==>
      HdrOk(LastTo(r.hdrs).value, r.oldRport) && Marks(ReplyText(r), Bookmark(r).value, TagText(r, LastTo(r.hdrs).value))
  {
    AllFit(r);
    MarkLeads(r, r.hdrs, FirstLine(r), TailText(r));
  }
}
