/** Lumps as values: what one entry of a lump list is, what the length pass and the
    writing pass compute for it, and the tagged rendering that both are measured against.

    A lump list is a sequence of entries.  An entry is the operation of a top-level lump
    together with its "before" and "after" chains, each in link order. */
module LumpModel {
  import opened Wrappers

  const SIP_PORT := 5060
  const TRANSPORT_PARAM := ";transport="

  datatype AddressFamily = Inet | Inet6
  datatype IpAddr = IpAddr(af: AddressFamily, octets: seq<int>)
  datatype Proto = ProtoNone | ProtoUdp | ProtoTcp | ProtoTls | ProtoSctp | ProtoOther(code: int)

  /** Where a message was received or is sent from. */
  datatype Endpoint = Endpoint(ip: IpAddr, port: int, proto: Proto)

  /** A listening socket with its address and port already printed. */
  datatype Socket = Socket(at: Endpoint, addressText: string, portText: string)

  /** Everything a condition or a substitution lump may look at.
      bind is rcv.bind_address, dst is rcv.dst_ip/dst_port/proto, send is send_info->send_sock. */
  datatype Env = Env(bind: Option<Socket>, dst: Endpoint, send: Option<Socket>,
                     globalAddress: string, globalPort: string)

  datatype Subst =
    | SubstNop
    | SubstRcvIp | SubstSndIp
    | SubstRcvPort | SubstSndPort
    | SubstRcvProto | SubstSndProto
    | SubstRcvAll | SubstSndAll
    | SubstUnknown(code: int)

  datatype Cond =
    | CondFalse | CondTrue
    | CondIfDiffRealms | CondIfDiffAf | CondIfDiffProto | CondIfDiffPort | CondIfDiffIp
    | CondUnknown(code: int)

  datatype Op =
    | Nop(offset: nat)
    | Del(offset: nat, len: nat)
    | Add(text: string)
    | AddSubst(subst: Subst)
    | AddOpt(cond: Cond)

  datatype Entry = Entry(op: Op, before: seq<Op>, after: seq<Op>)

  // ----- conditions ---------------------------------------------------------------

  function Received(env: Env): Endpoint {
    if env.bind.Some? then env.bind.value.at else env.dst
  }

  predicate CondHolds(cond: Cond, env: Env) {
    match cond
    case CondFalse => false
    case CondTrue => true
    case CondUnknown(_) => false
    case _ =>
      // without a send socket the two sides are presumed different
      env.send.None? ||
      var rcv, snd := Received(env), env.send.value.at;
      match cond
      case CondIfDiffRealms => !(rcv.port == snd.port && rcv.proto == snd.proto && rcv.ip == snd.ip)
      case CondIfDiffAf => rcv.ip.af != snd.ip.af
      case CondIfDiffProto => rcv.proto != snd.proto
      case CondIfDiffPort => rcv.port != snd.port
      case _ => rcv.ip != snd.ip
  }

  // ----- substitutions: the length pass -------------------------------------------

  function BracketLen(bracketed: bool): nat {
    if bracketed then 2 else 0
  }

  function ProtoLen(proto: Proto): nat {
    match proto
    case ProtoNone => 3
    case ProtoUdp => 3
    case ProtoTcp => 3
    case ProtoTls => 3
    case ProtoSctp => 4
    case ProtoOther(_) => 0
  }

  function TransportLen(proto: Proto): nat {
    match proto
    case ProtoNone => 0
    case ProtoUdp => 0
    case ProtoTcp => |TRANSPORT_PARAM| + 3
    case ProtoTls => |TRANSPORT_PARAM| + 3
    case ProtoSctp => |TRANSPORT_PARAM| + 4
    case ProtoOther(_) => 0
  }

  /** The address and port printed for the sending side: the advertised ones win. */
  function SendAddress(env: Env): string
    requires env.send.Some?
  {
    if env.globalAddress != "" then env.globalAddress else env.send.value.addressText
  }

  function SendPort(env: Env): string
    requires env.send.Some?
  {
    if env.globalPort != "" then env.globalPort else env.send.value.portText
  }

  predicate SendBracketed(env: Env)
    requires env.send.Some?
  {
    env.send.value.at.ip.af != Inet && env.globalAddress == ""
  }

  predicate SendShowsPort(env: Env)
    requires env.send.Some?
  {
    env.send.value.at.port != SIP_PORT || env.globalPort != ""
  }

  function SubstLen(subst: Subst, env: Env): nat {
    match subst
    case SubstRcvIp =>
      if env.bind.None? then 0 else
        |env.bind.value.addressText| + BracketLen(env.bind.value.at.ip.af != Inet)
    case SubstRcvPort =>
      if env.bind.None? then 0 else |env.bind.value.portText|
    case SubstRcvProto =>
      if env.bind.None? then 0 else ProtoLen(env.bind.value.at.proto)
    case SubstRcvAll =>
      if env.bind.None? then 0 else
        |env.bind.value.addressText| + BracketLen(env.bind.value.at.ip.af != Inet)
        + (if env.bind.value.at.port != SIP_PORT then 1 + |env.bind.value.portText| else 0)
        + TransportLen(env.bind.value.at.proto)
    case SubstSndIp =>
      if env.send.None? then 0 else |SendAddress(env)| + BracketLen(SendBracketed(env))
    case SubstSndPort =>
      if env.send.None? then 0 else |SendPort(env)|
    case SubstSndProto =>
      if env.send.None? then 0 else ProtoLen(env.send.value.at.proto)
    case SubstSndAll =>
      if env.send.None? then 0 else
        |SendAddress(env)| + BracketLen(SendBracketed(env))
        + (if SendShowsPort(env) then 1 + |SendPort(env)| else 0)
        + TransportLen(env.send.value.at.proto)
    case SubstNop => 0
    case SubstUnknown(_) => 0
  }

  // ----- substitutions: the writing pass -------------------------------------------

  function AddressPart(address: string, bracketed: bool): string {
    (if bracketed then "[" else "") + address + (if bracketed then "]" else "")
  }

  function ProtoText(proto: Proto): string {
    match proto
    case ProtoNone => "udp"
    case ProtoUdp => "udp"
    case ProtoTcp => "tcp"
    case ProtoTls => "tls"
    case ProtoSctp => "sctp"
    case ProtoOther(_) => ""
  }

  function TransportText(proto: Proto): string {
    match proto
    case ProtoNone => ""
    case ProtoUdp => ""
    case ProtoTcp => TRANSPORT_PARAM + "tcp"
    case ProtoTls => TRANSPORT_PARAM + "tls"
    case ProtoSctp => TRANSPORT_PARAM + "sctp"
    case ProtoOther(_) => ""
  }

  function PortPart(shown: bool, port: string): string {
    if shown then ":" + port else ""
  }

  /** The bytes a substitution lump expands to; the two passes must agree on their number. */
  function SubstText(subst: Subst, env: Env): (text: string)
    ensures |text| == SubstLen(subst, env)
  {
    match subst
    case SubstRcvIp =>
      if env.bind.None? then "" else
        AddressPart(env.bind.value.addressText, env.bind.value.at.ip.af != Inet)
    case SubstRcvPort =>
      if env.bind.None? then "" else env.bind.value.portText
    case SubstRcvAll =>
      if env.bind.None? then "" else
        AddressPart(env.bind.value.addressText, env.bind.value.at.ip.af != Inet)
        + PortPart(env.bind.value.at.port != SIP_PORT, env.bind.value.portText)
        + TransportText(env.bind.value.at.proto)
    case SubstSndIp =>
      if env.send.None? then "" else AddressPart(SendAddress(env), SendBracketed(env))
    case SubstSndPort =>
      if env.send.None? then "" else SendPort(env)
    case SubstSndAll =>
      if env.send.None? then "" else
        AddressPart(SendAddress(env), SendBracketed(env))
        + PortPart(SendShowsPort(env), SendPort(env))
        + TransportText(env.send.value.at.proto)
    case SubstRcvProto =>
      if env.bind.None? then "" else ProtoText(env.bind.value.at.proto)
    case SubstSndProto =>
      if env.send.None? then "" else ProtoText(env.send.value.at.proto)
    case SubstNop => ""
    case SubstUnknown(_) => ""
  }

  // ----- one lump and its chains ----------------------------------------------------

  /** What a lump inserts by itself; deletions, anchors and conditions insert nothing. */
  function OpText(op: Op, env: Env): string {
    match op
    case Add(text) => text
    case AddSubst(subst) => SubstText(subst, env)
    case _ => ""
  }

  function OpTextLen(op: Op, env: Env): nat {
    match op
    case Add(text) => |text|
    case AddSubst(subst) => SubstLen(subst, env)
    case _ => 0
  }

  /** A condition that fails hides the lump it is on: the rest of a chain, or a whole entry. */
  predicate Hides(op: Op, env: Env) {
    op.AddOpt? && !CondHolds(op.cond, env)
  }

  function ChainText(chain: seq<Op>, env: Env): string {
    if chain == [] || Hides(chain[0], env) then ""
    else OpText(chain[0], env) + ChainText(chain[1..], env)
  }

  function ChainLen(chain: seq<Op>, env: Env): nat {
    if chain == [] || Hides(chain[0], env) then 0
    else OpTextLen(chain[0], env) + ChainLen(chain[1..], env)
  }

  lemma {:induction false} ChainLenAgrees(chain: seq<Op>, env: Env)
    ensures |ChainText(chain, env)| == ChainLen(chain, env)
  {
    if chain == [] || Hides(chain[0], env) {
    } else {
      ChainLenAgrees(chain[1..], env);
    }
  }

  /** Deletions and anchors carry an offset into the original message. */
  predicate Placed(op: Op) {
    op.Nop? || op.Del?
  }

  /** Where the original text resumes after a placed lump. */
  function PlacedEnd(op: Op): nat
    requires Placed(op)
  {
    if op.Del? then op.offset + op.len else op.offset
  }

  /** Everything an entry inserts, in the order it is written. */
  function EntryText(e: Entry, env: Env): string {
    if Hides(e.op, env) then ""
    else ChainText(e.before, env) + OpText(e.op, env) + ChainText(e.after, env)
  }

  function EntryLen(e: Entry, env: Env): nat {
    if Hides(e.op, env) then 0
    else ChainLen(e.before, env) + OpTextLen(e.op, env) + ChainLen(e.after, env)
  }

  lemma EntryLenAgrees(e: Entry, env: Env)
    ensures |EntryText(e, env)| == EntryLen(e, env)
  {
    ChainLenAgrees(e.before, env);
    ChainLenAgrees(e.after, env);
  }

  function ListText(es: seq<Entry>, env: Env): string {
    if es == [] then "" else EntryText(es[0], env) + ListText(es[1..], env)
  }

  // ----- the length pass --------------------------------------------------------------

  /** The repair lumps_len makes to one lump when the text up to s is already consumed. */
  function ClipOp(op: Op, s: nat): Op {
    match op
    case Del(offset, len) =>
      if offset < s then Del(s, if len > s - offset then len - (s - offset) else 0) else op
    case Nop(offset) =>
      if offset < s then Nop(s) else op
    case _ => op
  }

  /** The value of s_offset after the lump, given its value before. */
  function Advance(op: Op, s: nat): nat {
    if Placed(op) then PlacedEnd(ClipOp(op, s)) else s
  }

  /** The list as lumps_len leaves it. */
  function Clip(es: seq<Entry>, s: nat): (clipped: seq<Entry>)
    ensures |clipped| == |es|
  {
    if es == [] then []
    else [es[0].(op := ClipOp(es[0].op, s))] + Clip(es[1..], Advance(es[0].op, s))
  }

  function ClipEnd(es: seq<Entry>, s: nat): nat {
    if es == [] then s else ClipEnd(es[1..], Advance(es[0].op, s))
  }

  function Removed(op: Op): nat {
    if op.Del? then op.len else 0
  }

  /** The number lumps_len returns, when it starts with s bytes consumed. */
  function Delta(es: seq<Entry>, s: nat, env: Env): int {
    if es == [] then 0
    else EntryLen(es[0], env) - Removed(ClipOp(es[0].op, s)) + Delta(es[1..], Advance(es[0].op, s), env)
  }

  // ----- the writing pass ---------------------------------------------------------------

  /** An output byte, remembering whether it is the original byte at pos or was inserted. */
  datatype Cell = Orig(pos: nat) | New(c: char)

  function Span(lo: nat, hi: nat): (cells: seq<Cell>)
    requires lo <= hi
    ensures |cells| == hi - lo
    ensures forall i :: 0 <= i < hi - lo ==> cells[i] == Orig(lo + i)
  {
    seq(hi - lo, i requires 0 <= i < hi - lo => Orig(lo + i))
  }

  function News(text: string): (cells: seq<Cell>)
    ensures |cells| == |text|
    ensures forall i :: 0 <= i < |text| ==> cells[i] == New(text[i])
  {
    seq(|text|, i requires 0 <= i < |text| => New(text[i]))
  }

  /** process_lumps ignores a placed lump that starts before the text already consumed. */
  predicate Overlapped(op: Op, s: nat) {
    Placed(op) && op.offset < s
  }

  function RenderEntry(e: Entry, s: nat, env: Env): seq<Cell> {
    if Hides(e.op, env) || Overlapped(e.op, s) then []
    else (if Placed(e.op) then Span(s, e.op.offset) else []) + News(EntryText(e, env))
  }

  function StepEnd(op: Op, s: nat): (end: nat)
    ensures s <= end
  {
    if Placed(op) && op.offset >= s then PlacedEnd(op) else s
  }

  /** What process_lumps writes, and the value of s_offset it ends with. */
  function Render(es: seq<Entry>, s: nat, env: Env): seq<Cell> {
    if es == [] then [] else RenderEntry(es[0], s, env) + Render(es[1..], StepEnd(es[0].op, s), env)
  }

  function RenderEnd(es: seq<Entry>, s: nat): (end: nat)
    ensures s <= end
  {
    if es == [] then s else RenderEnd(es[1..], StepEnd(es[0].op, s))
  }

  /** The bytes of a rendering of the message orig. */
  function CellByte(cell: Cell, orig: string): char {
    match cell
    case Orig(pos) => if pos < |orig| then orig[pos] else '\0'
    case New(c) => c
  }

  function Bytes(cells: seq<Cell>, orig: string): (text: string)
    ensures |text| == |cells|
    ensures forall i :: 0 <= i < |cells| ==> text[i] == CellByte(cells[i], orig)
  {
    seq(|cells|, i requires 0 <= i < |cells| => CellByte(cells[i], orig))
  }
}
