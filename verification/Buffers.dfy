/** Filling a character buffer from left to right. */
module Buffers {
  import opened Sequences

  /** memcpy of s to position p. */
  method Append(buf: array<char>, p: nat, s: string) returns (q: nat)
    requires p + |s| <= buf.Length
    modifies buf
    ensures q == p + |s| && buf[..q] == old(buf[..p]) + s
  {
    forall i | 0 <= i < |s| {
      buf[p + i] := s[i];
    }
    q := p + |s|;
  }

  method Append2(buf: array<char>, p: nat, s: string, t: string) returns (q: nat)
    requires p + |s| + |t| <= buf.Length
    modifies buf
    ensures q == p + |s| + |t| && buf[..q] == old(buf[..p]) + (s + t)
  {
    q := Append(buf, p, s);
    q := Append(buf, q, t);
    Regroup(old(buf[..p]), s, t);
  }

  method Append3(buf: array<char>, p: nat, s: string, t: string, u: string) returns (q: nat)
    requires p + |s| + |t| + |u| <= buf.Length
    modifies buf
    ensures q == p + |s| + |t| + |u| && buf[..q] == old(buf[..p]) + (s + t + u)
  {
    q := Append2(buf, p, s, t);
    q := Append(buf, q, u);
    Regroup(old(buf[..p]), s + t, u);
  }
}
