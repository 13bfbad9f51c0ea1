/** Writing text through a moving pointer into a buffer that may be too short for it. */
module Emit {

  /** `s` after `t` was written at `pos`, except for what would fall at or behind `end`. */
  function Put(s: string, end: nat, pos: nat, t: string): (r: string)
    requires end <= |s|
    ensures |r| == |s|
    ensures forall i | 0 <= i < |s| :: r[i] == if pos <= i < end && i < pos + |t| then t[i - pos] else s[i]
  {
    seq(|s|, i requires 0 <= i < |s| => if pos <= i < end && i < pos + |t| then t[i - pos] else s[i])
  }

  lemma PutNothing(s: string, end: nat, pos: nat)
    requires end <= |s|
    ensures Put(s, end, pos, "") == s
  {
  }

  /** Text written piece by piece is text written at once, cut off or not. */
  lemma PutAppend(s: string, end: nat, pos: nat, a: string, b: string)
    requires end <= |s|
    ensures Put(Put(s, end, pos, a), end, pos + |a|, b) == Put(s, end, pos, a + b)
  {
    var l, r := Put(Put(s, end, pos, a), end, pos + |a|, b), Put(s, end, pos, a + b);
    forall i | 0 <= i < |s|
      ensures l[i] == r[i]
    {
      if pos <= i < end && i < pos + |a + b| {
        assert (a + b)[i - pos] == if i - pos < |a| then a[i - pos] else b[i - pos - |a|];
      }
    }
  }

  function Repeat(c: char, n: int): (s: string)
    ensures |s| == if n < 0 then 0 else n
    ensures forall i | 0 <= i < |s| :: s[i] == c
  {
    if n <= 0 then "" else seq(n, _ => c)
  }

  lemma RepeatMore(c: char, n: nat)
    ensures Repeat(c, n + 1) == Repeat(c, n) + [c]
  {
  }

  /** The `ADDCH` macro. */
  method AddCh(buf: array<char>, end: nat, pos: nat, c: char) returns (next: nat)
    requires end <= buf.Length
    modifies buf
    ensures next == pos + 1 && buf[..] == Put(old(buf[..]), end, pos, [c])
  {
    if pos < end {
      buf[pos] := c;
    }
    next := pos + 1;
  }

  /** Writes `c` as often as `size` says, counting `size` down until it is negative. */
  method Fill(buf: array<char>, end: nat, pos: nat, c: char, size: int) returns (next: nat, left: int)
    requires end <= buf.Length
    modifies buf
    ensures buf[..] == Put(old(buf[..]), end, pos, Repeat(c, size)) && next == pos + |Repeat(c, size)|
    ensures left == if size < 0 then size - 1 else -1
  {
    hide Put, Repeat;
    next := pos;
    left := size - 1;
    ghost var n := 0;
    PutNothing(buf[..], end, pos);
    while left >= 0
      invariant 0 <= n && (if size < 0 then n == 0 && left == size - 1 else left == size - n - 1)
      invariant left >= -1 || size < 0
      invariant buf[..] == Put(old(buf[..]), end, pos, Repeat(c, n)) && next == pos + n
    {
      RepeatMore(c, n);
      PutAppend(old(buf[..]), end, pos, Repeat(c, n), [c]);
      next := AddCh(buf, end, next, c);
      n := n + 1;
      left := left - 1;
    }
    assert Repeat(c, n) == Repeat(c, size);
  }
}
