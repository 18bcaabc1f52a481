/** An output buffer that may be a ring, and the fast copying of matches in it. */
module MatchCopy {
  import opened Bits
  import opened Deflate

  ghost predicate HeldAt(buf: seq<byte>, out: seq<byte>, x: nat) {
    0 < |buf| && x < |out| && buf[x % |buf|] == out[x]
  }

  /** The buffer holds the last bytes of the output, each at its position modulo the size. A
      buffer that does not wrap is the case where all the output is at most its size. */
  ghost predicate RingHolds(buf: seq<byte>, out: seq<byte>) {
    forall x :: 0 <= x < |out| && |out| - |buf| <= x ==> HeldAt(buf, out, x)
  }

  lemma OtherPlace(x: nat, y: nat, n: nat)
    requires 0 < n && x < y < x + n
    ensures x % n != y % n
  {
    DivBound(x, n);
    DivBound(y, n);
    if x % n == y % n {
      assert y - x == n * (y / n - x / n);
      MulBelow(n, y / n - x / n, y - x);
    }
  }

  /** One more output byte at the next place of the ring. */
  lemma RingSnoc(buf: seq<byte>, out: seq<byte>, cur: nat, c: byte)
    requires RingHolds(buf, out) && cur < |buf| && |out| % |buf| == cur
    ensures RingHolds(buf[cur := c], out + [c])
  {
    var next, n := buf[cur := c], |buf|;
    forall x | 0 <= x < |out| + 1 && |out| + 1 - n <= x ensures HeldAt(next, out + [c], x) {
      if x < |out| {
        assert HeldAt(buf, out, x);
        OtherPlace(x, |out|, n);
      }
    }
  }

  lemma ModAddMultiple(x: int, q: int, n: int)
    requires n > 0
    ensures (x + n * q) % n == x % n
  {
    var r, k := x % n, x / n;
    assert x == n * k + r;
    assert x + n * q == r + n * (k + q);
    DivModUnique(r, k + q, n);
  }

  lemma ModShift(a: nat, d: nat, n: nat)
    requires 0 < n && d <= a
    ensures (a - d) % n == (a % n - d) % n
  {
    var q := a / n;
    assert a == n * q + a % n;
    var x := a % n - d;
    assert a - d == x + n * q;
    ModAddMultiple(x, q, n);
  }

  /** The byte `dist` back is at that distance around the ring. */
  lemma RingBack(buf: seq<byte>, out: seq<byte>, cur: nat, dist: nat, src: nat)
    requires RingHolds(buf, out) && cur < |buf| && |out| % |buf| == cur
    requires 1 <= dist <= |out| && dist <= |buf| && src == (cur - dist) % |buf|
    ensures buf[src] == out[|out| - dist]
  {
    var n := |buf|;
    assert HeldAt(buf, out, |out| - dist);
    ModShift(|out|, dist, n);
  }

  lemma CopySnoc(out: seq<byte>, k: nat, dist: nat)
    requires 1 <= dist <= |out|
    ensures Copy(out, k + 1, dist) == Copy(out, k, dist) + [Copy(out, k, dist)[|out| + k - dist]]
  {
  }

  /** Where the copy stands after `k` bytes: the output is the first `k` bytes of the match. */
  ghost predicate Copied(buf: seq<byte>, out: seq<byte>, cur0: nat, cur: nat, dist: nat) {
    1 <= dist <= |out| && dist <= |buf| && cur0 <= cur <= |buf| && |out| % |buf| == cur0 % |buf| &&
    RingHolds(buf, Copy(out, cur - cur0, dist))
  }

  lemma PlaceAfter(a: nat, cur0: nat, k: nat, n: nat)
    requires 0 < n && a % n == cur0 % n && cur0 + k < n
    ensures (a + k) % n == cur0 + k
  {
    var q := a / n;
    assert a == n * q + a % n && cur0 % n == cur0;
    DivModUnique(cur0 + k, q, n);
  }

  /** Copying one byte of the match, wherever its source lies. */
  method CopyByte(buf: array<byte>, src: nat, cur: nat, ghost out: seq<byte>, ghost cur0: nat, dist: nat)
    requires cur < buf.Length && Copied(buf[..], out, cur0, cur, dist) && src == (cur - dist) % buf.Length
    modifies buf
    ensures Copied(buf[..], out, cur0, cur + 1, dist)
    ensures buf[..cur] == old(buf[..cur]) && buf[cur + 1..] == old(buf[cur + 1..])
  {
    hide RingHolds;
    ghost var b, c := buf[..], Copy(out, cur - cur0, dist);
    CopySnoc(out, cur - cur0, dist);
    PlaceAfter(|out|, cur0, cur - cur0, buf.Length);
    RingBack(b, c, cur, dist, src);
    RingSnoc(b, c, cur, b[src]);
    buf[cur] := buf[src];
    assert buf[..] == b[cur := b[src]];
  }

  lemma SmallMod(x: nat, n: nat)
    requires x < n
    ensures x % n == x
  {
  }

  lemma SourceAfter(cur: nat, dist: nat, k: nat, n: nat, src: nat)
    requires 0 < n && src == (cur - dist) % n && src + k < n
    ensures (cur + k - dist) % n == src + k
  {
    var q := (cur - dist) / n;
    assert cur - dist == n * q + src;
    ModAddMultiple(src + k, q, n);
    SmallMod(src + k, n);
  }

  /** One byte of the fast path, `k` bytes into the match. */
  method CopyAt(buf: array<byte>, cur: nat, src: nat, k: nat, dist: nat, ghost len: nat, ghost out: seq<byte>)
    requires k < len && cur + len <= buf.Length && src + len <= buf.Length && src == (cur - dist) % buf.Length
    requires Copied(buf[..], out, cur, cur + k, dist)
    modifies buf
    ensures Copied(buf[..], out, cur, cur + k + 1, dist)
    ensures buf[..cur + k] == old(buf[..cur + k]) && buf[cur + k + 1..] == old(buf[cur + k + 1..])
  {
    hide Copied;
    SourceAfter(cur, dist, k, buf.Length, src);
    CopyByte(buf, src + k, cur + k, out, cur, dist);
  }

  lemma KeepsStart(b: seq<byte>, cur: nat, at: nat)
    requires cur <= at <= |b|
    ensures b[..at][..cur] == b[..cur]
  {
  }

  method CopyThree(buf: array<byte>, cur: nat, src: nat, k: nat, dist: nat, ghost len: nat, ghost out: seq<byte>) returns (next: nat)
    requires k + 3 <= len && cur + len <= buf.Length && src + len <= buf.Length && src == (cur - dist) % buf.Length
    requires Copied(buf[..], out, cur, cur + k, dist)
    modifies buf
    ensures next == k + 3 && Copied(buf[..], out, cur, cur + next, dist) && buf[..cur] == old(buf[..cur])
  {
    hide Copied;
    ghost var b0 := buf[..];
    KeepsStart(b0, cur, cur + k);
    CopyAt(buf, cur, src, k, dist, len, out);
    KeepsStart(buf[..], cur, cur + k);
    KeepsStart(buf[..], cur, cur + k + 1);
    CopyAt(buf, cur, src, k + 1, dist, len, out);
    KeepsStart(buf[..], cur, cur + k + 1);
    KeepsStart(buf[..], cur, cur + k + 2);
    CopyAt(buf, cur, src, k + 2, dist, len, out);
    KeepsStart(buf[..], cur, cur + k + 2);
    next := k + 3;
  }

  /** Three bytes a round, then the one or two that are left. */
  method CopyFast(buf: array<byte>, cur: nat, src: nat, dist: nat, len: nat, ghost out: seq<byte>) returns (next: nat)
    requires 3 <= len && cur + len <= buf.Length && src + len <= buf.Length && src == (cur - dist) % buf.Length
    requires Copied(buf[..], out, cur, cur, dist)
    modifies buf
    ensures next == cur + len && Copied(buf[..], out, cur, next, dist)
    ensures buf[..cur] == old(buf[..cur])
  {
    hide Copied;
    ghost var b0 := buf[..];
    var k, counter: int := 0, len;
    while true
      invariant counter == len - k >= 3 && k >= 0 && Copied(buf[..], out, cur, cur + k, dist) && buf[..cur] == b0[..cur]
      decreases counter
    {
      k := CopyThree(buf, cur, src, k, dist, len, out);
      counter := counter - 3;
      if !(counter > 2) { break; }
    }
    if counter > 0 {
      KeepsStart(buf[..], cur, cur + k);
      CopyAt(buf, cur, src, k, dist, len, out);
      KeepsStart(buf[..], cur, cur + k);
      if counter > 1 {
        CopyAt(buf, cur, src, k + 1, dist, len, out);
        KeepsStart(buf[..], cur, cur + k + 1);
      }
    }
    next := cur + k + counter;
  }

  lemma CopiedStart(buf: seq<byte>, out: seq<byte>, cur: nat, dist: nat)
    requires 1 <= dist <= |out| && dist <= |buf| && cur <= |buf| && |out| % |buf| == cur % |buf| && RingHolds(buf, out)
    ensures Copied(buf, out, cur, cur, dist)
  {
    assert Copy(out, 0, dist) == out;
  }
}
