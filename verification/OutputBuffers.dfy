/** The output side of `tinfl_decompress` over its calls. A call whose buffer is full returns
    `TINFL_STATUS_HAS_MORE_OUTPUT`; its caller takes the bytes, makes room, and the next call
    goes on at the same place. The room is made by enlarging the buffer, as in
    `tinfl_decompress_mem_to_heap`, or by starting again at the front of a ring of 32768 bytes,
    as in `tinfl_decompress_mem_to_callback`. */
module OutputBuffers {
  import opened Bits
  import opened Deflate
  import opened Adler
  import opened MatchCopy

  const DICT_SIZE := 32768        // TINFL_LZ_DICT_SIZE

  /** The next size of a buffer that is enlarged. */
  function Grown(size: nat): (r: nat)
    ensures r > size
  {
    Max(2 * size, 128)
  }

  function GrownTimes(size: nat, turns: nat): (r: nat)
    ensures r >= size
    decreases turns
  {
    if turns == 0 then size else GrownTimes(Grown(size), turns - 1)
  }

  /** A multiple of the ring's size more or less makes no difference. */
  lemma SamePlace(m: nat, base: nat, dist: nat, n: nat)
    requires 0 < n && base % n == 0 && base <= m
    ensures (m - base - dist) % n == (m - dist) % n && (m - base) % n == m % n
  {
    var q := base / n;
    assert base == n * q;
    ModAddMultiple(m - base - dist, q, n);
    ModAddMultiple(m - base, q, n);
  }

  lemma PlaceOf(m: nat, cur: nat, n: nat)
    requires 0 < n && cur < n && cur <= m && (m - cur) % n == 0
    ensures m % n == cur
  {
    SamePlace(m, m - cur, 0, n);
    SmallMod(cur, n);
  }

  /** The last bytes put stand before the place of the next one. */
  lemma LastBytes(buf: seq<byte>, made: seq<byte>, next: nat, cur: nat)
    requires RingHolds(buf, made) && next <= cur <= |buf| && 0 < |buf| && cur <= |made| && (|made| - cur) % |buf| == 0
    ensures buf[next..cur] == made[|made| - (cur - next)..]
  {
    var n, base := |buf|, |made| - cur;
    forall x | next <= x < cur ensures buf[x] == made[base + x] {
      assert HeldAt(buf, made, base + x);
      SamePlace(base + x, base, 0, n);
      SmallMod(x, n);
    }
  }

  class OutputBuffer {
    const wrapping: bool          // no TINFL_FLAG_USING_NON_WRAPPING_OUTPUT_BUF
    const buf: array<byte>        // pOut_buf_start
    var size: nat                 // pOut_buf_end, as an index
    var next: nat                 // pOut_buf_next, as an index
    var cur: nat                  // pOut_buf_cur, as an index
    var turns: nat                // how often the caller will make room
    var check: nat                // m_check_adler32
    var given: seq<byte>          // what the calls that have returned gave
    ghost const preset: seq<byte> // what a ring holds at first
    ghost const cap: nat          // how many bytes there will be room for, with those
    ghost var made: seq<byte>     // what the ring held at first, and all bytes put

    ghost predicate Sizes()
      reads this
    {
      next <= cur <= size <= buf.Length &&
      if wrapping then
        next == 0 && size == buf.Length == DICT_SIZE == |preset| <= |made| && cap % DICT_SIZE == 0 &&
        |made| + (size - cur) + DICT_SIZE * turns == cap
      else
        preset == [] && |made| == cur && cap == buf.Length == GrownTimes(size, turns)
    }

    ghost predicate Accounts()
      reads this
    {
      |preset + given| + (cur - next) == |made| && preset + given <= made && check == Adler32(1, given) < 0x1_0000_0000
    }

    ghost predicate Valid()
      reads this, buf
      ensures Valid() ==> |made| + (size - cur) <= cap && cur <= size <= buf.Length
    {
      Sizes() && Accounts() && RingHolds(buf[..], made)
    }

    /** A buffer of `size` bytes that is enlarged `turns` times. */
    constructor Growing(size: nat, turns: nat)
      ensures Valid() && !wrapping && made == [] && this.turns == turns && cap == GrownTimes(size, turns) && preset == []
      ensures fresh(this) && fresh(buf)
    {
      wrapping, cap, preset := false, GrownTimes(size, turns), [];
      buf := new byte[GrownTimes(size, turns)];
      this.size, next, cur, this.turns, check, given, made := size, 0, 0, turns, 1, [], [];
    }

    /** The given ring, which is emptied `turns` times. */
    constructor Ring(ring: array<byte>, turns: nat)
      requires ring.Length == DICT_SIZE
      ensures Valid() && wrapping && buf == ring && made == preset == ring[..] && this.turns == turns
      ensures cap == DICT_SIZE * (turns + 2)
      ensures fresh(this)
    {
      wrapping, cap, preset := true, DICT_SIZE * (turns + 2), ring[..];
      buf := ring;
      size, next, cur, this.turns, check, given, made := DICT_SIZE, 0, 0, turns, 1, [], ring[..];
      new;
      forall x | 0 <= x < |made| ensures HeldAt(buf[..], made, x) { SmallMod(x, |made|); }
    }

    lemma Place()
      requires Sizes()
      ensures cur <= |made| <= cap && (buf.Length > 0 ==> (|made| - cur) % buf.Length == 0) && (wrapping || cur == |made|)
      ensures |made| + (size - cur) <= cap && (turns == 0 ==> |made| + (size - cur) == cap)
    {
      if wrapping {
        assert |made| - cur == cap - DICT_SIZE * (turns + 1);
      } else {
      }
    }

    method PutByte(c: byte)
      requires Valid() && cur < size
      modifies this`cur, this`made, buf
      ensures Valid() && made == old(made) + [c] && cur == old(cur) + 1
    {
      hide RingHolds, GrownTimes, Adler32;
      Place();
      PlaceOf(|made|, cur, buf.Length);
      RingSnoc(buf[..], made, cur, c);
      ghost var b := buf[..];
      buf[cur] := c;
      assert buf[..] == b[cur := c];
      cur, made := cur + 1, made + [c];
    }

    /** The end of a call: its bytes go to the caller, and into the checksum. */
    method Return()
      requires Valid()
      modifies this`given, this`check
      ensures Sizes() && preset + given == made && check == Adler32(1, given) < 0x1_0000_0000
    {
      hide RingHolds, GrownTimes, Adler32;
      Place();
      if next < cur { LastBytes(buf[..], made, next, cur); }
      var piece := buf[next..cur];
      AdlerConcat(1, given, piece);
      check := Update(check, piece);
      given := given + piece;
    }

    /** The call returns `TINFL_STATUS_HAS_MORE_OUTPUT`; the next one, if there is one, has room. */
    method Renew() returns (ok: bool)
      requires Valid() && cur >= size
      modifies this
      ensures Valid() && made == old(made) && (ok ==> cur < size && turns < old(turns))
      ensures !ok ==> |made| == cap
    {
      hide RingHolds, Adler32;
      Place();
      if turns == 0 { return false; }
      Return();
      if wrapping {
        cur := 0;
      } else {
        next, size := cur, Grown(size);
      }
      turns := turns - 1;
      ok := true;
    }

    /** On to a call that has room, if there is one. */
    method AwaitRoom() returns (ok: bool)
      requires Valid()
      modifies this
      ensures Valid() && made == old(made) && (if ok then cur < size else |made| == cap)
    {
      hide Sizes, Accounts, RingHolds, GrownTimes, Adler32;
      while cur >= size
        invariant Valid() && made == old(made)
        decreases turns
      {
        ok := Renew();
        if !ok { return; }
      }
      ok := true;
    }

    /** The byte `back` before the next one stands at that distance around the buffer. */
    lemma Source(from: nat, back: nat)
      requires Valid() && 1 <= back <= |made| && back <= buf.Length && from <= |made| && (|made| - from) % buf.Length == 0
      requires wrapping || from == |made|
      ensures var src := if wrapping then (from - back) % buf.Length else from - back;
              0 <= src < buf.Length && buf[src] == made[|made| - back]
    {
      hide GrownTimes, Adler32;
      var m := |made| - back;
      assert HeldAt(buf[..], made, m);
      SamePlace(|made|, |made| - from, back, buf.Length);
      if !wrapping { SmallMod(m, buf.Length); }
    }

    /** One byte of a match, `done` bytes into it. */
    method CopyByte(from: nat, back: nat, ghost before: seq<byte>, ghost done: nat)
      requires Valid() && cur < size && 1 <= back <= |before| && back <= buf.Length && made == Copy(before, done, back)
      requires from <= |made| && (|made| - from) % buf.Length == 0 && (wrapping || from == |made|)
      modifies this`cur, this`made, buf
      ensures Valid() && cur == old(cur) + 1 && made == Copy(before, done + 1, back)
    {
      hide RingHolds, GrownTimes, Adler32;
      Source(from, back);
      CopySnoc(before, done, back);
      PutByte(buf[if wrapping then (from - back) % buf.Length else from - back]);
    }

    /** What is put of a match as long as there is room: all of it, or as much as the room there
        will ever be. */
    ghost predicate Put(before: seq<byte>, len: nat, back: nat, full: bool)
      requires 1 <= back <= |before|
      reads this
    {
      if full then |before| <= cap < |before| + len && made == Copy(before, cap - |before|, back)
      else made == Copy(before, len, back)
    }

    /** Byte by byte, with the source going around the ring, over as many calls as it takes. */
    method CopySlow(len: nat, back: nat) returns (full: bool)
      requires Valid() && 1 <= back <= |made| && back <= buf.Length
      modifies this, buf
      ensures Valid() && Put(old(made), len, back, full)
    {
      hide Sizes, Accounts, RingHolds, GrownTimes, Adler32;
      Place();
      ghost var before, base := made, |made| - cur;
      var from, counter := cur, len;
      while counter > 0
        invariant Valid() && 0 <= counter <= len && made == Copy(before, len - counter, back) && from + base == |made|
        invariant wrapping || base == 0
      {
        var ok := AwaitRoom();
        if !ok { return true; }
        CopyByte(from, back, before, len - counter);
        counter := counter - 1;
        from := from + 1;
      }
      full := false;
    }

    /** Bytes that are all there at once. */
    method PutBytes(bs: seq<byte>)
      requires Valid() && |bs| <= size - cur
      modifies this`cur, this`made, buf
      ensures Valid() && made == old(made) + bs && cur == old(cur) + |bs|
    {
      hide Sizes, Accounts, RingHolds, GrownTimes, Adler32;
      for i := 0 to |bs|
        invariant Valid() && made == old(made) + bs[..i] && cur == old(cur) + i
      {
        PutByte(bs[i]);
      }
    }

    /** Three bytes a round, when neither the source nor the copy meets the end of the buffer. */
    method CopyQuick(src: nat, len: nat, back: nat)
      requires Valid() && 3 <= len && 1 <= back <= |made| && back <= buf.Length
      requires cur + len <= size && src + len <= size && src == (cur - back) % buf.Length
      modifies this`cur, this`made, buf
      ensures Valid() && made == Copy(old(made), len, back)
    {
      hide RingHolds, GrownTimes, Adler32;
      Place();
      PlaceOf(|made|, cur, buf.Length);
      SmallMod(cur, buf.Length);
      CopiedStart(buf[..], made, cur, back);
      ghost var before := made;
      cur := CopyFast(buf, cur, src, back, len, made);
      made := Copy(before, len, back);
    }

    /** The copying of a match, on the path its place and its source call for. */
    method CopyMatch(len: nat, back: nat) returns (full: bool)
      requires Valid() && 3 <= len && 1 <= back <= |made| && back <= buf.Length
      modifies this, buf
      ensures Valid() && Put(old(made), len, back, full)
    {
      hide RingHolds, GrownTimes, Adler32, Copy;
      var src := if wrapping then (cur - back) % buf.Length else cur - back;
      if !wrapping { SmallMod(src, buf.Length); }
      if Max(cur, src) + len > size {
        full := CopySlow(len, back);
      } else {
        CopyQuick(src, len, back);
        full := false;
      }
    }
  }
}
