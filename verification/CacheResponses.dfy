/** The way of a response: completed by memory, queued, shown on the pins, and taken by
    the cache whose tag it carries. */
module CacheResponses {
  import opened Bits
  import opened DataCache
  import opened SystemBus
  import opened CacheInvariant

  lemma {:induction false} BeatsConcat(q: seq<Beat>, s: seq<Beat>, tag: nat)
    ensures TagBeats(q + s, tag) == TagBeats(q, tag) + TagBeats(s, tag)
  {
    if q == [] {
      assert q + s == s;
    } else {
      assert (q + s)[1..] == q[1..] + s;
      BeatsConcat(q[1..], s, tag);
      var first := if q[0].tag == tag then [q[0].data] else [];
      assert first + (TagBeats(q[1..], tag) + TagBeats(s, tag)) == first + TagBeats(q[1..], tag) + TagBeats(s, tag);
    }
  }

  lemma {:induction false} NoBeats(q: seq<Beat>, tag: nat)
    requires forall i :: 0 <= i < |q| ==> q[i].tag != tag
    ensures TagBeats(q, tag) == []
  {
    if q != [] { NoBeats(q[1..], tag); }
  }

  lemma {:induction false} AllBeats(q: seq<Beat>, tag: nat)
    requires forall i :: 0 <= i < |q| ==> q[i].tag == tag
    ensures |TagBeats(q, tag)| == |q| && forall i :: 0 <= i < |q| ==> TagBeats(q, tag)[i] == q[i].data
  {
    if q != [] { AllBeats(q[1..], tag); }
  }

  lemma AroundLine(n: nat, i: nat)
    requires i < 8
    ensures Around(64 * n, i) == 64 * n + 8 * i
  {
  }

  /** The beats of a completed read are the words of its line, in order. */
  lemma LineBeats(ram: seq<byte>, n: nat, tag: nat)
    ensures var q := Beats(ram, 64 * n, tag, 8);
            |TagBeats(q, tag)| == 8 && forall j :: 0 <= j < 8 ==> TagBeats(q, tag)[j] == WordOf(RamLine(ram, n), j)
  {
    hide RamWord, RamLine, Around, WordOf, TagBeats;
    var q := Beats(ram, 64 * n, tag, 8);
    AllBeats(q, tag);
    forall j | 0 <= j < 8 ensures TagBeats(q, tag)[j] == WordOf(RamLine(ram, n), j) {
      AroundLine(n, j);
      RamLineWord(ram, n, j);
    }
  }

  lemma CompleteKeeps(b: Bus, a: nat, out: bool, n: nat, k: nat)
    requires RespOk(b, out, n, k) && a in b.addrToTag
    ensures RespOk(Complete(b, a), out, n, k) && (!out ==> DataBeats(Complete(b, a).txQueue) == DataBeats(b.txQueue))
  {
    hide RamLine, RamWord, Around, WordOf, TagBeats;
    var tag := b.addrToTag[a];
    var q := Beats(b.ram, a, tag, 8);
    BeatsConcat(b.txQueue, q, READ_TAG);
    assert DataBeats(b.txQueue) + [] == DataBeats(b.txQueue);
    if tag == READ_TAG {
      LineBeats(b.ram, n, READ_TAG);
      assert [] + DataBeats(q) == DataBeats(q);
    } else {
      NoBeats(q, READ_TAG);
    }
  }

  /** However many reads complete, the responses stay in order behind those queued. */
  lemma {:induction false} CompletesKeep(b: Bus, done: seq<nat>, out: bool, n: nat, k: nat)
    requires RespOk(b, out, n, k)
    ensures var c := CompleteAll(b, done);
            RespOk(c, out, n, k) && (!out ==> DataBeats(c.txQueue) == DataBeats(b.txQueue)) && b.txQueue <= c.txQueue &&
            c == b.(txQueue := c.txQueue, addrToTag := c.addrToTag)
  {
    if done != [] {
      hide RespOk, DataBeats, Beats;
      var t, a := done[..|done| - 1], done[|done| - 1];
      CompletesKeep(b, t, out, n, k);
      if a in CompleteAll(b, t).addrToTag {
        CompleteKeeps(CompleteAll(b, t), a, out, n, k);
      }
    }
  }

  /** Taking the front beat: the data cache moves on by one word, the other side leaves its words alone. */
  lemma PopKeeps(b: Bus, out: bool, n: nat, k: nat)
    requires RespOk(b, out, n, k) && b.txQueue != []
    ensures var c := b.(txQueue := b.txQueue[1..]);
            if b.txQueue[0].tag == READ_TAG then
              k < 8 && RespOk(c, out, n, k + 1) && b.txQueue[0].data == WordOf(RamLine(b.ram, n), k)
            else RespOk(c, out, n, k) && DataBeats(c.txQueue) == DataBeats(b.txQueue)
  {
    hide RamLine, WordOf;
    var d := DataBeats(b.txQueue);
    if b.txQueue[0].tag == READ_TAG {
      assert d[1..] == DataBeats(b.txQueue[1..]);
      assert d[k - k] == WordOf(RamLine(b.ram, n), k);
      forall j | k + 1 <= j < 8 ensures DataBeats(b.txQueue[1..])[j - (k + 1)] == WordOf(RamLine(b.ram, n), j) {
        assert d[j - k] == d[1..][j - (k + 1)];
      }
    } else {
      assert d == DataBeats(b.txQueue[1..]);
    }
  }
}
