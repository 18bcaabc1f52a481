/** Words and cache lines as byte lanes, the least significant first. */
module Lanes {
  import opened Bits

  /** The number a list of lanes stands for. */
  function Val(w: seq<byte>): nat {
    if w == [] then 0 else w[0] + 256 * Val(w[1..])
  }

  /** The low `n` lanes of a number. */
  function ToLanes(v: nat, n: nat): (w: seq<byte>)
    ensures |w| == n
  {
    if n == 0 then [] else [v % 256] + ToLanes(v / 256, n - 1)
  }

  lemma {:induction false} LanesOfVal(w: seq<byte>)
    ensures ToLanes(Val(w), |w|) == w
  {
    if w != [] {
      LanesOfVal(w[1..]);
      var v: nat := Val(w[1..]);
      assert Val(w) == w[0] as int + 256 * v;
      assert Val(w) % 256 == w[0] && Val(w) / 256 == v;
    }
  }

  function NoLanes(n: nat): (z: seq<byte>)
    ensures |z| == n
  {
    seq(n, (i: nat) => 0)
  }

  /** Shifts by whole lanes, within a fixed width. */
  function Up(x: seq<byte>, k: nat): (r: seq<byte>)
    ensures |r| == |x|
  {
    if k >= |x| then NoLanes(|x|) else NoLanes(k) + x[..|x| - k]
  }

  function Down(x: seq<byte>, k: nat): (r: seq<byte>)
    ensures |r| == |x|
  {
    if k >= |x| then NoLanes(|x|) else x[k..] + NoLanes(k)
  }

  /** A write with lane enables: the lanes from `start` on, `count` of them. */
  function Masked(old_: seq<byte>, data: seq<byte>, start: nat, count: nat): (r: seq<byte>)
    requires |old_| == |data|
    ensures |r| == |old_|
  {
    seq(|old_|, (i: nat) requires i < |old_| => if start <= i < start + count then data[i] else old_[i])
  }
}
