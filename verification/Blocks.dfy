/** The bits of DEFLATE blocks, sections 3.2.3 to 3.2.7 of RFC 1951: what the
    compressor is proved to write. */
module Blocks {
  import opened Bits
  import opened Canonical
  import opened Deflate

  // ---------------------------------------------------------------- tokens

  predicate HasCode(lens: seq<nat>, s: nat) {
    s < |lens| && 0 < lens[s]
  }

  predicate Codable(lit: seq<nat>, dist: seq<nat>, t: Token) {
    ValidToken(t) &&
    match t
    case Literal(b) => HasCode(lit, b)
    case Match(len, d) => HasCode(lit, LenSym(len - 3)) && HasCode(dist, DistSym(d - 1))
  }

  function TokenBits(lit: seq<nat>, dist: seq<nat>, t: Token): seq<bool>
    requires Codable(lit, dist, t)
  {
    match t
    case Literal(b) => CodeBits(lit, b)
    case Match(len, d) =>
      var l, k := len - 3, d - 1;
      CodeBits(lit, LenSym(l)) + ToBits(Low(l, LenExtra(l)), LenExtra(l)) +
      CodeBits(dist, DistSym(k)) + ToBits(Low(k, DistExtra(k)), DistExtra(k))
  }

  predicate AllCodable(lit: seq<nat>, dist: seq<nat>, ts: seq<Token>) {
    forall i :: 0 <= i < |ts| ==> Codable(lit, dist, ts[i])
  }

  function TokensBits(lit: seq<nat>, dist: seq<nat>, ts: seq<Token>): seq<bool>
    requires AllCodable(lit, dist, ts)
  {
    if ts == [] then []
    else TokensBits(lit, dist, ts[..|ts| - 1]) + TokenBits(lit, dist, ts[|ts| - 1])
  }

  /** The tokens of one block and its end-of-block code. */
  function BodyBits(lit: seq<nat>, dist: seq<nat>, ts: seq<Token>): seq<bool>
    requires AllCodable(lit, dist, ts) && HasCode(lit, 256)
  {
    TokensBits(lit, dist, ts) + CodeBits(lit, 256)
  }

  // ---------------------------------------------------------------- static codes

  function Repeat(v: nat, n: nat): (r: seq<nat>)
    ensures |r| == n
  {
    seq(n, (i: nat) => v)
  }

  function StaticLit(): (r: seq<nat>)
    ensures |r| == 288
  {
    Repeat(8, 144) + Repeat(9, 112) + Repeat(7, 24) + Repeat(8, 8)
  }

  function StaticDist(): (r: seq<nat>)
    ensures |r| == 32
  {
    Repeat(5, 32)
  }

  // ---------------------------------------------------------------- dynamic headers

  /** One element of the packed code lengths; symbols 16, 17 and 18 repeat. */
  datatype ClItem = ClItem(sym: nat, extra: nat)

  function ClExtraBits(sym: nat): nat {
    if sym == 16 then 2 else if sym == 17 then 3 else if sym == 18 then 7 else 0
  }

  function ClBase(sym: nat): nat {
    if sym == 18 then 11 else 3
  }

  predicate ValidItem(it: ClItem) {
    it.sym < 19 && it.extra < Pow2(ClExtraBits(it.sym))
  }

  /** The code lengths after one more item; a repeat needs something to repeat. */
  function UnpackItem(acc: seq<nat>, it: ClItem): Option<seq<nat>> {
    if it.sym < 16 then Some(acc + [it.sym])
    else if it.sym == 16 then
      if acc == [] then None else Some(acc + Repeat(acc[|acc| - 1], 3 + it.extra))
    else Some(acc + Repeat(0, ClBase(it.sym) + it.extra))
  }

  function Unpack(items: seq<ClItem>): Option<seq<nat>> {
    if items == [] then Some([])
    else
      var r := Unpack(items[..|items| - 1]);
      if r.Some? then UnpackItem(r.value, items[|items| - 1]) else None
  }

  /** The order in which the code length code lengths are sent (the "swizzle"). */
  function ClOrder(j: nat): (i: nat)
    requires j < 19
    ensures i < 19
  {
    if j < 3 then 16 + j else if j == 3 then 0
    else if j % 2 == 0 then 8 + (j - 4) / 2 else 7 - (j - 5) / 2
  }

  function ItemBits(cl: seq<nat>, it: ClItem): seq<bool>
    requires it.sym < |cl|
  {
    CodeBits(cl, it.sym) + ToBits(it.extra, ClExtraBits(it.sym))
  }

  predicate AllItems(cl: seq<nat>, items: seq<ClItem>) {
    forall i :: 0 <= i < |items| ==> ValidItem(items[i]) && HasCode(cl, items[i].sym)
  }

  function ItemsBits(cl: seq<nat>, items: seq<ClItem>): seq<bool>
    requires AllItems(cl, items)
  {
    if items == [] then []
    else ItemsBits(cl, items[..|items| - 1]) + ItemBits(cl, items[|items| - 1])
  }

  function ClBits(cl: seq<nat>, n: nat): (b: seq<bool>)
    requires |cl| == 19 && n <= 19
    ensures |b| == 3 * n
  {
    if n == 0 then [] else ClBits(cl, n - 1) + ToBits(cl[ClOrder(n - 1)], 3)
  }

  datatype Header = Header(hlit: nat, hdist: nat, hclen: nat, cl: seq<nat>, items: seq<ClItem>)

  function UsedSyms(lens: seq<nat>): nat {
    if lens == [] then 0
    else UsedSyms(lens[..|lens| - 1]) + (if lens[|lens| - 1] > 0 then 1 else 0)
  }

  /** A table the decompressor accepts: the code space is full, or at most one symbol is used. */
  predicate Acceptable(lens: seq<nat>) {
    ValidLens(lens) && (Kraft(lens) == 32768 || UsedSyms(lens) <= 1)
  }

  function HeaderLit(h: Header): seq<nat>
    requires Unpack(h.items).Some? && |Unpack(h.items).value| == h.hlit + h.hdist
  {
    Unpack(h.items).value[..h.hlit]
  }

  function HeaderDist(h: Header): seq<nat>
    requires Unpack(h.items).Some? && |Unpack(h.items).value| == h.hlit + h.hdist
  {
    Unpack(h.items).value[h.hlit..]
  }

  predicate ValidHeader(h: Header) {
    257 <= h.hlit <= 288 && 1 <= h.hdist <= 32 && 4 <= h.hclen <= 19 &&
    |h.cl| == 19 && (forall i :: 0 <= i < 19 ==> h.cl[i] < 8) &&
    (forall j :: h.hclen <= j < 19 ==> h.cl[ClOrder(j)] == 0) &&
    Acceptable(h.cl) && AllItems(h.cl, h.items) &&
    Unpack(h.items).Some? && |Unpack(h.items).value| == h.hlit + h.hdist &&
    Acceptable(HeaderLit(h)) && Acceptable(HeaderDist(h))
  }

  function HeaderBits(h: Header): seq<bool>
    requires ValidHeader(h)
  {
    ToBits(h.hlit - 257, 5) + ToBits(h.hdist - 1, 5) + ToBits(h.hclen - 4, 4) +
    ClBits(h.cl, h.hclen) + ItemsBits(h.cl, h.items)
  }

  // ---------------------------------------------------------------- blocks

  datatype Block =
    | Stored(data: seq<byte>)
    | Static(tokens: seq<Token>)
    | Dynamic(header: Header, tokens: seq<Token>)

  predicate ValidBlock(b: Block) {
    match b
    case Stored(data) => |data| < 65536
    case Static(ts) => AllCodable(StaticLit(), StaticDist(), ts)
    case Dynamic(h, ts) =>
      ValidHeader(h) && AllCodable(HeaderLit(h), HeaderDist(h), ts) && HasCode(HeaderLit(h), 256)
  }

  /** Zero bits up to the next byte boundary after bit `p`. */
  function Padding(p: nat): seq<bool> {
    Zeros((8 - p % 8) % 8)
  }

  lemma StaticHas256()
    ensures HasCode(StaticLit(), 256)
  {
  }

  function StoredBits(p: nat, data: seq<byte>): seq<bool>
    requires |data| < 65536
  {
    Padding(p) + ToBits(|data|, 16) + ToBits(65535 - |data|, 16) + BytesToBits(data)
  }

  /** The block type of section 3.2.3. */
  function KindOf(b: Block): nat {
    match b
    case Stored(_) => 0
    case Static(_) => 1
    case Dynamic(_, _) => 2
  }

  /** The bits of a block after its three header bits; `p` is where they start. */
  function Payload(p: nat, b: Block): seq<bool>
    requires ValidBlock(b)
  {
    match b
    case Stored(data) => StoredBits(p, data)
    case Static(ts) => StaticHas256(); BodyBits(StaticLit(), StaticDist(), ts)
    case Dynamic(h, ts) => HeaderBits(h) + BodyBits(HeaderLit(h), HeaderDist(h), ts)
  }

  /** The bits of a block whose first bit is bit `p` of the stream. */
  function BlockBits(p: nat, b: Block, final: bool): seq<bool>
    requires ValidBlock(b)
  {
    [final] + ToBits(KindOf(b), 2) + Payload(p + 3, b)
  }

  /** What a block adds to the output. */
  function BlockOutput(out: seq<byte>, b: Block): Option<seq<byte>> {
    match b
    case Stored(data) => Some(out + data)
    case Static(ts) => Expand(out, ts)
    case Dynamic(_, ts) => Expand(out, ts)
  }

  predicate AllValid(bs: seq<Block>) {
    forall i :: 0 <= i < |bs| ==> ValidBlock(bs[i])
  }

  /** A run of blocks from bit `p` on, none of them final. */
  function RunBits(p: nat, bs: seq<Block>): seq<bool>
    requires AllValid(bs)
  {
    if bs == [] then []
    else
      var r := RunBits(p, bs[..|bs| - 1]);
      r + BlockBits(p + |r|, bs[|bs| - 1], false)
  }

  function RunOutput(out: seq<byte>, bs: seq<Block>): Option<seq<byte>> {
    if bs == [] then Some(out)
    else
      var r := RunOutput(out, bs[..|bs| - 1]);
      if r.Some? then BlockOutput(r.value, bs[|bs| - 1]) else None
  }
}
