/** Bit output and bit input, written independently, are inverse. */
module BitFields {
  import opened Bits
  import opened Inflate
  import opened RoundTrip
  import opened BitOutput
  import opened BitInput
  import opened BlockFlush

  datatype Field = Field(value: nat, width: nat)

  predicate AllFields(fs: seq<Field>) {
    forall i :: 0 <= i < |fs| ==> fs[i].width <= 16 && fs[i].value < Pow2(fs[i].width)
  }

  function FieldBits(fs: seq<Field>): seq<bool> {
    if fs == [] then [] else FieldBits(fs[..|fs| - 1]) + ToBits(fs[|fs| - 1].value, fs[|fs| - 1].width)
  }

  lemma FieldsSnoc(fs: seq<Field>, k: nat)
    requires k < |fs|
    ensures FieldBits(fs[..k + 1]) == FieldBits(fs[..k]) + ToBits(fs[k].value, fs[k].width)
  {
    assert fs[..k + 1][..k] == fs[..k];
  }

  /** Every value can be read where its bits stand. */
  lemma {:induction false} FieldsAt(fs: seq<Field>, s: seq<bool>, p: nat, k: nat)
    requires AllFields(fs) && At(s, p, FieldBits(fs)) && k < |fs|
    ensures Num(s, p + |FieldBits(fs[..k])|, fs[k].width) == fs[k].value
    decreases |fs|
  {
    hide At, ToBits, Num, Pow2;
    var n := |fs| - 1;
    var last := ToBits(fs[n].value, fs[n].width);
    AtSplit(s, p, FieldBits(fs[..n]), last);
    if k == n {
      AtNum(s, p + |FieldBits(fs[..n])|, fs[n].value, fs[n].width);
    } else {
      FieldsAt(fs[..n], s, p, k);
      assert fs[..n][..k] == fs[..k];
    }
  }

  lemma NoFields(fs: seq<Field>)
    ensures FieldBits(fs[..0]) == []
  {
  }

  method PutFields(w: BitWriter, fs: seq<Field>)
    requires w.Valid() && AllFields(fs)
    modifies w, w.buf
    ensures w.Valid() && w.put == old(w.put) + FieldBits(fs)
  {
    hide BitWriter.Valid, ToBits, Pow2, FieldBits;
    ghost var put := w.put;
    NoFields(fs);
    assert put + [] == put;
    for k := 0 to |fs|
      invariant w.Valid() && w.put == put + FieldBits(fs[..k])
    {
      w.PutBits(fs[k].value, fs[k].width);
      FieldsSnoc(fs, k);
      assert put + FieldBits(fs[..k]) + ToBits(fs[k].value, fs[k].width) == put + FieldBits(fs[..k + 1]);
    }
    assert fs[..|fs|] == fs;
  }

  method GetFields(r: BitReader, ghost fs: seq<Field>, widths: seq<nat>) returns (back: seq<nat>)
    requires r.Valid() && AllFields(fs) && At(r.S(), r.Pos(), FieldBits(fs))
    requires |widths| == |fs| && forall i :: 0 <= i < |fs| ==> widths[i] == fs[i].width
    modifies r
    ensures |back| == |fs| && forall i :: 0 <= i < |fs| ==> back[i] == fs[i].value
  {
    hide BitReader.Valid, BitReader.Pos, BitReader.S, ToBits, Pow2, FieldBits, At, Num;
    ghost var s, p := r.S(), r.Pos();
    NoFields(fs);
    back := [];
    for k := 0 to |widths|
      invariant r.Valid() && r.Pos() == p + |FieldBits(fs[..k])|
      invariant |back| == k && forall i :: 0 <= i < k ==> back[i] == fs[i].value
    {
      FieldsAt(fs, s, p, k);
      FieldsSnoc(fs, k);
      var b := r.GetBits(widths[k]);
      back := back + [b];
    }
  }

  lemma Room(w: BitWriter)
    requires w.Valid() && |w.put| < 8 * OUT_BUF_END
    ensures w.pos < OUT_BUF_END && |w.put| == 8 * w.pos + w.bitsIn && ToBits(w.bitBuffer, 0) == []
  {
    hide BytesToBits, Pow2;
  }

  lemma Stands(s: seq<bool>, f: seq<bool>, put: seq<bool>)
    requires s == put && f <= put
    ensures At(s, 0, f)
  {
  }

  /** Values of up to 16 bits, put one after another and padded to a byte boundary, are read
      back from the bytes with the same widths. */
  method FieldsThereAndBack(fs: seq<Field>) returns (back: seq<nat>)
    requires AllFields(fs) && |FieldBits(fs)| + 7 < 8 * OUT_BUF_END
    ensures |back| == |fs| && forall i :: 0 <= i < |fs| ==> back[i] == fs[i].value
  {
    hide BitWriter.Valid, BitReader.Valid, ToBits, Pow2, FieldBits;
    var w := new BitWriter();
    PutFields(w, fs);
    PutPadding(w);
    Room(w);
    w.NothingDropped();
    var bs := w.buf[..w.pos];
    assert [] + FieldBits(fs) == FieldBits(fs);
    var r := new BitReader([bs]);
    OnePiece(bs);
    Stands(BytesToBits(bs), FieldBits(fs), w.put);
    back := GetFields(r, fs, seq(|fs|, (i: nat) requires i < |fs| => fs[i].width));
  }
}
