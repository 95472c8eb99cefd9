/** The frame format of transport/frame.go. */
module FrameCodec {
  import opened Bits
  import opened Conver
  import opened Slices

  const HEAD: nat := 8

  const TYPE_NIL: nat := 65500
  const TYPE_EXIT: nat := 65503

  /** A frame with the position where its data ends and its extend part begins. */
  datatype FrameSlice = FrameSlice(splitLength: int, base: Bytes) {
    function GetData(): Bytes
      requires HEAD <= splitLength <= |base|
    {
      base[HEAD..splitLength]
    }

    function GetExtend(): Bytes
      requires 0 <= splitLength <= |base|
    {
      base[splitLength..]
    }

    function GetFrameType(): nat
      requires |base| >= HEAD
    {
      BytesToUint16(base[6..8])
    }

    /** WriteToBytes: the whole frame at an offset of the target, or nothing if it does not fit. */
    method WriteToBytes(dst: array<byte>, from: nat, to: nat) returns (n: nat)
      requires from <= to <= dst.Length
      modifies dst
      ensures |base| > to - from ==> n == 0 && dst[..] == old(dst[..])
      ensures |base| <= to - from ==>
                n == |base| && dst[..] == old(dst[..from]) + base + old(dst[from + |base|..])
    {
      if |base| > to - from {
        return 0;
      }
      Copy(dst, from, base);
      return |base|;
    }
  }

  /** The bytes of a frame: total length, extend length and type, then data and extend. */
  function EncodeFrame(ft: nat, d: Bytes, ex: Bytes): (b: Bytes)
    ensures |b| == HEAD + |d| + |ex|
  {
    Uint32Bytes(HEAD + |d| + |ex|) + Uint16Bytes(|ex|) + Uint16Bytes(ft) + d + ex
  }

  /** NewFrameSlice */
  method NewFrameSlice(ft: nat, d: Bytes, ex: Bytes) returns (f: FrameSlice)
    requires ft < TWO16
    ensures f == FrameSlice(HEAD + |d|, EncodeFrame(ft, d, ex))
  {
    var l := HEAD + |d| + |ex|;
    var dl := HEAD + |d|;
    var tmp := new byte[l](_ => 0);
    CopyUint32(tmp, 0, l);
    CopyUint16(tmp, 4, |ex|);
    CopyUint16(tmp, 6, ft);
    assert tmp[..8] == Uint32Bytes(l) + Uint16Bytes(|ex|) + Uint16Bytes(ft);
    Copy(tmp, HEAD, d);
    assert tmp[..8] == Uint32Bytes(l) + Uint16Bytes(|ex|) + Uint16Bytes(ft);
    assert tmp[8..dl] == d;
    Copy(tmp, dl, ex);
    assert tmp[..8] == Uint32Bytes(l) + Uint16Bytes(|ex|) + Uint16Bytes(ft);
    assert tmp[8..dl] == d && tmp[dl..] == ex;
    assert tmp[..] == tmp[..8] + tmp[8..dl] + tmp[dl..];
    f := FrameSlice(dl, tmp[..]);
  }

  /** DecodeByBytes: the split position is the length less the recorded extend length. */
  function DecodeByBytes(b: Bytes): FrameSlice
    requires |b| >= 6
  {
    FrameSlice(|b| - BytesToUint16(b[4..6]), b)
  }

  lemma EncodedFields(ft: nat, d: Bytes, ex: Bytes)
    ensures var b := EncodeFrame(ft, d, ex);
            && BytesToUint32(b[..4]) == |b| % TWO32
            && BytesToUint16(b[4..6]) == |ex| % TWO16
            && BytesToUint16(b[6..8]) == ft % TWO16
            && b[HEAD..HEAD + |d|] == d && b[HEAD + |d|..] == ex
  {
    var b := EncodeFrame(ft, d, ex);
    assert b[..4] == Uint32Bytes(HEAD + |d| + |ex|);
    assert b[4..6] == Uint16Bytes(|ex|);
    assert b[6..8] == Uint16Bytes(ft);
    Uint32RoundTrip(|b|);
    Uint16RoundTrip(|ex|);
    Uint16RoundTrip(ft);
  }

  /**
   Decoding an encoded frame gives back type, data and extend exactly if the extend part is shorter
   than 65536 bytes; a longer one is cut off modulo 65536 and the rest of it shows up in the data.
   */
  lemma FrameRoundTrip(ft: nat, d: Bytes, ex: Bytes)
    requires ft < TWO16
    ensures var f := DecodeByBytes(EncodeFrame(ft, d, ex));
            && f.GetFrameType() == ft
            && HEAD <= f.splitLength <= |f.base|
            && (f.GetData() == d && f.GetExtend() == ex <==> |ex| < TWO16)
            && |f.GetExtend()| == |ex| % TWO16
            && f.GetData() + f.GetExtend() == d + ex
  {
    EncodedFields(ft, d, ex);
    var b := EncodeFrame(ft, d, ex);
    var f := DecodeByBytes(b);
    assert f.splitLength == HEAD + |d| + (|ex| - |ex| % TWO16);
    assert b[HEAD..f.splitLength] + b[f.splitLength..] == b[HEAD..HEAD + |d|] + b[HEAD + |d|..];
  }
}
