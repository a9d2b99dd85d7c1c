/** The byte-level contract of the stored face encoding: numpy's
    `np.frombuffer(blob)` with its default element type float64, and its
    inverse `ndarray.tobytes()`, with which the caller stores an encoding.
    Each element is kept as its eight raw bytes; reading them as a double is
    left to the abstract face library. */
module Float64Buffer {
  import opened Wrappers

  const ElementSize: nat := 8

  /** The eight raw bytes of one float64 element. */
  type Float64Bits = s: seq<bv8> | |s| == ElementSize witness [0, 0, 0, 0, 0, 0, 0, 0]

  /** A face encoding: a vector of float64 elements (128 of them from the face library). */
  type Encoding = seq<Float64Bits>

  /** numpy's `ValueError` text for a buffer whose length is not a multiple of eight. */
  const SizeError := "buffer size must be a multiple of element size"

  /** Splits a whole number of eight-byte groups into elements, in order. */
  function Chunks(b: seq<bv8>): (v: Encoding)
    requires |b| % ElementSize == 0
    ensures |v| * ElementSize == |b|
    ensures forall i :: 0 <= i < |v| ==> v[i] == b[i * ElementSize .. i * ElementSize + ElementSize]
    decreases |b|
  {
    if |b| == 0 then []
    else
      var rest := Chunks(b[ElementSize..]);
      assert forall i :: 0 <= i < |rest| ==>
        b[ElementSize..][i * ElementSize .. i * ElementSize + ElementSize]
          == b[(i + 1) * ElementSize .. (i + 1) * ElementSize + ElementSize];
      [b[..ElementSize]] + rest
  }

  /** `np.frombuffer(b)`: the elements of `b`, or numpy's error when its
      length is not a multiple of the element size. */
  function FromBuffer(b: seq<bv8>): (r: Result<Encoding>)
    ensures r.Err? <==> |b| % ElementSize != 0
    ensures r.Err? ==> r.error == SizeError
    ensures r.Ok? ==> |r.value| * ElementSize == |b|
  {
    if |b| % ElementSize != 0 then Err(SizeError) else Ok(Chunks(b))
  }

  /** `ndarray.tobytes()`: the elements' bytes laid end to end. */
  function ToBuffer(v: Encoding): (b: seq<bv8>)
    ensures |b| == |v| * ElementSize
    decreases |v|
  {
    if |v| == 0 then [] else v[0] + ToBuffer(v[1..])
  }

  /** Reading back a stored encoding gives the encoding that was stored. */
  lemma {:induction false} FromBufferToBuffer(v: Encoding)
    ensures FromBuffer(ToBuffer(v)) == Ok(v)
    decreases |v|
  {
    if |v| > 0 {
      FromBufferToBuffer(v[1..]);
      var b := ToBuffer(v);
      assert b[..ElementSize] == v[0];
      assert b[ElementSize..] == ToBuffer(v[1..]);
      assert |b| % ElementSize == 0;
      assert Chunks(b) == [v[0]] + v[1..] == v;
    }
  }

  /** Every blob that `np.frombuffer` accepts is the serialisation of what it returns. */
  lemma {:induction false} ToBufferFromBuffer(b: seq<bv8>)
    requires FromBuffer(b).Ok?
    ensures ToBuffer(FromBuffer(b).value) == b
    decreases |b|
  {
    if |b| > 0 {
      ToBufferFromBuffer(b[ElementSize..]);
      assert b == b[..ElementSize] + b[ElementSize..];
    }
  }
}
