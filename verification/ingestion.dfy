/**
  The sample and code buffers of an acquisition session. Each is a `float`
  array of 2*capacity slots with a write cursor counted in slots; one
  append stores a complex value in two consecutive slots.
 */
module Ingestion {
  import opened ComplexArith

  datatype Buffer = Buffer(data: seq<real>, count: int)

  /** Room for k more complex values after the cursor. */
  predicate HasRoom(b: Buffer, k: int) {
    0 <= b.count && b.count + 2 * k <= |b.data|
  }

  /**
    Stores `re` at the cursor and `im` right after it, then advances the
    cursor by two slots. There is no capacity check in the engine, so
    room for one value is the caller's obligation.
   */
  function Append(b: Buffer, re: real, im: real): (c: Buffer)
    requires HasRoom(b, 1)
    ensures |c.data| == |b.data|
    ensures c.count == b.count + 2
    ensures c.data[b.count] == re && c.data[b.count + 1] == im
    ensures forall k :: 0 <= k < |b.data| && k != b.count && k != b.count + 1 ==> c.data[k] == b.data[k]
  {
    Buffer(b.data[b.count := re][b.count + 1 := im], b.count + 2)
  }

  /** Appends the values of zs one after another, in order. */
  function AppendAll(b: Buffer, zs: seq<Complex>): Buffer
    requires HasRoom(b, |zs|)
    decreases |zs|
  {
    if |zs| == 0 then b else AppendAll(Append(b, zs[0].re, zs[0].im), zs[1..])
  }

  /**
    Appending a sequence of values lays them out interleaved from the
    cursor on: value k lands in slots count+2k and count+2k+1, the cursor
    moves by 2|zs|, and every slot outside that stretch keeps its value.
   */
  lemma {:induction false} AppendAllLayout(b: Buffer, zs: seq<Complex>)
    requires HasRoom(b, |zs|)
    ensures |AppendAll(b, zs).data| == |b.data|
    ensures AppendAll(b, zs).count == b.count + 2 * |zs|
    ensures forall k :: 0 <= k < |zs| ==>
              AppendAll(b, zs).data[b.count + 2 * k] == zs[k].re &&
              AppendAll(b, zs).data[b.count + 2 * k + 1] == zs[k].im
    ensures forall j :: 0 <= j < |b.data| && !(b.count <= j < b.count + 2 * |zs|) ==>
              AppendAll(b, zs).data[j] == b.data[j]
    decreases |zs|
  {
    if |zs| > 0 {
      var b' := Append(b, zs[0].re, zs[0].im);
      AppendAllLayout(b', zs[1..]);
      var c := AppendAll(b, zs);
      assert c == AppendAll(b', zs[1..]);
      forall k | 1 <= k < |zs|
        ensures c.data[b.count + 2 * k] == zs[k].re && c.data[b.count + 2 * k + 1] == zs[k].im
      {
        assert zs[1..][k - 1] == zs[k];
        assert b.count + 2 * k == b'.count + 2 * (k - 1);
      }
    }
  }

  /**
    Filling an empty window with n values leaves value k readable as
    complex value k of the buffer.
   */
  lemma FillWindow(b: Buffer, zs: seq<Complex>)
    requires b.count == 0 && HasRoom(b, |zs|)
    ensures |AppendAll(b, zs).data| == |b.data|
    ensures AppendAll(b, zs).count == 2 * |zs|
    ensures forall k :: 0 <= k < |zs| ==> At(AppendAll(b, zs).data, k) == zs[k]
  {
    AppendAllLayout(b, zs);
  }
}
