/** What body streams consume and produce: finite sequences of polls. */
module ByteSource {
  import opened Wire

  /** One poll of a source; a source that has no items left has ended. */
  datatype Item = Chunk(bytes: Text) | Failure | NotReady

  /** One poll of a body. */
  datatype Frame<+E> = Data(bytes: Text) | Error(error: E) | End | Pending

  /** The bytes a source yields, and the bytes a list of frames carries. */
  function Bytes(items: seq<Item>): Text {
    if items == [] then []
    else Bytes(items[..|items| - 1]) + (if items[|items| - 1].Chunk? then items[|items| - 1].bytes else [])
  }

  function Emitted<E>(frames: seq<Frame<E>>): Text {
    if frames == [] then []
    else Emitted(frames[..|frames| - 1]) + (if frames[|frames| - 1].Data? then frames[|frames| - 1].bytes else [])
  }

  lemma {:induction false} BytesPrefix(items: seq<Item>, k: nat)
    requires k <= |items|
    ensures Bytes(items[..k]) <= Bytes(items)
    decreases |items| - k
  {
    if k == |items| {
      assert items[..k] == items;
    } else {
      BytesPrefix(items, k + 1);
      assert items[..k + 1][..k] == items[..k];
    }
  }

  lemma BytesSnoc(items: seq<Item>, k: nat)
    requires k < |items|
    ensures Bytes(items[..k + 1]) == Bytes(items[..k]) + if items[k].Chunk? then items[k].bytes else []
  {
    assert items[..k + 1][..k] == items[..k];
  }

  lemma EmittedSnoc<E>(frames: seq<Frame<E>>, frame: Frame<E>)
    ensures Emitted(frames + [frame]) == Emitted(frames) + if frame.Data? then frame.bytes else []
  {
    assert (frames + [frame])[..|frames|] == frames;
  }
}
