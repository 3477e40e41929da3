/** The dry-run bridge: a run with a fixed list of chunks, polled by its awaiter. */
module DryRun {
  import opened Bytes
  import opened LineSplit
  import opened Transcript

  class Run {
    const parts: seq<Bytes>
    var index: nat
    var cancelled: bool

    predicate Valid()
      reads this
    {
      index <= |parts|
    }

    constructor (parts: seq<Bytes>)
      ensures Valid() && index == 0 && !cancelled && this.parts == parts
    {
      this.parts, index, cancelled := parts, 0, false;
    }

    /** observe: the next chunk, or nothing once cancelled or exhausted. */
    method Observe() returns (text: Bytes)
      requires Valid()
      modifies this`index
      ensures Valid()
      ensures index == old(index) + (if old(index) < |parts| && !cancelled then 1 else 0)
      ensures text == if index > old(index) then parts[old(index)] else []
    {
      text := [];
      if index < |parts| && !cancelled {
        text := parts[index];
        index := index + 1;
      }
    }
  }

  /** await_run with _pump_once as its poll, while another thread may cancel the
      run at any moment: it ends, and an uncancelled run is handed on whole. */
  method AwaitRun(run: Run, stream: Stream)
    requires run.Valid() && run.index == 0 && stream.chunks == []
    requires Buffered(stream.fed, stream.pendingStream) == Delivered(stream.chunks)
    modifies run, stream
    ensures run.Valid() && (old(run.cancelled) ==> run.cancelled)
    ensures !run.cancelled ==> run.index == |run.parts|
    ensures Flat(stream.chunks) == Flat(run.parts[..run.index])
    ensures Buffered(stream.fed, stream.pendingStream) == Delivered(stream.chunks)
  {
    FlatEmpty(run.parts);
    while !run.cancelled && run.index < |run.parts|
      invariant run.Valid() && (old(run.cancelled) ==> run.cancelled)
      invariant Flat(stream.chunks) == Flat(run.parts[..run.index])
      invariant Buffered(stream.fed, stream.pendingStream) == Delivered(stream.chunks)
      decreases |run.parts| - run.index, if run.cancelled then 0 else 1
    {
      if * { run.cancelled := true; }
      var before := run.index;
      Poll(run, stream);
      if * { run.cancelled := true; }
      if run.index == before {
        var lost := run.Observe();
      }
    }
    if * { run.cancelled := true; }
    Poll(run, stream);
  }

  method Poll(run: Run, stream: Stream)
    requires run.Valid() && Flat(stream.chunks) == Flat(run.parts[..run.index])
    requires Buffered(stream.fed, stream.pendingStream) == Delivered(stream.chunks)
    modifies run`index, stream
    ensures run.Valid() && Flat(stream.chunks) == Flat(run.parts[..run.index])
    ensures run.index == old(run.index) + (if old(run.index) < |run.parts| && !run.cancelled then 1 else 0)
    ensures Buffered(stream.fed, stream.pendingStream) == Delivered(stream.chunks)
  {
    hide Flat, Delivered;
    var text := run.Observe();
    FlatAppend(stream.chunks, [text]);
    FlatOne(text);
    if run.index > old(run.index) {
      FlatAppend(run.parts[..old(run.index)], [text]);
      assert run.parts[..run.index] == run.parts[..old(run.index)] + [text];
    }
    stream.transcriptOffset := stream.transcriptOffset + |text|;
    stream.EmitStream(text, false);
  }

  lemma FlatEmpty(parts: seq<Bytes>)
    ensures Flat(parts[..0]) == []
  {
  }
}
