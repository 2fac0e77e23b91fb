/** The procfs write callback: copy the caller's bytes, allocate a node, parse
    it and append it at the tail of the pending list. */
module WritePath {
  import opened Requests

  /** The code the callback returns when the copy or the allocation fails (-ENOMEM). */
  const ENOMEM: int := 12

  /** The pending list after a write, and the callback's return value. */
  datatype WriteResult = WriteResult(queue: seq<Request>, ret: int)

  /** One call of the write callback on a caller buffer `buf` of `|buf|` bytes.
      `copyOk` says whether `copy_from_user` copied every byte and `allocOk`
      whether `kmalloc` returned a node; the copy is attempted first. */
  function ProcWrite(queue: seq<Request>, buf: seq<char>, copyOk: bool, allocOk: bool): (r: WriteResult)
    ensures r.ret == -ENOMEM || r.ret == |buf|
    ensures r.ret == |buf| <==> copyOk && allocOk
    ensures copyOk && allocOk ==>
              && |r.queue| == |queue| + 1
              && r.queue[..|queue|] == queue
              && r.queue[|queue|] == Parse(buf)
    ensures !(copyOk && allocOk) ==> r.queue == queue
  {
    if !copyOk then WriteResult(queue, -ENOMEM)
    else if !allocOk then WriteResult(queue, -ENOMEM)
    else WriteResult(queue + [Parse(buf)], |buf|)
  }
}
