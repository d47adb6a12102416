/** memide.c: the synchronous disk.  `Iderw` is what one call of iderw does when
    nothing else runs; the interrupt-driven driver (module Ide) and the buffer
    cache (module BufferCache) are stated against it. */
module MemDisk {
  import opened Blocks
  import opened Options

  /** struct buf, with its three flag bits as booleans and `id` its place in bcache.buf. */
  datatype Buf = Buf(id: nat, dev: int, blockno: int, busy: bool, valid: bool, dirty: bool, data: Block)

  function Key(b: Buf): Addr {
    (b.dev, b.blockno)
  }

  /** None stands for a kernel panic. */
  function Iderw(b: Buf, d: Disk): (r: Option<(Buf, Disk)>)
    ensures r.Some? <==> b.busy && (b.valid ==> b.dirty) && Key(b) in d
    ensures r.Some? ==>
              && r.value.1.Keys == d.Keys
              && r.value.0.valid && !r.value.0.dirty && r.value.0.busy && r.value.0.id == b.id && Key(r.value.0) == Key(b)
              && r.value.0.data == r.value.1[Key(b)] == (if b.dirty then b.data else d[Key(b)])
              && forall a :: a in d && a != Key(b) ==> r.value.1[a] == d[a]
  {
    if !b.busy || (b.valid && !b.dirty) || Key(b) !in d then None
    else if b.dirty then Some((b.(dirty := false, valid := true), d[Key(b) := b.data]))
    else Some((b.(data := d[Key(b)], valid := true), d))
  }
}
