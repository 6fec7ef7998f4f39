/** Posted receives of a queue pair and the copy into their memory (kernel/ibdev.c). */
module RecvWqe {
  import opened Prelude
  import Segments

  datatype WcStatus = Success | LenErr | ProtErr | GeneralErr

  /** A posted receive: its buffer, and how much of it the memory region still maps. */
  datatype Wqe = Wqe(id: nat, buf: seq<u8>, reach: nat)

  /** tbv_rx_copy_to_wqe: the buffer, the bytes delivered, and whether the copy worked. */
  function CopyToWqe(w: Wqe, offset: nat, payload: seq<u8>): (r: (Wqe, nat, bool)) {
    var len := if offset >= |w.buf| then 0 else if |payload| < |w.buf| - offset then |payload| else |w.buf| - offset;
    if len == 0 then (w, 0, true)
    else if offset + len > w.reach then (w, 0, false)
    else (w.(buf := Segments.Patch(w.buf, offset, payload)), len, true)
  }
}
