/** USB transfers and what it means for a sequence of them to be disciplined. */
module Wire {
  import opened Bytes

  /** A vendor control transfer out or in (every control read has value 0), or a bulk transfer in or out. */
  datatype Usb =
    | Out(req: u8, val: u16, idx: u16)
    | In(req: u8, idx: u16, len: nat)
    | BulkIn(len: nat)
    | BulkOut(data: seq<u8>)

  const ARM: Usb := Out(0x34, 3, 0)
  const RESET: Usb := Out(0x34, 0xff, 0)
  const STATUS_CMD: Usb := Out(0x6f, 0x20, 0x9180)
  const SELECT_CMD: Usb := Out(0x6f, 0, 0xff00)
  const CAPTURE_CMD: Usb := Out(0x6f, 0x1400, 0x9080)

  /** The vendor command that announces a transfer. */
  predicate IsCommand(u: Usb) { u.Out? && u.req == 0x6f }

  /** Transfer i, if a 0x6f command, comes directly after an arm with value 3. */
  predicate ArmedAt(w: seq<Usb>, i: nat)
    requires i < |w|
  {
    IsCommand(w[i]) ==> i > 0 && w[i - 1] == ARM
  }

  /** Transfer i, if a bulk read, comes directly after a 0x6f command. */
  predicate AnnouncedAt(w: seq<Usb>, i: nat)
    requires i < |w|
  {
    w[i].BulkIn? ==> i > 0 && IsCommand(w[i - 1])
  }

  /** Transfer i, if a bulk read, reads exactly as many bytes as the command before it announced. */
  predicate SizedAt(w: seq<Usb>, i: nat)
    requires i < |w|
  {
    w[i].BulkIn? ==> i > 0 && IsCommand(w[i - 1]) && w[i - 1].val == w[i].len
  }

  predicate Sized(w: seq<Usb>) { forall i :: 0 <= i < |w| ==> SizedAt(w, i) }

  /** Neither bulk output, nor any control output but arms and commands: no upload, reset or register write. */
  predicate NoUpload(u: Usb) { !u.BulkOut? && (u.Out? ==> u == ARM || IsCommand(u)) }

  /** Transfer i reads a captured frame: it follows the capture command, which always announces 5120 bytes. */
  predicate FrameReadAt(w: seq<Usb>, i: nat)
    requires i < |w|
  {
    w[i].BulkIn? && i > 0 && w[i - 1] == CAPTURE_CMD
  }

  /** What holds of every transfer of a device whose frames have n bytes. */
  predicate WireOk(n: nat, w: seq<Usb>) {
    forall i :: 0 <= i < |w| ==>
      && ArmedAt(w, i) && AnnouncedAt(w, i) && NoUpload(w[i])
      && (if FrameReadAt(w, i) then w[i].len == n else SizedAt(w, i))
  }

  /** Appending a transfer that fits what went before. */
  lemma Extend(n: nat, w: seq<Usb>, u: Usb)
    requires WireOk(n, w) && NoUpload(u)
    requires IsCommand(u) ==> w != [] && w[|w| - 1] == ARM
    requires u.BulkIn? ==>
               w != [] && IsCommand(w[|w| - 1])
               && (if w[|w| - 1] == CAPTURE_CMD then u.len == n else w[|w| - 1].val == u.len)
    ensures WireOk(n, w + [u])
  {
    var w' := w + [u];
    forall i | 0 <= i < |w'|
      ensures ArmedAt(w', i) && AnnouncedAt(w', i) && NoUpload(w'[i])
      ensures if FrameReadAt(w', i) then w'[i].len == n else SizedAt(w', i)
    {
      if i < |w| { assert ArmedAt(w, i) && AnnouncedAt(w, i); }
    }
  }
}
