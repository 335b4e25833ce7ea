/** The two clipboard endpoint adapters (Wayland through wl-paste/wl-copy,
    X11 through xclip), reduced to the pure filters that sit around the
    external tool calls: the read filter turns a tool outcome into the
    content the engine sees, and the write guard decides whether a
    requested write reaches the tool at all.
 */
module Adapter {
  import opened Fingerprints

  datatype Option<T> = None | Some(value: T)

  /** Which clipboard an adapter serves. */
  datatype Side = Wayland | X11

  /** What one run of the paste tool produced: its standard output, or a
      failure because the command deadline passed, or any other failure
      (tool missing, nothing on the clipboard, non-zero exit). */
  datatype ReadOutcome = Ok(out: Content) | Timeout | Failed

  /** A call of `setWaylandClipboard` (to = Wayland) or `setX11Clipboard`
      (to = X11) with the given content. */
  datatype Write = Write(to: Side, content: Content)

  /** The content a read hands to the engine: the tool's output when the
      tool succeeded and the output is within `limit` bytes, and the empty
      content in every other case. Both adapters filter alike. */
  function Read(o: ReadOutcome, limit: int): (c: Content)
    ensures c == [] || (o == Ok(c) && |c| <= limit)
    ensures o.Ok? && |o.out| <= limit ==> c == o.out
    ensures o.Ok? && |o.out| > limit ==> c == []
    ensures !o.Ok? ==> c == []
  {
    match o
    case Ok(out) => if |out| > limit then [] else out
    case Timeout => []
    case Failed => []
  }

  /** Content that came through the read filter passes it unchanged when it
      is offered again: the filter never shortens or alters what it admits. */
  lemma ReadIsIdempotent(o: ReadOutcome, limit: int)
    ensures Read(Ok(Read(o, limit)), limit) == Read(o, limit)
  {
  }

  /** A timeout and any other tool failure look the same to the engine, and
      so does output over the size limit. */
  lemma FailuresLookEmpty(out: Content, limit: int)
    ensures Read(Timeout, limit) == Read(Failed, limit) == []
    ensures |out| > limit ==> Read(Ok(out), limit) == Read(Failed, limit)
  {
  }

  /** The write guard: a request whose content is longer than `limit` bytes
      is dropped before the copy tool is started; any other request is
      passed to the tool unchanged. The result is what the tool receives. */
  function Guard(w: Write, limit: int): (passed: Option<Write>)
    ensures passed.Some? <==> |w.content| <= limit
    ensures passed.Some? ==> passed.value == w
  {
    if |w.content| > limit then None else Some(w)
  }
}
