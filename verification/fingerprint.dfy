/** Clipboard content and its fingerprint.

    Clipboard content is handled as raw bytes: the size limit compares the
    byte length of the content (Go's `len` on a string). The fingerprint the
    engine keeps per side is a SHA-256 hex digest; it is only ever compared
    for equality, so it is modelled by an injective digest constructor, and
    the zero value the engine starts from is a separate constructor that no
    digest can equal.
 */
module Fingerprints {

  newtype Byte = b: int | 0 <= b < 256

  /** The text held by one clipboard, as the bytes the tools exchange. */
  type Content = seq<Byte>

  /** `Unset` is the zero value the engine's fingerprint fields start with;
      `Digest(c)` stands for the hex digest of content `c`. A hex digest is
      always 64 characters long, so it is never the zero value. */
  datatype Fingerprint = Unset | Digest(of: Content)

  /** The fingerprint of `c`, assuming SHA-256 has no collisions. */
  function H(c: Content): (f: Fingerprint)
    ensures f != Unset
  {
    Digest(c)
  }

  /** Equal fingerprints mean equal content, so comparing digests decides
      equality of the content itself. */
  lemma HInjective(a: Content, b: Content)
    ensures H(a) == H(b) <==> a == b
  {
  }
}
