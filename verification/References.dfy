/** Text that enters the engine as an opaque reference. */
module References {
  type TwoBits = x: int | 0 <= x < 4

  /** A byte as its two-bit digits, highest first. */
  datatype Byte = Byte(d3: TwoBits, d2: TwoBits, d1: TwoBits, d0: TwoBits)
  type Bytes = seq<Byte>

  /** `str.isspace`, which is also what `str.strip` removes. */
  predicate IsSpace(c: char) {
    || '\U{9}' <= c <= '\U{D}' || '\U{1C}' <= c <= '\U{20}' || c == '\U{85}' || c == '\U{A0}' || c == '\U{1680}'
    || '\U{2000}' <= c <= '\U{200A}' || c == '\U{2028}' || c == '\U{2029}' || c == '\U{202F}' || c == '\U{205F}'
    || c == '\U{3000}'
  }

  const MAX_REFERENCE: nat := 256

  /** `_require_ref` of the Feishu connector. */
  predicate IsRef(s: string) {
    s != "" && |s| <= MAX_REFERENCE && forall i | 0 <= i < |s| :: !IsSpace(s[i])
  }

  type Digest = string

  /** A SHA-256 digest in lower-case hexadecimal. */
  predicate IsDigest(d: Digest) {
    |d| == 64 && forall i | 0 <= i < |d| :: d[i] in "0123456789abcdef"
  }
}
