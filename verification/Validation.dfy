/** Checks on text that records carry. Base64 itself is a parameter. */
module Validation {
  import opened Options

  datatype CoreError =
    | InvalidIdentifier | InvalidClock | BatchTooLarge | EmptyBatch | InvalidMutation | OwnershipMismatch
    | LogicalClockOutOfRange | FutureMutation | DuplicateMutation | DuplicateRecordClock
    | UnsupportedCipher | InvalidManifest | SizeLimitExceeded | InvalidStorageKey | InvalidWrappedKey

  datatype Checked<T> = Passed(value: T) | Failed(error: CoreError)

  /** Number of bytes a text decodes to, if it is Base64. */
  type Decoder = string -> Option<nat>

  const SHA256_BYTES := 32

  predicate Alphanumeric(c: char) {
    'a' <= c <= 'z' || 'A' <= c <= 'Z' || '0' <= c <= '9'
  }

  predicate Doubled(s: string, c: char) {
    exists i :: 0 <= i < |s| - 1 && s[i] == c && s[i + 1] == c
  }

  predicate PortableIdentifier(s: string) {
    && 0 < |s| <= 128 && !Doubled(s, '.')
    && forall i :: 0 <= i < |s| ==> Alphanumeric(s[i]) || s[i] in "-_.:@"
  }

  predicate StorageKey(s: string, limit: nat) {
    && 16 <= |s| <= limit && s[0] != '/' && s[|s| - 1] != '/' && !Doubled(s, '.') && !Doubled(s, '/')
    && forall i :: 0 <= i < |s| ==> Alphanumeric(s[i]) || s[i] in "/-_."
  }

  /** `s` decodes to at least `low` and at most `high` bytes, and to some byte in any case; `limit` bounds the work. */
  predicate DecodesTo(decode: Decoder, s: string, limit: nat, low: nat, high: nat) {
    && 0 < |s| <= (limit + 2) / 3 * 4
    && decode(s).Some?
    && 0 < decode(s).value <= limit
    && low <= decode(s).value <= high
  }

  predicate Sha256(decode: Decoder, s: string) {
    DecodesTo(decode, s, SHA256_BYTES, SHA256_BYTES, SHA256_BYTES)
  }

  /** Basic Latin letters and digits, by code point. */
  predicate LetterOrDigit(n: int) {
    48 <= n <= 57 || 65 <= n <= 90 || 97 <= n <= 122
  }

  /** Up to 128 letters, digits, `-`, `_`, `.`, `:` and `@`, and no two full stops in a row. */
  lemma PortableExactly(s: string)
    ensures PortableIdentifier(s) <==>
      && 1 <= |s| <= 128
      && (forall i :: 0 <= i < |s| - 1 && s[i] == '.' ==> s[i + 1] != '.')
      && forall i :: 0 <= i < |s| ==> LetterOrDigit(s[i] as int) || s[i] as int in {45, 95, 46, 58, 64}
  {
  }

  /** At least 16 letters, digits, `/`, `-`, `_` and `.`; slashes only inside; no two full stops or slashes in a row. */
  lemma StorageKeyExactly(s: string, limit: nat)
    ensures StorageKey(s, limit) <==>
      && 16 <= |s| <= limit && s[0] != '/' && s[|s| - 1] != '/'
      && (forall i :: 0 <= i < |s| - 1 && s[i] == '.' ==> s[i + 1] != '.')
      && (forall i :: 0 <= i < |s| - 1 && s[i] == '/' ==> s[i + 1] != '/')
      && forall i :: 0 <= i < |s| ==> LetterOrDigit(s[i] as int) || s[i] as int in {47, 45, 95, 46}
  {
  }
}
