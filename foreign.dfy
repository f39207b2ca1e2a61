/** The foreign code the backend calls and the model does not reimplement:
    Unicode normalisation, percent-encoding, base64 decoding, token signing,
    the local calendar and `JSON.parse`. Each is a total function the caller
    supplies; the properties the model needs of them are stated where they are
    used (see `FileNames.NfcKeepsSafeNames` and `FileNames.Injective`). */
module Foreign {
  import opened Common
  import opened Schema

  /** `getFullYear()`, `getMonth()` (zero-based) and `getDate()` of a time. */
  datatype CalendarDate = CalendarDate(year: nat, month0: nat, day: nat)

  datatype Codecs = Codecs(
    /** `s.normalize('NFC')` (Unicode Standard Annex #15). */
    nfc: string -> string,
    /** `encodeURIComponent(s)` (percent-encoding, section 2.1 of RFC 3986). */
    percentEncode: string -> string,
    /** `Buffer.from(s, 'base64')`. */
    base64Decode: string -> seq<bv8>,
    /** `jwt.sign(payload, secret, ...)`. */
    signToken: TokenPayload -> string,
    /** The local calendar date of a `createdAt` time. */
    localDate: nat -> CalendarDate,
    /** `JSON.parse(s)` followed by `Array.isArray` on a non-empty text: the
        array, or None when the text does not parse or is not an array. The
        empty text, which `JSON.parse` always refuses, is handled by the
        callers. */
    parseCcJson: string -> Option<seq<string>>)
}
