/**
 * NUL-terminated C strings and the fixed-size heap buffer that sign.cpp
 * fills with `strcpy` and `strcat`.
 *
 * A C `char` is one byte. The model uses Dafny characters with code points
 * 1 through 255 for it: every such character stands for exactly one byte, and
 * the terminator (code point 0) never occurs inside a string's contents,
 * because every string here came from a `char*` and ends at its first NUL.
 */
module CStrings {
  import opened Wrappers

  /** A byte that may appear inside a C string (anything but the terminator). */
  predicate IsCChar(c: char) {
    0 < c as int < 256
  }

  /** The contents of a C string, without its terminating NUL. */
  type CString = s: string | forall i | 0 <= i < |s| :: IsCChar(s[i])

  /**
   * A `malloc`ed buffer of `cap` bytes holding a C string. `text` is
   * everything before the terminator; the terminator itself sits at index
   * `|text|`, so the buffer is written up to and including byte `|text|`.
   */
  datatype Buffer = Buffer(cap: nat, text: CString)

  /** True when the string and its terminator lie inside the allocation. */
  predicate Fits(b: Buffer) {
    |b.text| + 1 <= b.cap
  }

  // ---------------------------------------------------------------------------
  // As written: `strcpy` and `strcat` do not know the capacity and write past
  // the end of the allocation when the result is too long.
  // ---------------------------------------------------------------------------

  /** `strcpy(b, s)`: the buffer now holds `s`, whatever its capacity. */
  function Strcpy(b: Buffer, s: CString): Buffer {
    Buffer(b.cap, s)
  }

  /** `strcat(b, s)`: `s` is appended over the old terminator, whatever the capacity. */
  function Strcat(b: Buffer, s: CString): Buffer {
    Buffer(b.cap, b.text + s)
  }

  // ---------------------------------------------------------------------------
  // Corrected: the same append, refused when the result would not fit.
  // ---------------------------------------------------------------------------

  /** `strcat` that refuses to append past the end of the allocation. */
  function CheckedStrcat(b: Buffer, s: CString): Option<Buffer> {
    if |b.text| + |s| + 1 <= b.cap then Some(Strcat(b, s)) else None
  }
}
