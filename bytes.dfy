/**
 * Bytes of a C string and the <ctype.h> classes the lexer uses, in the "C" locale.
 */
module Bytes {
  /** A `char` of the C source, read as the unsigned byte `(uint8_t)c`. */
  type Byte = c: char | c as int < 256 witness '\0'

  predicate IsDigit(c: Byte) { '0' <= c <= '9' }

  predicate IsAlpha(c: Byte) { 'A' <= c <= 'Z' || 'a' <= c <= 'z' }

  predicate IsAlnum(c: Byte) { IsAlpha(c) || IsDigit(c) }

  /** `isspace`: space, `\t`, `\n`, `\v`, `\f` and `\r`. */
  predicate IsSpace(c: Byte) { c == ' ' || '\t' <= c <= '\r' }

  /** The "C" locale classes: ten digits, six whitespace bytes, and no byte in two of the classes. */
  lemma ClassesListed(c: Byte)
    ensures IsDigit(c) <==> c in "0123456789"
    ensures IsSpace(c) <==> c in " \t\n\U{B}\U{C}\r"
    ensures !(IsDigit(c) && IsAlpha(c)) && !(IsSpace(c) && IsAlnum(c)) && !IsSpace('\0')
  {
    if IsDigit(c) {
      assert c == "0123456789"[c as int - '0' as int];
    }
    if '\t' <= c <= '\r' {
      assert c == " \t\n\U{B}\U{C}\r"[1 + (c as int - '\t' as int)];
    }
  }

  /** The characters of the C string stored at the start of `buf`: everything before the first NUL. */
  function CString(buf: seq<Byte>): (r: seq<Byte>)
    ensures r <= buf
    ensures '\0' !in r
    ensures |r| < |buf| ==> buf[|r|] == '\0'
  {
    if buf == [] || buf[0] == '\0' then [] else [buf[0]] + CString(buf[1..])
  }

  /** `strlen`: the index of the first NUL of a terminated buffer. */
  function StrLen(buf: seq<Byte>): (n: nat)
    requires '\0' in buf
    ensures n < |buf| && buf[n] == '\0'
    ensures forall i :: 0 <= i < n ==> buf[i] != '\0'
  {
    |CString(buf)|
  }

  /**
   * `strncpy(dst, buf + from, n)` followed by `dst[n] = '\0'`, read back as a C string:
   * at most `n` characters, stopping early at a NUL or at the end of the buffer.
   */
  function CopyString(buf: seq<Byte>, from: nat, n: nat): (r: seq<Byte>)
    ensures |r| <= n && '\0' !in r
    ensures from + n <= |buf| && (forall i :: from <= i < from + n ==> buf[i] != '\0') ==> r == buf[from..from + n]
    decreases n
  {
    if n == 0 || from >= |buf| || buf[from] == '\0' then []
    else [buf[from]] + CopyString(buf, from + 1, n - 1)
  }
}
