/** NUL-terminated strings, as C functions read them. */
module CStrings {
  import opened Basics

  /** The characters before the terminator; none of them is NUL. */
  type CString = s: string | '\0' !in s

  /** A read of s[i]; reading at the end yields the terminator, reading past
      it is not allowed. */
  function At(s: CString, i: nat): char
    requires i <= |s|
  {
    if i < |s| then s[i] else '\0'
  }

  /** strchr(): the first position of c, if any. */
  function StrChr(s: string, c: char): (r: Option<nat>)
    ensures r.Some? ==> r.value < |s| && s[r.value] == c && c !in s[..r.value]
    ensures r.None? ==> c !in s
  {
    if s == "" then None
    else if s[0] == c then Some(0)
    else
      match StrChr(s[1..], c)
      case None => None
      case Some(k) => assert s[..k + 1] == [s[0]] + s[1..][..k]; Some(k + 1)
  }

  function HexDigit(d: nat): char
    requires d < 16
  {
    if d < 10 then '0' + d as char else 'A' + (d - 10) as char
  }

  /** A number as printf's "%X" prints it. */
  function HexUpper(n: nat): (r: string)
    ensures 1 <= |r|
  {
    if n < 16 then [HexDigit(n)] else HexUpper(n / 16) + [HexDigit(n % 16)]
  }
}
