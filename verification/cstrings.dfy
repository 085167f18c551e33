/** The view of a character buffer that C string functions have: everything before the first NUL. */
module CStrings {

  /** strlen: the index of the first NUL, or the whole buffer when there is none. */
  function StrLen(s: string): (n: nat)
    ensures n <= |s|
    ensures forall i :: 0 <= i < n ==> s[i] != '\0'
    ensures n < |s| ==> s[n] == '\0'
  {
    if s == [] || s[0] == '\0' then 0 else 1 + StrLen(s[1..])
  }

  /** The characters of the C string held in the buffer s. */
  function CString(s: string): (t: string)
    ensures |t| == StrLen(s) && NoNul(t)
    ensures t == s[..StrLen(s)]
  {
    s[..StrLen(s)]
  }

  predicate NoNul(s: string) {
    forall i :: 0 <= i < |s| ==> s[i] != '\0'
  }

  /** Dereferencing position p of a C string: the terminator (and, in this model, anything past it) reads as NUL. */
  function At(s: string, p: nat): char {
    if p < |s| then s[p] else '\0'
  }

  /** A buffer without NUL is its own C string. */
  lemma {:induction false} CStringNoNul(s: string)
    requires NoNul(s)
    ensures StrLen(s) == |s| && CString(s) == s
  {
    if s != [] {
      CStringNoNul(s[1..]);
    }
  }
}
