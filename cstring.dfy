/**
  The NUL-terminated string layer the queue relies on, reduced to what the
  queue needs: a string that can be held in a C buffer has no embedded '\0',
  and a buffer is read back as the characters before its first '\0'.
 */
module CString {

  /** A string that a NUL-terminated buffer can hold unchanged. */
  predicate NoNul(s: string) {
    '\0' !in s
  }

  /**
    The string a terminated buffer holds, as `strlen` measures it: every
    character before the first '\0', or the whole buffer when it has none.
   */
  function Str(buf: seq<char>): (s: string)
    ensures |s| <= |buf| && s == buf[..|s|]
    ensures NoNul(s)
    ensures |s| < |buf| ==> buf[|s|] == '\0'
  {
    if buf == [] || buf[0] == '\0' then "" else [buf[0]] + Str(buf[1..])
  }

  /** A buffer holding `s`, a terminator and anything after it reads back as `s`. */
  lemma {:induction false} StrOfTerminated(s: string, rest: seq<char>)
    requires NoNul(s)
    ensures Str(s + ['\0'] + rest) == s
  {
    if s != [] {
      assert (s + ['\0'] + rest)[1..] == s[1..] + ['\0'] + rest;
      StrOfTerminated(s[1..], rest);
    }
  }
}
