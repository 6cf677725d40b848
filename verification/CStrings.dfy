/** C strings: what comes before the first null byte. */
module CStrings {

  function CString(a: string): (s: string)
    ensures '\0' !in s && |s| <= |a|
  {
    if a == "" || a[0] == '\0' then "" else [a[0]] + CString(a[1..])
  }

  lemma {:induction false} WholeCString(a: string)
    ensures CString(a) == a <==> '\0' !in a
    decreases |a|
  {
    if a != "" {
      WholeCString(a[1..]);
      assert a == [a[0]] + a[1..];
    }
  }
}
