module Strings {
  import opened Options

  /** The two sides of the first `=`, or None without one. */
  function Cut(s: string): (r: Option<(string, string)>)
    ensures r.Some? ==> s == r.value.0 + "=" + r.value.1 && '=' !in r.value.0
    ensures r.None? ==> '=' !in s
  {
    if s == "" then None
    else if s[0] == '=' then Some(("", s[1..]))
    else match Cut(s[1..])
         case None => None
         case Some(p) => Some(([s[0]] + p.0, p.1))
  }
}
