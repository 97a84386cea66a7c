/** Small shared vocabulary: an optional value and JavaScript's `startsWith`. */
module Base {

  /** A value that may be absent (`null`/`undefined` in the application). */
  datatype Option<+T> = None | Some(value: T)

  /** `s.startsWith(p)`: compares the first `|p|` characters of `s` with `p`. */
  function StartsWith(s: string, p: string): (r: bool)
    ensures r <==> |p| <= |s| && s[..|p|] == p
  {
    if p == [] then true
    else if s == [] then false
    else s[0] == p[0] && StartsWith(s[1..], p[1..])
  }
}
