/** The optional value used wherever the dashboard works with `null`, `undefined`
    or a value that might be missing. */
module Wrappers {

  datatype Option<+T> = None | Some(value: T)

  /** `.filter(Boolean)` over the results of a `map` whose callback returns `null` or an
      object: the objects, in order. */
  function Somes<T>(s: seq<Option<T>>): (r: seq<T>)
    ensures |r| <= |s|
  {
    if s == [] then []
    else Somes(s[..|s| - 1]) + (if s[|s| - 1].Some? then [s[|s| - 1].value] else [])
  }

  /** The filter keeps exactly the present values. */
  lemma {:induction false} SomesExactly<T>(s: seq<Option<T>>, x: T)
    ensures x in Somes(s) <==> Some(x) in s
  {
    if s != [] {
      SomesExactly(s[..|s| - 1], x);
      assert s == s[..|s| - 1] + [s[|s| - 1]];
    }
  }
}
