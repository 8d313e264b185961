/** The list operations the dataset code takes from Python and from its
    utility module: two-argument `max`, `flatten_list_of_lists`, and list
    repetition `[x] * n`. */
module Lists {

  /** Python's `max(a, b)` on integers. */
  function Max(a: int, b: int): (r: int)
    ensures r >= a && r >= b
    ensures r == a || r == b
  {
    if a >= b then a else b
  }

  /** `flatten_list_of_lists`: the inner lists concatenated in order. */
  function Flatten<T>(xss: seq<seq<T>>): seq<T>
  {
    if xss == [] then [] else Flatten(xss[..|xss| - 1]) + xss[|xss| - 1]
  }

  /** Python's `[x] * n`: `n` copies of `x`, and the empty list when `n`
      is zero or negative (repetition never fails and never truncates). */
  function Replicate<T>(x: T, n: int): (r: seq<T>)
    ensures |r| == if n <= 0 then 0 else n
    ensures forall k :: 0 <= k < |r| ==> r[k] == x
  {
    if n <= 0 then [] else Replicate(x, n - 1) + [x]
  }

  /** A non-empty list is its prefix followed by its last element. */
  lemma LastSplit<T>(s: seq<T>)
    requires s != []
    ensures s == s[..|s| - 1] + [s[|s| - 1]]
  {
  }
}
