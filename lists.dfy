/** Python's `list.index(x)`, `list.remove(x)` and filtering comprehensions on sequences. */
module Lists {
  import opened Wrappers

  /** The position of the first element equal to `x`. */
  function IndexOf<T(==)>(s: seq<T>, x: T): (k: nat)
    requires x in s
    ensures k < |s| && s[k] == x && x !in s[..k]
  {
    if s[0] == x then 0
    else
      var k := IndexOf(s[1..], x);
      assert s[..k + 1] == [s[0]] + s[1..][..k];
      k + 1
  }

  /** `list.remove(x)` when `x` is present; the unchanged list otherwise. */
  function RemoveFirst<T(==)>(s: seq<T>, x: T): (r: seq<T>)
    ensures x !in s ==> r == s
    ensures x in s ==> exists k :: 0 <= k < |s| && s[k] == x && x !in s[..k] && r == s[..k] + s[k + 1..]
    ensures multiset(r) == multiset(s) - multiset{x}
  {
    if x in s then
      var k := IndexOf(s, x);
      assert s == s[..k] + [s[k]] + s[k + 1..];
      s[..k] + s[k + 1..]
    else s
  }

  /** The comprehension `[x for x in s if p(x)]`. */
  function Filter<T>(s: seq<T>, p: T -> bool): (r: seq<T>)
    ensures |r| <= |s|
    ensures forall i :: 0 <= i < |r| ==> p(r[i]) && r[i] in s
    ensures forall i :: 0 <= i < |s| && p(s[i]) ==> s[i] in r
  {
    if s == [] then []
    else (if p(s[0]) then [s[0]] else []) + Filter(s[1..], p)
  }

  /**
   * The first element of `s` that lies in `p`, as `[x for x in s if x in p][0]` when that
   * list is not empty.
   */
  function FirstIn<T(==)>(s: seq<T>, p: set<T>): (r: Option<T>)
    ensures r.None? <==> forall i :: 0 <= i < |s| ==> s[i] !in p
    ensures r.Some? ==> r.value in p
    ensures r.Some? ==> exists k :: 0 <= k < |s| && s[k] == r.value && (forall j :: 0 <= j < k ==> s[j] !in p)
  {
    if s == [] then None
    else if s[0] in p then Some(s[0])
    else
      var r := FirstIn(s[1..], p);
      assert r.Some? ==> exists k :: 0 <= k < |s| && s[k] == r.value && (forall j :: 0 <= j < k ==> s[j] !in p) by {
        if r.Some? {
          var k :| 0 <= k < |s| - 1 && s[1..][k] == r.value && (forall j :: 0 <= j < k ==> s[1..][j] !in p);
          assert forall j :: 0 <= j < k + 1 ==> s[j] !in p by {
            forall j | 0 <= j < k + 1 ensures s[j] !in p {
              if j > 0 { assert s[j] == s[1..][j - 1]; }
            }
          }
        }
      }
      assert r.None? ==> forall i :: 0 <= i < |s| ==> s[i] !in p by {
        if r.None? {
          forall i | 0 <= i < |s| ensures s[i] !in p {
            if i > 0 { assert s[i] == s[1..][i - 1]; }
          }
        }
      }
      r
  }
}
