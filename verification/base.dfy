/** Failure-carrying wrappers shared by every module of the model.

    The simulation code signals failure in two ways: a missing value
    (`Option`) and a Python exception that escapes the operation (`Result`
    with a `PyError`).  Exceptions are never caught by the modelled code, so
    an `Err` always means "the operation aborts here".
 */
module Base {

  datatype Option<+T> = None | Some(value: T)

  /** The exceptions the modelled code can raise. */
  datatype PyError =
    | AttributeError(attribute: string)   // read of an attribute never assigned
    | NameError(name: string)             // use of a name that was never imported
    | TypeError(reason: string)           // comparison of incompatible values

  datatype Result<+T> = Ok(value: T) | Err(error: PyError)

  function Max(a: int, b: int): (m: int)
    ensures m >= a && m >= b
    ensures m == a || m == b
  {
    if a >= b then a else b
  }

  function Min(a: int, b: int): (m: int)
    ensures m <= a && m <= b
    ensures m == a || m == b
  {
    if a <= b then a else b
  }

  /** The position of the first occurrence of `v` in `s`. */
  function IndexOf<T(==)>(s: seq<T>, v: T): (i: nat)
    requires v in s
    ensures i < |s| && s[i] == v
    ensures forall j :: 0 <= j < i ==> s[j] != v
  {
    if s[0] == v then 0 else 1 + IndexOf(s[1..], v)
  }

  /** An explicit random index below the number of choices picks itself. */
  lemma SmallModulus(k: nat, n: nat)
    requires k < n
    ensures k % n == k
  {
  }

  /** `s` without its element at position `i` (Python's `list.pop(i)`). */
  function RemoveAt<T>(s: seq<T>, i: nat): (r: seq<T>)
    requires i < |s|
    ensures |r| == |s| - 1
    ensures forall k :: 0 <= k < i ==> r[k] == s[k]
    ensures forall k :: i <= k < |r| ==> r[k] == s[k + 1]
  {
    s[..i] + s[i + 1..]
  }

  lemma RemoveAtMultiset<T>(s: seq<T>, i: nat)
    requires i < |s|
    ensures multiset(RemoveAt(s, i)) + multiset{s[i]} == multiset(s)
  {
    assert s == s[..i] + [s[i]] + s[i + 1..];
  }

  /** `list.remove`: drop the first occurrence of `v`. */
  function RemoveFirst<T(==)>(s: seq<T>, v: T): (r: seq<T>)
    requires v in s
    ensures |r| == |s| - 1
    ensures r == s[..IndexOf(s, v)] + s[IndexOf(s, v) + 1..]
    ensures multiset(r) == multiset(s) - multiset{v}
  {
    var i := IndexOf(s, v);
    assert s == s[..i] + [v] + s[i + 1..];
    s[..i] + s[i + 1..]
  }

  /** Removing an element just appended to a list it was not in restores
      the list. */
  lemma RemoveFirstOfAppended<T>(s: seq<T>, v: T)
    requires v !in s
    ensures RemoveFirst(s + [v], v) == s
  {
    var t := s + [v];
    assert forall j :: 0 <= j < |s| ==> t[j] == s[j];
    assert IndexOf(t, v) == |s|;
    assert t[..|s|] == s;
  }
}
