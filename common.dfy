/**
 * Shared vocabulary of the etcmaint model: optional values, the ways the
 * tools fail, and a few sequence helpers used by every module.
 */
module Common {

  datatype Option<T> = None | Some(value: T)

  /** The ways a command of the three tools ends without a result. */
  datatype Failure =
    | EmtError(msg: string)     // etcmaint raises EmtError, main() prints it and exits
    | Abort(msg: string)        // v0.1 and etcmerger print the message and sys.exit(1)
    | PyError(name: string)     // an uncaught Python exception (ValueError, IndexError)
    | GitError(cmd: string)     // v0.1 and etcmerger abort with the output of this failed git command

  datatype Result<T> = Ok(value: T) | Err(failure: Failure)

  /** The elements of a sequence, as a set. */
  function Elems<T>(s: seq<T>): set<T>
  {
    set x | x in s
  }

  lemma AppendAssoc<T>(a: seq<T>, b: seq<T>, c: seq<T>)
    ensures (a + b) + c == a + (b + c)
  {
  }

  predicate Distinct<T(==)>(s: seq<T>)
  {
    forall i, j :: 0 <= i < j < |s| ==> s[i] != s[j]
  }

  /**
   * The elements of s that satisfy f, in their order in s (a Python list
   * comprehension with an `if` clause).
   */
  function Filter<T>(s: seq<T>, f: T -> bool): (r: seq<T>)
    ensures |r| <= |s|
    decreases |s|
  {
    if s == [] then []
    else Filter(s[..|s| - 1], f) + (if f(s[|s| - 1]) then [s[|s| - 1]] else [])
  }

  /** Filter keeps exactly the elements that satisfy f. */
  lemma {:induction false} FilterMembers<T(!new)>(s: seq<T>, f: T -> bool)
    ensures forall x :: x in Filter(s, f) <==> x in s && f(x)
    decreases |s|
  {
    if s != [] {
      var u := s[..|s| - 1];
      FilterMembers(u, f);
      assert s == u + [s[|s| - 1]];
    }
  }

  /** Filtering one more element appends it when it is kept. */
  lemma FilterSnoc<T(!new)>(s: seq<T>, x: T, f: T -> bool)
    ensures Filter(s + [x], f) == Filter(s, f) + (if f(x) then [x] else [])
  {
    assert (s + [x])[..|s + [x]| - 1] == s;
  }

  /** Filtering a list without duplicates gives a list without duplicates. */
  lemma {:induction false} FilterDistinct<T(!new)>(s: seq<T>, f: T -> bool)
    requires Distinct(s)
    ensures Distinct(Filter(s, f))
    decreases |s|
  {
    if s != [] {
      var u := s[..|s| - 1];
      assert Distinct(u);
      FilterDistinct(u, f);
      FilterMembers(u, f);
      var x := s[|s| - 1];
      assert x !in u;
      assert x !in Filter(u, f);
    }
  }

  /** A sequence and the map that gives each of its elements a value. */
  function MapSeq<T, U>(s: seq<T>, f: T -> U): (r: seq<U>)
    ensures |r| == |s|
    ensures forall i :: 0 <= i < |s| ==> r[i] == f(s[i])
  {
    seq(|s|, i requires 0 <= i < |s| => f(s[i]))
  }

  lemma MapSeqAppend<T, U>(s: seq<T>, t: seq<T>, f: T -> U)
    ensures MapSeq(s + t, f) == MapSeq(s, f) + MapSeq(t, f)
  {
    var l, r := MapSeq(s + t, f), MapSeq(s, f) + MapSeq(t, f);
    assert |l| == |r|;
    forall i | 0 <= i < |l|
      ensures l[i] == r[i]
    {
      if i < |s| {
        assert (s + t)[i] == s[i];
      } else {
        assert (s + t)[i] == t[i - |s|];
      }
    }
  }

  /** The map restricted to the keys in ks. */
  function Restrict<K, V>(m: map<K, V>, ks: set<K>): (r: map<K, V>)
    ensures r.Keys == m.Keys * ks
    ensures forall k :: k in r ==> r[k] == m[k]
  {
    map k | k in m.Keys && k in ks :: m[k]
  }

  /** The map without the keys in ks (`git rm`). */
  function Without<K, V>(m: map<K, V>, ks: set<K>): (r: map<K, V>)
    ensures r.Keys == m.Keys - ks
    ensures forall k :: k in r ==> r[k] == m[k]
  {
    map k | k in m.Keys && k !in ks :: m[k]
  }
}
