/** Shared vocabulary of the cache policies: optional values, the two Python
    exceptions the policies raise, and facts about duplicate-free sequences. */
module Common {

  /** Python's `None` versus a value. */
  datatype Option<T> = None | Some(value: T)

  /** The exceptions raised by the policies: `ValueError` for a bad capacity,
      a bad insertion probability or a `position` query on an absent key;
      `KeyError` for a dictionary lookup of a missing key. */
  datatype Error = ValueError | KeyError

  datatype Result<T> = Ok(value: T) | Err(error: Error)

  /** No element occurs twice in `s`. */
  ghost predicate Distinct<T>(s: seq<T>)
  {
    forall i, j :: 0 <= i < j < |s| ==> s[i] != s[j]
  }

  /** The position of `x` in `s` (its first occurrence). */
  ghost function IndexOf<T>(s: seq<T>, x: T): (i: nat)
    requires x in s
    ensures i < |s| && s[i] == x
  {
    if s[0] == x then 0 else 1 + IndexOf(s[1..], x)
  }

  /** A sequence is its prefix, its element at `i` and its suffix; in a
      duplicate-free one that element occurs in neither side. */
  lemma SplitAt<T>(s: seq<T>, i: nat)
    requires Distinct(s) && i < |s|
    ensures s == s[..i] + [s[i]] + s[i + 1..]
    ensures s[i] !in s[..i] && s[i] !in s[i + 1..]
  {
    SplitAtAny(s, i);
  }

  lemma SplitAtAny<T>(s: seq<T>, i: nat)
    requires i < |s|
    ensures s == s[..i] + [s[i]] + s[i + 1..]
  {
  }

  /** Dropping the last position is taking the prefix. */
  lemma TrimIsRemove<T>(s: seq<T>)
    requires |s| > 0
    ensures s[..|s| - 1] + s[|s|..] == s[..|s| - 1]
  {
  }

  /** Putting a new element in front keeps a sequence duplicate-free. */
  lemma DistinctPush<T>(s: seq<T>, x: T)
    requires Distinct(s) && x !in s
    ensures Distinct([x] + s)
  {
    var r := [x] + s;
    forall a, b | 0 <= a < b < |r| ensures r[a] != r[b] {
      assert r[b] == s[b - 1];
      if a > 0 { assert r[a] == s[a - 1]; }
    }
  }

  /** Dropping position `i` of a duplicate-free sequence keeps it duplicate-free
      and removes exactly the element at `i`. */
  lemma DistinctRemove<T>(s: seq<T>, i: nat)
    requires Distinct(s) && i < |s|
    ensures Distinct(s[..i] + s[i+1..])
    ensures forall x :: x in s[..i] + s[i+1..] <==> x in s && x != s[i]
  {
    var r := s[..i] + s[i+1..];
    assert forall j :: 0 <= j < |r| ==> r[j] == if j < i then s[j] else s[j+1];
    forall x | x in s && x != s[i] ensures x in r {
      var j :| 0 <= j < |s| && s[j] == x;
      assert r[if j < i then j else j - 1] == x;
    }
  }

  /** The set of elements of a sequence. */
  ghost function Elems<T>(s: seq<T>): set<T>
  {
    if s == [] then {} else {s[0]} + Elems(s[1..])
  }

  /** `Elems(s)` holds exactly the elements of `s`. */
  lemma {:induction false} ElemsMembers<T>(s: seq<T>)
    ensures forall x | x in Elems(s) :: x in s
    ensures forall x | x in s :: x in Elems(s)
  {
    if s != [] {
      ElemsMembers(s[1..]);
      assert forall x :: x in s <==> x == s[0] || x in s[1..];
    }
  }

  /** A duplicate-free sequence has as many distinct elements as positions. */
  lemma {:induction false} ElemsCard<T>(s: seq<T>)
    requires Distinct(s)
    ensures |Elems(s)| == |s|
  {
    if s != [] {
      assert Distinct(s[1..]);
      ElemsCard(s[1..]);
      ElemsMembers(s[1..]);
      assert s[0] !in s[1..];
    }
  }

  /** The elements of a sequence with one more element in front. */
  lemma ElemsCons<T>(x: T, s: seq<T>)
    ensures Elems([x] + s) == {x} + Elems(s)
  {
    assert ([x] + s)[1..] == s;
  }

  /** Dropping position `i` of a duplicate-free sequence drops exactly that
      element from its set of elements. */
  lemma ElemsRemove<T>(s: seq<T>, i: nat)
    requires Distinct(s) && i < |s|
    ensures Elems(s[..i] + s[i + 1..]) == Elems(s) - {s[i]}
  {
    var r := s[..i] + s[i + 1..];
    DistinctRemove(s, i);
    ElemsMembers(s);
    ElemsMembers(r);
  }

  /** `list(s)` for a Python set: every element once, in some order. */
  method SetToSeq<T>(s: set<T>) returns (r: seq<T>)
    ensures Distinct(r)
    ensures forall x :: x in r <==> x in s
  {
    var rest := s;
    r := [];
    while rest != {}
      invariant rest <= s
      invariant Distinct(r)
      invariant forall x :: x in r <==> x in s && x !in rest
      decreases rest
    {
      var x :| x in rest;
      r := r + [x];
      rest := rest - {x};
    }
  }
}
