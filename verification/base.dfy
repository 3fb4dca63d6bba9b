/** Small generic building blocks shared by the rest of the model: an optional
    value, order-preserving filters over sequences, and string joining. */
module Base {

  /** Python's `Optional[T]`: either nothing or a value. */
  datatype Option<+T> = None | Some(value: T)

  /** Keeps, in order, the payload of every element on which `f` returns a value
      (the shape of "loop, call, append when the result is not None"). */
  function FilterMap<A, B(!new)>(f: A -> Option<B>, s: seq<A>): (r: seq<B>)
    ensures |r| <= |s|
    ensures (forall i :: 0 <= i < |s| ==> f(s[i]).None?) ==> r == []
    decreases |s|
  {
    if s == [] then []
    else
      var rest := FilterMap(f, s[1..]);
      assert forall i :: 0 <= i < |s| - 1 ==> s[1..][i] == s[i + 1];
      match f(s[0])
      case Some(b) => [b] + rest
      case None => rest
  }

  /** An element is kept exactly when some input maps to it. */
  lemma {:induction false} FilterMapMembers<A, B(!new)>(f: A -> Option<B>, s: seq<A>)
    ensures forall b :: b in FilterMap(f, s) <==> exists i :: 0 <= i < |s| && f(s[i]) == Some(b)
    decreases |s|
  {
    if s != [] {
      FilterMapMembers(f, s[1..]);
      assert forall i :: 0 < i < |s| ==> s[i] == s[1..][i - 1];
      assert forall i :: 0 <= i < |s| - 1 ==> s[1..][i] == s[i + 1];
    }
  }

  /** FilterMap distributes over concatenation: each element contributes on its own. */
  lemma {:induction false} FilterMapAppend<A, B(!new)>(f: A -> Option<B>, a: seq<A>, b: seq<A>)
    ensures FilterMap(f, a + b) == FilterMap(f, a) + FilterMap(f, b)
    decreases |a|
  {
    if a == [] {
      assert a + b == b;
    } else {
      assert (a + b)[1..] == a[1..] + b;
      FilterMapAppend(f, a[1..], b);
    }
  }

  /** What one element contributes to a FilterMap. */
  lemma FilterMapSingle<A, B(!new)>(f: A -> Option<B>, x: A)
    ensures FilterMap(f, [x]) == (if f(x).Some? then [f(x).value] else [])
  {
    assert [x][1..] == [];
  }

  /** Keeps, in order, the elements satisfying `p`. */
  function Filter<A(!new)>(p: A -> bool, s: seq<A>): (r: seq<A>)
    ensures |r| <= |s|
    ensures forall x :: x in r <==> x in s && p(x)
    ensures multiset(r) <= multiset(s)
    decreases |s|
  {
    if s == [] then []
    else
      var rest := Filter(p, s[1..]);
      assert s == [s[0]] + s[1..];
      if p(s[0]) then [s[0]] + rest else rest
  }

  /** Dropping beforehand elements on which `f` gives nothing changes nothing. */
  lemma {:induction false} FilterMapSkip<A(!new), B(!new)>(f: A -> Option<B>, p: A -> bool, s: seq<A>)
    requires forall i :: 0 <= i < |s| && !p(s[i]) ==> f(s[i]).None?
    ensures FilterMap(f, Filter(p, s)) == FilterMap(f, s)
    decreases |s|
  {
    if s != [] {
      assert forall i :: 0 <= i < |s| - 1 ==> s[1..][i] == s[i + 1];
      FilterMapSkip(f, p, s[1..]);
      if p(s[0]) {
        assert Filter(p, s) == [s[0]] + Filter(p, s[1..]);
        assert ([s[0]] + Filter(p, s[1..]))[1..] == Filter(p, s[1..]);
      }
    }
  }

  /** A comprehension `[f(x) for x in s]`. */
  function Map<A, B>(f: A -> B, s: seq<A>): (r: seq<B>)
    ensures |r| == |s|
    ensures forall i :: 0 <= i < |s| ==> r[i] == f(s[i])
  {
    seq(|s|, i requires 0 <= i < |s| => f(s[i]))
  }

  lemma MapAppend<A, B>(f: A -> B, a: seq<A>, b: seq<A>)
    ensures Map(f, a + b) == Map(f, a) + Map(f, b)
  {
    var m, ma, mb := Map(f, a + b), Map(f, a), Map(f, b);
    forall i | 0 <= i < |m|
      ensures m[i] == (ma + mb)[i]
    {
      if i < |a| {
        assert (a + b)[i] == a[i];
      } else {
        assert (a + b)[i] == b[i - |a|];
      }
    }
  }

  /** Python's `sep.join(parts)`. */
  function Join(parts: seq<string>, sep: string): (r: string)
    ensures parts == [] ==> r == []
    ensures |parts| == 1 ==> r == parts[0]
    ensures |parts| >= 1 ==> |r| >= |parts[0]| && r[..|parts[0]|] == parts[0]
    decreases |parts|
  {
    if parts == [] then []
    else if |parts| == 1 then parts[0]
    else parts[0] + sep + Join(parts[1..], sep)
  }

  /** Joining two non-empty lists is joining each and putting one separator between. */
  lemma {:induction false} JoinAppend(a: seq<string>, b: seq<string>, sep: string)
    requires a != [] && b != []
    ensures Join(a + b, sep) == Join(a, sep) + sep + Join(b, sep)
    decreases |a|
  {
    if |a| == 1 {
      assert (a + b)[1..] == b;
    } else {
      assert (a + b)[1..] == a[1..] + b;
      JoinAppend(a[1..], b, sep);
    }
  }
}
