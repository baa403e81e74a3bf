/** Types and sequence facts shared by every component of the model. */
module Common {

  datatype Option<+T> = None | Some(value: T)

  /** An unsigned byte, as it travels over the serial line. */
  type Byte = b: int | 0 <= b < 256

  function Min(a: nat, b: nat): nat {
    if a <= b then a else b
  }

  /** The positions of `part` inside `whole`, in order: `part` is a subsequence. */
  ghost predicate Embeds<T>(part: seq<T>, whole: seq<T>, at: seq<nat>)
  {
    && |at| == |part|
    && (forall i :: 0 <= i < |at| ==> at[i] < |whole| && part[i] == whole[at[i]])
    && (forall i, j :: 0 <= i < j < |at| ==> at[i] < at[j])
  }

  /** `part` is `whole` with some elements left out and the order kept. */
  ghost predicate Subsequence<T>(part: seq<T>, whole: seq<T>)
  {
    exists at: seq<nat> :: Embeds(part, whole, at)
  }

  /** `result` is made of the chosen elements of `source`, each once and in order, and of nothing
      else; `at` says where each comes from. */
  ghost predicate Picks<T, U>(source: seq<T>, chosen: T -> bool, image: T -> U, result: seq<U>, at: seq<nat>)
  {
    && |at| == |result|
    && (forall j :: 0 <= j < |at| ==> at[j] < |source| && chosen(source[at[j]]) && result[j] == image(source[at[j]]))
    && (forall j, k :: 0 <= j < k < |at| ==> at[j] < at[k])
    && (forall n :: 0 <= n < |source| && chosen(source[n]) ==> n in at)
  }

  lemma PicksOneMore<T, U>(source: seq<T>, chosen: T -> bool, image: T -> U, result: seq<U>, at: seq<nat>, x: T)
    requires Picks(source, chosen, image, result, at)
    ensures chosen(x) ==> Picks(source + [x], chosen, image, result + [image(x)], at + [|source|])
    ensures !chosen(x) ==> Picks(source + [x], chosen, image, result, at)
  {
    var more := at + [|source|];
    forall n | n in at ensures n in more {
      var j :| 0 <= j < |at| && at[j] == n;
      assert more[j] == n;
    }
    assert more[|at|] == |source|;
  }

  lemma SubsequenceOfLonger<T>(part: seq<T>, whole: seq<T>, x: T)
    requires Subsequence(part, whole)
    ensures Subsequence(part, whole + [x])
    ensures Subsequence(part + [x], whole + [x])
  {
    var at: seq<nat> :| Embeds(part, whole, at);
    assert Embeds(part, whole + [x], at);
    assert Embeds(part + [x], whole + [x], at + [|whole|]);
  }

  lemma SubsequenceOfPrefix<T>(part: seq<T>, more: seq<T>, whole: seq<T>)
    requires Subsequence(part + more, whole)
    ensures Subsequence(part, whole)
  {
    var at: seq<nat> :| Embeds(part + more, whole, at);
    assert forall i :: 0 <= i < |part| ==> (part + more)[i] == part[i];
    assert Embeds(part, whole, at[..|part|]);
  }

  lemma SubsequenceWithoutOne<T>(part: seq<T>, whole: seq<T>, i: nat)
    requires Subsequence(part, whole) && i < |part|
    ensures Subsequence(part[..i] + part[i + 1..], whole)
  {
    var at: seq<nat> :| Embeds(part, whole, at);
    assert Embeds(part[..i] + part[i + 1..], whole, at[..i] + at[i + 1..]);
  }

  /** The images of all elements, one behind the other. */
  function FlatMap<T, U>(f: T -> seq<U>, s: seq<T>): seq<U>
  {
    if s == [] then [] else f(s[0]) + FlatMap(f, s[1..])
  }

  lemma {:induction false} FlatMapConcat<T, U>(f: T -> seq<U>, a: seq<T>, b: seq<T>)
    ensures FlatMap(f, a + b) == FlatMap(f, a) + FlatMap(f, b)
  {
    if a == [] {
      assert a + b == b;
    } else {
      FlatMapConcat(f, a[1..], b);
      assert (a + b)[0] == a[0] && (a + b)[1..] == a[1..] + b;
      Regrouped(f(a[0]), FlatMap(f, a[1..]), FlatMap(f, b));
    }
  }

  lemma Regrouped<T>(a: seq<T>, b: seq<T>, c: seq<T>)
    ensures a + (b + c) == (a + b) + c
  {
  }

  lemma FlatMapAppend<T, U>(f: T -> seq<U>, a: seq<T>, x: T)
    ensures FlatMap(f, a + [x]) == FlatMap(f, a) + f(x)
  {
    FlatMapConcat(f, a, [x]);
    assert FlatMap(f, [x]) == f(x) + FlatMap(f, []);
  }
}
