/** Optional values and error results, standing for Python's `None` and for exceptions, and the first hit of a search over a sequence. */
module Wrappers {

  datatype Option<T> = None | Some(value: T)

  /** The outcome of a step that may raise: a value, or the message of the exception. */
  datatype Result<T> = Ok(value: T) | Err(message: string)

  /** Python truthiness of an optional string: `None` and `""` are both false. */
  predicate Truthy(o: Option<string>) {
    o.Some? && o.value != ""
  }

  /** What `f` gives for the first element it gives something for. */
  function FirstSome<T, R>(xs: seq<T>, f: T -> Option<R>): Option<R> {
    if xs == [] then None
    else if f(xs[0]).Some? then f(xs[0])
    else FirstSome(xs[1..], f)
  }

  lemma FirstSomeStep<T, R>(xs: seq<T>, f: T -> Option<R>, i: nat)
    requires i < |xs|
    ensures FirstSome(xs[i..], f) == if f(xs[i]).Some? then f(xs[i]) else FirstSome(xs[i + 1..], f)
  {
    assert xs[i..][1..] == xs[i + 1..];
  }

  /** `FirstSome` stops at the first element `f` gives something for, and gives nothing when there is none. */
  lemma {:induction false} FirstSomeFirst<T, R>(xs: seq<T>, f: T -> Option<R>)
    ensures FirstSome(xs, f).None? <==> forall k :: 0 <= k < |xs| ==> f(xs[k]).None?
    ensures FirstSome(xs, f).Some? ==>
      exists k :: 0 <= k < |xs| && FirstSome(xs, f) == f(xs[k]) && forall p :: 0 <= p < k ==> f(xs[p]).None?
  {
    if xs != [] && f(xs[0]).None? {
      var rest := xs[1..];
      FirstSomeFirst(rest, f);
      assert forall k :: 0 < k < |xs| ==> xs[k] == rest[k - 1];
      if FirstSome(rest, f).Some? {
        var k :| 0 <= k < |rest| && FirstSome(rest, f) == f(rest[k]) && forall p :: 0 <= p < k ==> f(rest[p]).None?;
        assert FirstSome(xs, f) == f(xs[k + 1]);
      }
    }
  }
}
