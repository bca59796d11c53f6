/** Option and Result types shared by the day modules.
    A Rust `panic!` (including a failed `unwrap`, an out-of-range index or an
    unknown match arm) is modelled as `Result.Panic`, carrying the message. */
module Wrappers {

  /** The messages of the standard library's panics that the puzzles hit. */
  const UnwrapNone := "called `Option::unwrap()` on a `None` value"
  const UnwrapErr := "called `Result::unwrap()` on an `Err` value"
  const IndexOutOfBounds := "index out of bounds"
  const NoEntry := "no entry found for key"
  const SubtractOverflow := "attempt to subtract with overflow"

  datatype Option<+T> = None | Some(value: T)

  datatype Result<+T> = Ok(value: T) | Panic(reason: string) {
    predicate IsFailure() {
      Panic?
    }

    function PropagateFailure<U>(): Result<U>
      requires Panic?
    {
      Panic(reason)
    }

    function Extract(): T
      requires Ok?
    {
      value
    }
  }

  /** `option.unwrap()` with the panic it raises on None. */
  function Unwrap<T>(o: Option<T>, reason: string): (r: Result<T>)
    ensures r.Ok? <==> o.Some?
    ensures r.Ok? ==> r.value == o.value
  {
    match o
    case Some(v) => Ok(v)
    case None => Panic(reason)
  }

  /** `iter.collect::<Result<Vec<_>, _>>()`-style evaluation in order: the
      values when every item is Ok, otherwise the first failure. */
  function Collect<T>(rs: seq<Result<T>>): (r: Result<seq<T>>)
    ensures r.Ok? <==> forall k :: 0 <= k < |rs| ==> rs[k].Ok?
    ensures r.Ok? ==> |r.value| == |rs| && forall k :: 0 <= k < |rs| ==> rs[k] == Ok(r.value[k])
  {
    if rs == [] then Ok([])
    else
      var init :- Collect(rs[..|rs| - 1]);
      var last :- rs[|rs| - 1];
      Ok(init + [last])
  }

  /** The failure reported is one of the items' own failures. */
  lemma {:induction false} CollectPanicReason<T>(rs: seq<Result<T>>)
    requires Collect(rs).Panic?
    ensures exists k :: 0 <= k < |rs| && rs[k] == Panic(Collect(rs).reason)
    decreases |rs|
  {
    var init := rs[..|rs| - 1];
    if Collect(init).Panic? {
      CollectPanicReason(init);
      var k :| 0 <= k < |init| && init[k] == Panic(Collect(init).reason);
      assert rs[k] == init[k];
    } else {
      assert rs[|rs| - 1] == Panic(Collect(rs).reason);
    }
  }

  /** The failure reported is the first one. */
  lemma {:induction false} CollectFirstPanic<T>(rs: seq<Result<T>>, j: nat)
    requires j < |rs| && rs[j].Panic? && forall k :: 0 <= k < j ==> rs[k].Ok?
    ensures Collect(rs) == Panic(rs[j].reason)
    decreases |rs|
  {
    if j < |rs| - 1 {
      CollectFirstPanic(rs[..|rs| - 1], j);
    } else {
      assert Collect(rs[..|rs| - 1]).Ok?;
    }
  }

  /** Extending an Ok prefix by an Ok item. */
  lemma CollectOkAt<T>(rs: seq<Result<T>>, j: nat)
    requires j < |rs| && Collect(rs[..j]).Ok? && rs[j].Ok?
    ensures Collect(rs[..j + 1]) == Ok(Collect(rs[..j]).value + [rs[j].value])
  {
    assert rs[..j + 1][..j] == rs[..j];
  }

  /** The first failure after an Ok prefix is the one reported. */
  lemma CollectPanicAt<T>(rs: seq<Result<T>>, j: nat)
    requires j < |rs| && Collect(rs[..j]).Ok? && rs[j].Panic?
    ensures Collect(rs) == Panic(rs[j].reason)
  {
    assert forall k :: 0 <= k < j ==> rs[..j][k] == rs[k];
    CollectFirstPanic(rs, j);
  }

  /** Items that are all Ok collect to their values. */
  lemma CollectAllOk<T>(rs: seq<Result<T>>, vs: seq<T>)
    requires |rs| == |vs| && forall k :: 0 <= k < |rs| ==> rs[k] == Ok(vs[k])
    ensures Collect(rs) == Ok(vs)
  {
    var r := Collect(rs);
    assert r.Ok?;
    assert |r.value| == |vs|;
    assert forall k :: 0 <= k < |vs| ==> r.value[k] == vs[k];
    assert r.value == vs;
  }
}
