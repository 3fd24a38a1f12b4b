/** Failure-compatible result type shared by every day's model.

    Each program in the repository reports a malformed input as
    `AOCError::ParseError` and aborts on `unwrap`, `expect`, `panic!`,
    `unreachable!` or a failed `assert!`.  Both outcomes are values here:
    `ParseError` for the former and `Panic` for the latter, so that every
    operation is total and its failure cases can be stated in contracts.
 */
module Wrappers {

  datatype Option<+T> = None | Some(value: T)

  datatype Error = ParseError(msg: string) | Panic(msg: string)

  /** The messages of `Option::unwrap` and `Result::unwrap` panics. */
  const UnwrapNone := "called `Option::unwrap()` on a `None` value"
  const UnwrapErr := "called `Result::unwrap()` on an `Err` value"

  datatype Result<+T> = Ok(value: T) | Err(error: Error) {

    predicate IsFailure() {
      Err?
    }

    function PropagateFailure<U>(): Result<U>
      requires Err?
    {
      Err(error)
    }

    function Extract(): T
      requires Ok?
    {
      value
    }
  }

  /** `iter().map(f).collect::<Result<Vec<_>, _>>()`, and equally a loop
      that applies `f` to each element in turn and stops at the first
      failure: all results in order, or the first element's error. */
  function MapAll<A, B>(f: A -> Result<B>, xs: seq<A>): (r: Result<seq<B>>)
    ensures r.Ok? <==> forall k :: 0 <= k < |xs| ==> f(xs[k]).Ok?
    ensures r.Ok? ==> |r.value| == |xs| && forall k :: 0 <= k < |xs| ==> r.value[k] == f(xs[k]).value
    ensures r.Err? ==> exists k: nat :: FirstFailure(f, xs, k) && r.error == f(xs[k]).error
  {
    if |xs| == 0 then Ok([])
    else
      assert forall k :: 1 <= k < |xs| ==> xs[k] == xs[1..][k - 1];
      match f(xs[0])
      case Err(e) =>
        assert FirstFailure(f, xs, 0);
        Err(e)
      case Ok(y) =>
        match MapAll(f, xs[1..])
        case Err(e) =>
          var k: nat :| FirstFailure(f, xs[1..], k) && e == f(xs[1..][k]).error;
          assert FirstFailure(f, xs, k + 1);
          Err(e)
        case Ok(rest) =>
          Ok([y] + rest)
  }

  /** Element `k` is the first one `f` fails on. */
  predicate FirstFailure<A, B>(f: A -> Result<B>, xs: seq<A>, k: nat) {
    k < |xs| && f(xs[k]).Err?
    && forall j :: 0 <= j < k ==> f(xs[j]).Ok?
  }

  /** When `f` gives `ys[k]` on each `xs[k]`, collecting gives `ys`. */
  lemma MapAllOk<A, B>(f: A -> Result<B>, xs: seq<A>, ys: seq<B>)
    requires |xs| == |ys| && forall k :: 0 <= k < |xs| ==> f(xs[k]) == Ok(ys[k])
    ensures MapAll(f, xs) == Ok(ys)
  {
    var r := MapAll(f, xs);
    assert r.Ok?;
    assert r.value == ys;
  }

  /** Collecting over two lists in a row: the first list's error, else the
      second list's error, else both lists of results. */
  lemma {:induction false} MapAllAppend<A, B>(f: A -> Result<B>, xs: seq<A>, ys: seq<A>)
    ensures MapAll(f, xs + ys) ==
      match MapAll(f, xs)
      case Err(e) => Err(e)
      case Ok(u) =>
        match MapAll(f, ys)
        case Err(e) => Err(e)
        case Ok(v) => Ok(u + v)
  {
    if |xs| == 0 {
      assert xs + ys == ys;
      match MapAll(f, ys)
      case Err(_) =>
      case Ok(v) =>
        assert [] + v == v;
    } else {
      assert (xs + ys)[0] == xs[0];
      assert (xs + ys)[1..] == xs[1..] + ys;
      MapAllAppend(f, xs[1..], ys);
      match f(xs[0])
      case Err(_) =>
      case Ok(y) =>
        match MapAll(f, xs[1..])
        case Err(_) =>
        case Ok(u) =>
          match MapAll(f, ys)
          case Err(_) =>
          case Ok(v) =>
            assert [y] + (u + v) == ([y] + u) + v;
    }
  }

  /** Rust's `Ordering`. */
  datatype Ordering = Less | Equal | Greater {
    function Reverse(): Ordering {
      match this
      case Less => Greater
      case Equal => Equal
      case Greater => Less
    }
  }
}
