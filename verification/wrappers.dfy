/** Failure-compatible datatypes shared by every module of the model:
    `Option` for Java's nullable references and JavaScript's null/undefined,
    `Result` for an operation that either returns or throws, and `Lookup`
    for a repository query that must match at most one row. */
module Wrappers {

  datatype Option<+T> = None | Some(value: T) {

    /** The value held, or `default` when there is none. */
    function GetOr(default: T): T {
      match this
      case Some(v) => v
      case None => default
    }
  }

  datatype Result<+R, +E> = Ok(value: R) | Err(error: E) {

    predicate IsFailure() {
      Err?
    }

    function PropagateFailure<U>(): Result<U, E>
      requires Err?
    {
      Err(error)
    }

    function Extract(): R
      requires Ok?
    {
      value
    }
  }

  /** The outcome of a query for a single row: no row, exactly one, or several
      (which a repository returning an optional reports as an error). */
  datatype Lookup<K> = NoRow | OneRow(key: K) | ManyRows

  lemma SingletonIs<K>(s: set<K>, a: K)
    requires |s| == 1 && a in s
    ensures s == {a}
  {
    assert |s - {a}| == 0;
  }

  /** Classifies the set of matching keys by its size. */
  function Unique<K>(s: set<K>): (r: Lookup<K>)
    ensures r.NoRow? <==> s == {}
    ensures r.OneRow? <==> |s| == 1
    ensures r.OneRow? ==> s == {r.key}
    ensures r.ManyRows? <==> |s| >= 2
  {
    if |s| == 0 then NoRow
    else if |s| == 1 then
      var k :| k in s;
      SingletonIs(s, k);
      OneRow(k)
    else ManyRows
  }
}
