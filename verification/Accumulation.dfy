/** Loops that append results until one is refused. */
module Accumulation {
  import opened Outcomes

  /** What a loop has collected so far, followed by what is still to come. */
  function After<T>(done: seq<T>, rest: Result<seq<T>>): Result<seq<T>> {
    if rest.Rejected? then rest else Ok(done + rest.value)
  }

  lemma AfterNone<T>(rest: Result<seq<T>>)
    ensures After([], rest) == rest
  {
    if rest.Ok? {
      assert [] + rest.value == rest.value;
    }
  }

  lemma AfterNext<T>(done: seq<T>, next: seq<T>, rest: Result<seq<T>>)
    ensures After(done + next, rest) == After(done, if rest.Rejected? then rest else Ok(next + rest.value))
  {
    if rest.Ok? {
      assert done + next + rest.value == done + (next + rest.value);
    }
  }
}
