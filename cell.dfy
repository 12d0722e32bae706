/**
 * The memo cell behind each cached getter that `impl_cached_meta_fn!`
 * generates (src/metadata.rs:104-149, 176-185): a state tag and a cache slot.
 * A caller that finds the cell uninitialised claims it, fetches once and
 * either fills it or resets it; a caller that finds it initialising waits; a
 * caller that finds it initialised reads the cache.
 *
 * The steps are modelled one caller at a time: the compare-and-swap, the
 * fetch outcome and one look of a waiting caller are separate, atomic steps,
 * first as functions on the cell's contents and then as the methods of a
 * class that holds them in fields.
 */
module Cell {
  import opened Errors
  import opened Text
  import Fetch

  /** The three values of the state tag (UNINITIALIZED, INITIALIZING, INITIALIZED). */
  datatype CellState = Uninitialized | Initializing | Initialized

  /** The contents of a cell: the state tag and the cache slot. */
  datatype CellValue = CellValue(state: CellState, cache: Option<string>)

  /** The cell as the program starts. */
  const Fresh := CellValue(CellState.Uninitialized, None)

  /**
   * What holds between steps: a value is cached exactly when the state is
   * initialised, and the cached value is trimmed.
   */
  predicate Inv(c: CellValue) {
    (c.cache.Some? <==> c.state == Initialized) && (c.cache.Some? ==> IsTrimmed(c.cache.value))
  }

  /**
   * The compare-and-swap at metadata.rs:121: the caller observes the state,
   * and the cell becomes initialising when it observed it uninitialised.
   */
  function Claim(c: CellValue): (CellState, CellValue) {
    (c.state, if c.state == CellState.Uninitialized then c.(state := Initializing) else c)
  }

  /**
   * What the claimant does with the fetch outcome (metadata.rs:122-131): on
   * success it caches the trimmed value, marks the cell initialised and
   * returns the value; on failure it marks the cell uninitialised, leaves the
   * cache alone and returns the error.
   */
  function Complete(c: CellValue, fetch: Result<string>): (CellValue, Result<string>) {
    match fetch
    case Ok(v) => (CellValue(Initialized, Some(Trim(v))), Ok(Trim(v)))
    case Err(why) => (c.(state := CellState.Uninitialized), Err(why))
  }

  /**
   * One look of a waiting caller (metadata.rs:133-139): `None` while the cell
   * is initialising; afterwards the cached value, or `Uninitialized` when
   * the cache is empty.
   */
  function Poll(c: CellValue): Option<Result<string>> {
    if c.state == Initializing then None
    else
      match c.cache
      case Some(v) => Some(Ok(v))
      case None => Some(Err(FromKind(ErrorKind.Uninitialized)))
  }

  /** What one call gives back: a result, or the need to wait for another caller's fetch. */
  datatype Outcome = Returned(result: Result<string>) | Waiting

  /** One call: the cell afterwards, what the caller got, and whether it fetched. */
  datatype Step = Step(next: CellValue, outcome: Outcome, fetched: bool)

  /**
   * One call of a cached getter (metadata.rs:120-142), `fetch` standing for
   * what `get_meta` would give. It fetches exactly when the cell is
   * uninitialised. A success fills the cell with the trimmed value and
   * returns it; a failure leaves the cell as it was and returns the error; a
   * filled cell returns its value and does not change; an initialising cell
   * makes the caller wait.
   */
  function Call(c: CellValue, fetch: Result<string>): (s: Step)
    requires Inv(c)
    ensures Inv(s.next)
    ensures s.fetched <==> c.state == CellState.Uninitialized
    ensures c.state == CellState.Uninitialized && fetch.Ok? ==>
      s.next == CellValue(Initialized, Some(Trim(fetch.value))) && s.outcome == Returned(Ok(Trim(fetch.value)))
    ensures c.state == CellState.Uninitialized && fetch.Err? ==> s.next == c && s.outcome == Returned(fetch)
    ensures c.state == Initialized ==> s.next == c && s.outcome == Returned(Ok(c.cache.value))
    ensures c.state == Initializing ==> s.next == c && s.outcome == Waiting
  {
    var claim := Claim(c);
    match claim.0
    case Uninitialized =>
      var done := Complete(claim.1, fetch);
      Step(done.0, Returned(done.1), true)
    case Initializing => Step(c, Waiting, false)
    case Initialized => Step(c, Returned(Ok(c.cache.value)), false)
  }

  /** A waiting caller's look, given the invariant: it waits only while the cell is initialising, and never sees a value that is not the cached one. */
  lemma PollSeesCache(c: CellValue)
    requires Inv(c)
    ensures Poll(c).None? <==> c.state == Initializing
    ensures c.state == CellState.Uninitialized ==> Poll(c) == Some(Err(FromKind(ErrorKind.Uninitialized)))
    ensures c.state == Initialized ==> Poll(c) == Some(Ok(c.cache.value))
  {
  }

  /**
   * Two callers on a fresh cell: the first claims it; the second observes
   * it initialising, leaves it unchanged and keeps waiting while the fetch is
   * in flight. When the first finishes, the second gets the first's value, or
   * `Uninitialized` when the fetch failed (not the fetch's own error).
   */
  lemma WaiterAfterClaimant(fetch: Result<string>)
    ensures var first := Claim(Fresh);
      var second := Claim(first.1);
      var done := Complete(first.1, fetch);
      && first.0 == CellState.Uninitialized && second.0 == Initializing && second.1 == first.1
      && Poll(first.1).None?
      && Poll(done.0) == Some(if fetch.Ok? then done.1 else Err(FromKind(ErrorKind.Uninitialized)))
  {
  }

  /** A run of calls made one after another, each given the outcome its fetch would have. */
  function Run(c: CellValue, fetches: seq<Result<string>>): (steps: seq<Step>)
    requires Inv(c)
    ensures |steps| == |fetches|
    decreases |fetches|
  {
    if fetches == [] then []
    else
      var s := Call(c, fetches[0]);
      [s] + Run(s.next, fetches[1..])
  }

  /** Once a cell is filled it is never fetched again, and every later call returns the cached value. */
  lemma {:induction false} FilledIsFinal(c: CellValue, fetches: seq<Result<string>>)
    requires Inv(c) && c.state == Initialized
    ensures forall i :: 0 <= i < |fetches| ==>
      && !Run(c, fetches)[i].fetched
      && Run(c, fetches)[i].next == c
      && Run(c, fetches)[i].outcome == Returned(Ok(c.cache.value))
    decreases |fetches|
  {
    if fetches != [] {
      FilledIsFinal(c, fetches[1..]);
      var steps := Run(c, fetches);
      assert steps == [Call(c, fetches[0])] + Run(c, fetches[1..]);
      forall i | 1 <= i < |fetches| ensures steps[i] == Run(c, fetches[1..])[i - 1] { }
    }
  }

  /** The position of the first successful fetch outcome, or the length when there is none. */
  function FirstSuccess(fetches: seq<Result<string>>): (k: nat)
    ensures k <= |fetches|
    ensures forall j :: 0 <= j < k ==> fetches[j].Err?
    ensures k < |fetches| ==> fetches[k].Ok?
  {
    if fetches == [] then 0
    else if fetches[0].Ok? then 0
    else 1 + FirstSuccess(fetches[1..])
  }

  /** A run is its first call followed by the run from the cell that call leaves. */
  lemma RunCons(c: CellValue, fetches: seq<Result<string>>)
    requires Inv(c) && fetches != []
    ensures var steps, first := Run(c, fetches), Call(c, fetches[0]);
      steps[0] == first && steps[1..] == Run(first.next, fetches[1..])
  {
    var first := Call(c, fetches[0]);
    assert Run(c, fetches) == [first] + Run(first.next, fetches[1..]);
  }

  /**
   * Calls one after another on a fresh cell: a call fetches exactly when
   * every earlier fetch failed. A failure does not poison the cell, and the
   * fetching stops with the first success.
   */
  lemma {:induction false} FetchesUntilFirstSuccess(fetches: seq<Result<string>>)
    ensures forall i :: 0 <= i < |fetches| ==> (Run(Fresh, fetches)[i].fetched <==> i <= FirstSuccess(fetches))
    decreases |fetches|
  {
    if fetches != [] {
      var steps := Run(Fresh, fetches);
      RunCons(Fresh, fetches);
      if fetches[0].Ok? {
        FilledIsFinal(steps[0].next, fetches[1..]);
      } else {
        FetchesUntilFirstSuccess(fetches[1..]);
      }
      forall i | 1 <= i < |fetches| ensures steps[i] == steps[1..][i - 1] { }
    }
  }

  /** Calls one after another on a fresh cell: each call before the first success fails with its own fetch's error. */
  lemma {:induction false} FailuresReturnTheirError(fetches: seq<Result<string>>)
    ensures forall i :: 0 <= i < FirstSuccess(fetches) ==> Run(Fresh, fetches)[i].outcome == Returned(fetches[i])
    decreases |fetches|
  {
    if fetches != [] && fetches[0].Err? {
      var steps := Run(Fresh, fetches);
      RunCons(Fresh, fetches);
      FailuresReturnTheirError(fetches[1..]);
      forall i | 1 <= i < FirstSuccess(fetches)
        ensures steps[i] == steps[1..][i - 1] && fetches[i] == fetches[1..][i - 1]
      { }
    }
  }

  /** Calls one after another on a fresh cell: from the first success on, every call returns that success's trimmed value. */
  lemma {:induction false} SuccessIsShared(fetches: seq<Result<string>>)
    ensures var k := FirstSuccess(fetches);
      forall i :: k <= i < |fetches| ==> Run(Fresh, fetches)[i].outcome == Returned(Ok(Trim(fetches[k].value)))
    decreases |fetches|
  {
    if fetches != [] {
      var steps := Run(Fresh, fetches);
      var k := FirstSuccess(fetches);
      RunCons(Fresh, fetches);
      if fetches[0].Ok? {
        var v := Trim(fetches[0].value);
        assert k == 0 && steps[0] == Step(CellValue(Initialized, Some(v)), Returned(Ok(v)), true);
        FilledIsFinal(steps[0].next, fetches[1..]);
        forall i | 1 <= i < |fetches| ensures steps[i].outcome == Returned(Ok(v)) {
          assert steps[i] == steps[1..][i - 1];
        }
      } else {
        assert steps[0].next == Fresh;
        SuccessIsShared(fetches[1..]);
        assert k == 1 + FirstSuccess(fetches[1..]);
        forall i | k <= i < |fetches| ensures steps[i].outcome == Returned(Ok(Trim(fetches[k].value))) {
          assert steps[i] == steps[1..][i - 1];
          assert fetches[k] == fetches[1..][k - 1];
        }
      }
    }
  }

  /** The number of calls in a run that fetched. */
  function FetchCount(steps: seq<Step>): nat {
    if steps == [] then 0 else (if steps[0].fetched then 1 else 0) + FetchCount(steps[1..])
  }

  /** Calls one after another on a fresh cell fetch once per failure before the first success, and once more for it. */
  lemma {:induction false} FetchCountUntilSuccess(fetches: seq<Result<string>>)
    ensures var k := FirstSuccess(fetches);
      FetchCount(Run(Fresh, fetches)) == if k < |fetches| then k + 1 else k
    decreases |fetches|
  {
    if fetches != [] {
      var steps := Run(Fresh, fetches);
      RunCons(Fresh, fetches);
      if fetches[0].Ok? {
        FilledIsFinal(steps[0].next, fetches[1..]);
        NoFetches(steps[1..]);
      } else {
        FetchCountUntilSuccess(fetches[1..]);
      }
    }
  }

  lemma {:induction false} NoFetches(steps: seq<Step>)
    requires forall i :: 0 <= i < |steps| ==> !steps[i].fetched
    ensures FetchCount(steps) == 0
    decreases |steps|
  {
    if steps != [] {
      NoFetches(steps[1..]);
    }
  }

  const PROJECT_ID_PATH := "project/project-id"
  const NUMERIC_PROJECT_ID_PATH := "project/numeric-project-id"
  const INSTANCE_ID_PATH := "instance/id"

  /**
   * One cached getter's statics: the state tag and the cache slot, and the
   * path it fetches. `project_id`, `numeric_project_id` and `instance_id`
   * (metadata.rs:176-185) are three of these, for the three paths above.
   */
  class MetaCell {
    const suffix: string
    var state: CellState
    var cache: Option<string>

    function Value(): CellValue
      reads this
    {
      CellValue(state, cache)
    }

    ghost predicate Valid()
      reads this
    {
      Inv(Value())
    }

    constructor (suffix: string)
      ensures Valid() && Value() == Fresh && this.suffix == suffix
    {
      this.suffix := suffix;
      state := CellState.Uninitialized;
      cache := None;
    }

    /** The compare-and-swap at metadata.rs:121. */
    method CompareAndSwap() returns (observed: CellState)
      modifies this
      ensures observed == old(state)
      ensures Value() == Claim(old(Value())).1
    {
      observed := state;
      if state == CellState.Uninitialized {
        state := Initializing;
      }
    }

    /** The claimant's step after its fetch (metadata.rs:122-131). */
    method Finish(fetch: Result<string>) returns (r: Result<string>)
      requires Valid() && state == Initializing
      modifies this
      ensures Valid()
      ensures (Value(), r) == Complete(old(Value()), fetch)
    {
      match fetch {
        case Ok(v) =>
          cache := Some(Trim(v));
          state := Initialized;
          r := Ok(cache.value);
        case Err(why) =>
          state := CellState.Uninitialized;
          r := Err(why);
      }
    }

    /** One look of a waiting caller (metadata.rs:134-137). */
    method Look() returns (r: Option<Result<string>>)
      ensures r == Poll(Value())
    {
      if state == Initializing {
        r := None;
      } else if cache.Some? {
        r := Some(Ok(cache.value));
      } else {
        r := Some(Err(FromKind(ErrorKind.Uninitialized)));
      }
    }

    /**
     * The getter (metadata.rs:120-142) for a caller nobody interleaves with:
     * `fetched` says whether it sent the request. A caller that finds the
     * cell initialising gets `Waiting` and goes on with `Look`.
     */
    method Get(hostVar: Option<string>, send: Fetch.Transport) returns (outcome: Outcome, fetched: bool)
      requires Valid()
      modifies this
      ensures Valid()
      ensures Step(Value(), outcome, fetched) == Call(old(Value()), Fetch.GetMeta(hostVar, suffix, send))
    {
      var observed := CompareAndSwap();
      match observed {
        case Uninitialized =>
          var r := Finish(Fetch.GetMeta(hostVar, suffix, send));
          outcome, fetched := Returned(r), true;
        case Initializing =>
          outcome, fetched := Waiting, false;
        case Initialized =>
          outcome, fetched := Returned(Ok(cache.value)), false;
      }
    }
  }

  /**
   * Two calls, one after the other, on a fresh project-id cell whose fetch
   * succeeds: the first fetches and returns the trimmed value, the second
   * returns the same value without fetching.
   */
  method SecondCallUsesCache(hostVar: Option<string>, send: Fetch.Transport, v: string)
    returns (first: Outcome, second: Outcome, fetchedFirst: bool, fetchedSecond: bool)
    requires Fetch.GetMeta(hostVar, PROJECT_ID_PATH, send) == Ok(v)
    ensures fetchedFirst && first == Returned(Ok(Trim(v)))
    ensures !fetchedSecond && second == first
  {
    var cell := new MetaCell(PROJECT_ID_PATH);
    first, fetchedFirst := cell.Get(hostVar, send);
    second, fetchedSecond := cell.Get(hostVar, send);
  }
}
