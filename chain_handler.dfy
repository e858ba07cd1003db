/** The chain of responsibility behind the span-name validator: each handler
    runs its own check and, when that passes, hands the request to its
    successor; the first failure ends the run. */
module Chain {
  import opened Exceptions

  /** A handler's own check: None when the request passes, Some(message) when it fails. */
  type Check = string -> Option<string>

  /** The reference semantics of a chain: its checks' outcomes taken in
      order, the first failure deciding the result. */
  function FirstFailure(outcomes: seq<Option<string>>): Option<string> {
    if outcomes == [] then None
    else if outcomes[0].Some? then outcomes[0]
    else FirstFailure(outcomes[1..])
  }

  /** A run succeeds exactly when every check passes. */
  lemma {:induction false} FirstFailurePass(outcomes: seq<Option<string>>)
    ensures FirstFailure(outcomes).None? <==> forall i :: 0 <= i < |outcomes| ==> outcomes[i].None?
  {
    if outcomes != [] {
      FirstFailurePass(outcomes[1..]);
      assert forall i :: 1 <= i < |outcomes| ==> outcomes[i] == outcomes[1..][i - 1];
    }
  }

  /** When check i is the first one to fail, its message is the chain's result. */
  lemma {:induction false} FirstFailureIsFirst(outcomes: seq<Option<string>>, i: nat)
    requires i < |outcomes| && outcomes[i].Some?
    requires forall j :: 0 <= j < i ==> outcomes[j].None?
    ensures FirstFailure(outcomes) == outcomes[i]
  {
    if i > 0 {
      assert forall j :: 0 <= j < i - 1 ==> outcomes[1..][j] == outcomes[j + 1];
      FirstFailureIsFirst(outcomes[1..], i - 1);
    }
  }

  class ChainHandler {
    /** What the concrete handler checks (the override of `handle` in a subclass). */
    const check: Check
    /** The successor link; null when there is none. */
    var next: ChainHandler?

    constructor (check: Check, nextHandler: ChainHandler? := null)
      ensures this.check == check && next == nextHandler
    {
      this.check := check;
      next := nextHandler;
    }

    /** Stores the successor, replacing any earlier one, and returns it so that calls chain. */
    method SetNext(nextHandler: ChainHandler) returns (r: ChainHandler)
      modifies this
      ensures next == nextHandler && r == nextHandler
    {
      next := nextHandler;
      r := nextHandler;
    }

    /** The concrete handler: its own check first, then the base delegation. */
    method Handle(request: string, ghost hs: seq<ChainHandler>) returns (r: Option<string>)
      requires IsChain(hs) && hs[0] == this
      ensures r == FirstFailure(Outcomes(hs, request))
      decreases |hs|, 1
    {
      r := check(request);
      if r.None? {
        r := Delegate(request, hs);
      }
    }

    /** The base `handle`: the successor's result for the same request, or None without one. */
    method Delegate(request: string, ghost hs: seq<ChainHandler>) returns (r: Option<string>)
      requires IsChain(hs) && hs[0] == this
      ensures next == null ==> r == None
      ensures r == FirstFailure(Outcomes(hs[1..], request))
      decreases |hs|, 0
    {
      if next != null {
        assert IsChain(hs[1..]);
        r := next.Handle(request, hs[1..]);
      } else {
        r := None;
      }
    }
  }

  /** hs lists the handlers reachable from hs[0], in order, ending with one that has no successor. */
  ghost predicate IsChain(hs: seq<ChainHandler>)
    reads hs
  {
    && |hs| > 0
    && (forall i :: 0 <= i < |hs| - 1 ==> hs[i].next == hs[i + 1])
    && hs[|hs| - 1].next == null
  }

  /** What each handler of a chain says of the request, in chain order. */
  ghost function Outcomes(hs: seq<ChainHandler>, request: string): seq<Option<string>> {
    if hs == [] then [] else [hs[0].check(request)] + Outcomes(hs[1..], request)
  }
}
