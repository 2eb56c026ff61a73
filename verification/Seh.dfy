// speakeasy/windows/seh.py: the part of exception dispatch that x86 and x64 share.

module Seh {

  const EXCEPTION_CONTINUE_EXECUTION: int := -1
  const CONTINUE_EXECUTION_DISPOSITION: int := 0

  // A guest return value as a 32-bit LONG (as_long)
  function AsLong(value: int): (r: int)
    ensures -0x8000_0000 <= r < 0x8000_0000 && (r - value) % 0x1_0000_0000 == 0
  {
    var low := value % 0x1_0000_0000;
    if low < 0x8000_0000 then low else low - 0x1_0000_0000
  }

  // The handlers that can take an exception: vectored handlers and the top-level filter answer with a LONG, the
  // handlers of frames with a disposition.
  datatype Handler = Vectored(address: int) | OfFrame(address: int) | TopLevel(address: int)

  predicate Takes(h: Handler, value: int) {
    if h.OfFrame? then value == CONTINUE_EXECUTION_DISPOSITION else AsLong(value) == EXCEPTION_CONTINUE_EXECUTION
  }

  // Windows asks the vectored handlers, then the frames, then the top-level filter, if there is one.
  function Candidates(vectored: seq<int>, frames: seq<int>, topLevel: int): (cs: seq<Handler>)
    ensures |cs| == |vectored| + |frames| + if topLevel != 0 then 1 else 0
    decreases |vectored|, |frames|
  {
    if vectored != [] then [Vectored(vectored[0])] + Candidates(vectored[1..], frames, topLevel)
    else if frames != [] then [OfFrame(frames[0])] + Candidates([], frames[1..], topLevel)
    else if topLevel != 0 then [TopLevel(topLevel)]
    else []
  }

  ghost predicate AreVectored(cs: seq<Handler>, vectored: seq<int>) {
    |vectored| <= |cs| && forall i :: 0 <= i < |vectored| ==> cs[i] == Vectored(vectored[i])
  }

  ghost predicate AreFrames(cs: seq<Handler>, n: nat, frames: seq<int>) {
    n + |frames| <= |cs| && forall i :: 0 <= i < |frames| ==> cs[n + i] == OfFrame(frames[i])
  }

  ghost predicate AreAll(cs: seq<Handler>, vectored: seq<int>, frames: seq<int>, topLevel: int) {
    && |cs| == |vectored| + |frames| + (if topLevel != 0 then 1 else 0)
    && AreVectored(cs, vectored) && AreFrames(cs, |vectored|, frames)
    && (topLevel != 0 ==> cs[|vectored| + |frames|] == TopLevel(topLevel))
  }

  lemma {:induction false} CandidatesAre(vectored: seq<int>, frames: seq<int>, topLevel: int)
    ensures var cs := Candidates(vectored, frames, topLevel);
            AreAll(cs, vectored, frames, topLevel)
    decreases |vectored|, |frames|
  {
    var cs := Candidates(vectored, frames, topLevel);
    if vectored != [] {
      CandidatesAre(vectored[1..], frames, topLevel);
      var rest := Candidates(vectored[1..], frames, topLevel);
      assert forall i :: 1 <= i < |cs| ==> cs[i] == rest[i - 1];
    } else if frames != [] {
      CandidatesAre([], frames[1..], topLevel);
      var rest := Candidates([], frames[1..], topLevel);
      assert forall i :: 1 <= i < |cs| ==> cs[i] == rest[i - 1];
    }
  }

  // The first candidate from i on that takes the exception; values are what the guest calls return.
  function FirstTaker(cs: seq<Handler>, values: nat -> int, i: nat): (t: nat)
    requires i <= |cs|
    ensures i <= t <= |cs|
    decreases |cs| - i
  {
    if i == |cs| || Takes(cs[i], values(i)) then i else FirstTaker(cs, values, i + 1)
  }

  lemma NextTaker(cs: seq<Handler>, values: nat -> int, i: nat)
    requires i <= |cs|
    ensures FirstTaker(cs, values, i)
         == if i == |cs| || Takes(cs[i], values(i)) then i else FirstTaker(cs, values, i + 1)
  {
  }

  lemma {:induction false} FirstTakerIsFirst(cs: seq<Handler>, values: nat -> int, i: nat)
    requires i <= |cs|
    ensures var t := FirstTaker(cs, values, i);
            && (t < |cs| ==> Takes(cs[t], values(t)))
            && forall j :: i <= j < t ==> !Takes(cs[j], values(j))
    decreases |cs| - i
  {
    if i < |cs| && !Takes(cs[i], values(i)) {
      FirstTakerIsFirst(cs, values, i + 1);
    }
  }

  datatype Outcome = Resumes | Noncontinuable | Unhandled

  // An exception being dispatched. reports lists the handlers for which it was recorded in the report.
  class Dispatch {
    const noncontinuable: bool
    var reported: bool
    var reports: seq<Handler>
    var calls: seq<Handler>

    // The report has the exception once, for the first handler that received it.
    ghost predicate Valid()
      reads this
    {
      reported == (calls != []) && reports == if calls == [] then [] else [calls[0]]
    }

    constructor (noncontinuable: bool)
      ensures Valid() && calls == [] && this.noncontinuable == noncontinuable
    {
      this.noncontinuable, reported, reports, calls := noncontinuable, false, [], [];
    }

    method Offer(h: Handler)
      requires Valid()
      modifies this
      ensures Valid() && calls == old(calls) + [h]
    {
      if !reported {
        reports := reports + [h];
        reported := true;
      }
      calls := calls + [h];
    }

    method Resume() returns (r: Outcome)
      ensures r == if noncontinuable then Noncontinuable else Resumes
    {
      return if noncontinuable then Noncontinuable else Resumes;
    }

    // The handlers before i were called, and none of them took the exception.
    ghost predicate Asked(cs: seq<Handler>, values: nat -> int, i: nat)
      requires i <= |cs|
      reads this
    {
      Valid() && calls == cs[..i] && FirstTaker(cs, values, 0) == FirstTaker(cs, values, i)
    }

    // The handlers up to the first that takes the exception were called.
    ghost predicate Taken(cs: seq<Handler>, values: nat -> int)
      reads this
    {
      Valid() && FirstTaker(cs, values, 0) < |cs| && calls == cs[..FirstTaker(cs, values, 0) + 1]
    }

    lemma TakenEnds(cs: seq<Handler>, values: nat -> int)
      requires Taken(cs, values)
      ensures Valid() && FirstTaker(cs, values, 0) < |cs| && calls == cs[..FirstTaker(cs, values, 0) + 1]
    {
    }

    lemma AllAsked(cs: seq<Handler>, values: nat -> int)
      requires Asked(cs, values, |cs|)
      ensures Valid() && calls == cs && FirstTaker(cs, values, 0) == |cs|
    {
      assert cs[..|cs|] == cs;
    }

    // Candidate i gets the exception.
    method OfferNext(h: Handler, value: int, ghost cs: seq<Handler>, ghost values: nat -> int, ghost i: nat)
      returns (taken: bool)
      requires i < |cs| && Asked(cs, values, i) && h == cs[i] && value == values(i)
      modifies this
      ensures if taken then Taken(cs, values) else Asked(cs, values, i + 1)
    {
      NextTaker(cs, values, i);
      hide Takes, FirstTaker;
      assert cs[..i] + [h] == cs[..i + 1];
      Offer(h);
      return Takes(h, value);
    }

    method OfferVectored(vectored: seq<int>, values: nat -> int, ghost cs: seq<Handler>) returns (taken: bool)
      requires AreVectored(cs, vectored) && Asked(cs, values, 0)
      modifies this
      ensures if taken then Taken(cs, values) else Asked(cs, values, |vectored|)
    {
      for i := 0 to |vectored|
        invariant Asked(cs, values, i)
      {
        taken := OfferNext(Vectored(vectored[i]), values(i), cs, values, i);
        if taken {
          return;
        }
      }
      return false;
    }

    method OfferFrames(n: nat, frames: seq<int>, values: nat -> int, ghost cs: seq<Handler>) returns (taken: bool)
      requires AreFrames(cs, n, frames) && Asked(cs, values, n)
      modifies this
      ensures if taken then Taken(cs, values) else Asked(cs, values, n + |frames|)
    {
      for i := 0 to |frames|
        invariant Asked(cs, values, n + i)
      {
        taken := OfferNext(OfFrame(frames[i]), values(n + i), cs, values, n + i);
        if taken {
          return;
        }
      }
      return false;
    }

    method OfferAll(
      vectored: seq<int>, frames: seq<int>, topLevel: int, values: nat -> int, ghost cs: seq<Handler>)
      returns (taken: bool)
      requires AreAll(cs, vectored, frames, topLevel) && Asked(cs, values, 0)
      modifies this
      ensures if taken then Taken(cs, values) else Asked(cs, values, |cs|)
    {
      hide Takes, FirstTaker, Asked, Taken, Valid, AreVectored, AreFrames;
      taken := OfferVectored(vectored, values, cs);
      if !taken {
        taken := OfferFrames(|vectored|, frames, values, cs);
      }
      if !taken && topLevel != 0 {
        var n := |vectored| + |frames|;
        taken := OfferNext(TopLevel(topLevel), values(n), cs, values, n);
      }
    }

    // Offer the exception to vectored handlers, frames and the top-level filter, up to the first that takes it.
    method Run(vectored: seq<int>, frames: seq<int>, topLevel: int, values: nat -> int) returns (r: Outcome)
      requires Valid() && calls == []
      modifies this
      ensures Valid()
      ensures var cs := Candidates(vectored, frames, topLevel);
        var t := FirstTaker(cs, values, 0);
              if t < |cs| then calls == cs[..t + 1] && r == (if noncontinuable then Noncontinuable else Resumes)
              else calls == cs && r == Unhandled
    {
      ghost var cs := Candidates(vectored, frames, topLevel);
      assert Asked(cs, values, 0);
      CandidatesAre(vectored, frames, topLevel);
      hide FirstTaker, Candidates, Asked, Taken, Valid, AreAll;
      var taken := OfferAll(vectored, frames, topLevel, values, cs);
      if taken {
        TakenEnds(cs, values);
        r := Resume();
        return;
      }
      AllAsked(cs, values);
      return Unhandled;
    }
  }
}
