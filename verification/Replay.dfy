/** The replay protector: three sets of ids that were already processed. */
module Replay {

  class ReplayProtector {
    var seenRequestIds: set<string>
    var seenNonces: set<string>
    var seenConfirmations: set<string>

    constructor ()
      ensures seenRequestIds == {} && seenNonces == {} && seenConfirmations == {}
    {
      seenRequestIds, seenNonces, seenConfirmations := {}, {}, {};
    }

    predicate IsRequestSeen(requestId: string, nonce: string)
      reads this
    {
      requestId in seenRequestIds || nonce in seenNonces
    }

    /** `replayed` stands for the exception; a replayed request leaves the sets alone. */
    method RecordRequest(requestId: string, nonce: string) returns (replayed: bool)
      modifies this
      ensures replayed == old(IsRequestSeen(requestId, nonce))
      ensures (seenRequestIds, seenNonces) == Record(old((seenRequestIds, seenNonces)), requestId, nonce)
      ensures seenConfirmations == old(seenConfirmations)
    {
      replayed := IsRequestSeen(requestId, nonce);
      if !replayed {
        seenRequestIds := seenRequestIds + {requestId};
        seenNonces := seenNonces + {nonce};
      }
    }

    method RecordConfirmation(confirmationId: string) returns (replayed: bool)
      modifies this
      ensures replayed == (confirmationId in old(seenConfirmations))
      ensures seenConfirmations == old(seenConfirmations) + {confirmationId}
      ensures seenRequestIds == old(seenRequestIds) && seenNonces == old(seenNonces)
    {
      replayed := confirmationId in seenConfirmations;
      if !replayed {
        seenConfirmations := seenConfirmations + {confirmationId};
      }
    }

    method Reset()
      modifies this
      ensures seenRequestIds == {} && seenNonces == {} && seenConfirmations == {}
    {
      seenRequestIds, seenNonces, seenConfirmations := {}, {}, {};
    }
  }

  type Seen = (set<string>, set<string>)

  function Record(seen: Seen, requestId: string, nonce: string): Seen {
    if requestId in seen.0 || nonce in seen.1 then seen else (seen.0 + {requestId}, seen.1 + {nonce})
  }

  /** The sets after a run of requests, from empty ones. */
  function After(requests: seq<(string, string)>): Seen {
    if requests == [] then ({}, {})
    else Record(After(requests[..|requests| - 1]), requests[|requests| - 1].0, requests[|requests| - 1].1)
  }

  /** Whether request `i` of the run is processed. */
  predicate Processed(requests: seq<(string, string)>, i: nat)
    requires i < |requests|
  {
    var seen := After(requests[..i]);
    requests[i].0 !in seen.0 && requests[i].1 !in seen.1
  }

  ghost predicate IdProcessed(requests: seq<(string, string)>, n: nat, id: string)
    requires n <= |requests|
  {
    exists i: nat :: i < n && Processed(requests, i) && requests[i].0 == id
  }

  ghost predicate NonceProcessed(requests: seq<(string, string)>, n: nat, nonce: string)
    requires n <= |requests|
  {
    exists i: nat :: i < n && Processed(requests, i) && requests[i].1 == nonce
  }

  lemma {:induction false} SeenAreProcessed(requests: seq<(string, string)>, n: nat)
    requires n <= |requests|
    ensures forall id :: id in After(requests[..n]).0 <==> IdProcessed(requests, n, id)
    ensures forall x :: x in After(requests[..n]).1 <==> NonceProcessed(requests, n, x)
  {
    hide Processed, After;
    if n > 0 {
      SeenAreProcessed(requests, n - 1);
      LastStep(requests, n);
    } else {
      EmptyRun(requests);
    }
  }

  lemma EmptyRun(requests: seq<(string, string)>)
    ensures After(requests[..0]) == ({}, {})
  {
    assert requests[..0] == [];
  }

  lemma LastStep(requests: seq<(string, string)>, n: nat)
    requires 0 < n <= |requests|
    ensures var before, after := After(requests[..n - 1]), After(requests[..n]);
            after == if Processed(requests, n - 1)
                     then (before.0 + {requests[n - 1].0}, before.1 + {requests[n - 1].1}) else before
  {
    assert requests[..n][..n - 1] == requests[..n - 1];
  }

  /** A request is refused exactly when an earlier processed one has its id or its nonce. */
  lemma RefusedIff(requests: seq<(string, string)>, j: nat)
    requires j < |requests|
    ensures !Processed(requests, j) <==>
            IdProcessed(requests, j, requests[j].0) || NonceProcessed(requests, j, requests[j].1)
  {
    SeenAreProcessed(requests, j);
  }
}
