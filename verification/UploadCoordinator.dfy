/** The module-level owner of upload requests. An abort controller is named by the number of the request that made
    it. */
module UploadCoordinator {
  import opened DraftUploads

  /** The controller map, the controllers whose signal is aborted, and the next controller to be made. */
  datatype Coord = Coord(controllers: map<string, nat>, aborted: set<nat>, next: nat)
  {
    function Start(id: string): Coord {
      Coord(controllers[id := next], aborted, next + 1)
    }

    function AbortOne(id: string): Coord {
      if id in controllers then Coord(controllers - {id}, aborted + {controllers[id]}, next) else this
    }

    function AbortEvery(): Coord {
      Coord(map[], aborted + controllers.Values, next)
    }

    /** The `finally` block: give up the entry only while it is still ours. */
    function Finish(id: string, controller: nat): Coord {
      if id in controllers && controllers[id] == controller then this.(controllers := controllers - {id}) else this
    }
  }

  datatype Outcome = Delivered(attachment: Attachment) | FailedWith(message: string)

  /** Where the promise of `uploadFile` stands. A settled promise is not observed until its continuation runs. */
  datatype Phase = Running | Resolved(attachment: Attachment) | Rejected(abortError: bool, message: string) | Done

  /** How one call of `onSettled` may go wrong. */
  datatype Throw = NoThrow | Throws(abortError: bool, message: string)

  predicate Swallowed(aborted: bool, abortError: bool) {
    aborted || abortError
  }

  /** The calls of `onSettled` made by one continuation. An uploaded call that throws lands in the same `catch`. */
  function Outcomes(phase: Phase, aborted: bool, callback: Throw): seq<Outcome> {
    match phase
    case Resolved(a) =>
      [Delivered(a)]
      + (if callback.Throws? && !Swallowed(aborted, callback.abortError) then [FailedWith(callback.message)] else [])
    case Rejected(abortError, message) =>
      if Swallowed(aborted, abortError) then [] else [FailedWith(message)]
    case _ => []
  }

  /** A request settles twice exactly when its success callback throws something that does not look like an abort. */
  lemma TwoOutcomesExactly(phase: Phase, aborted: bool, callback: Throw)
    ensures |Outcomes(phase, aborted, callback)| <= 2
    ensures |Outcomes(phase, aborted, callback)| == 2
            <==> phase.Resolved? && callback.Throws? && !aborted && !callback.abortError
    ensures |Outcomes(phase, aborted, callback)| == 0
            <==> !phase.Resolved? && (phase.Rejected? ==> aborted || phase.abortError)
  {
  }

  /** A success callback that throws, say because storage is full, is called again with that failure. */
  lemma ThrowingCallbackRunsTwice(a: Attachment)
    ensures Outcomes(Resolved(a), false, Throws(false, "quota")) == [Delivered(a), FailedWith("quota")]
  {
  }

  /** A request that ends after another was started under its id does not take the newer one out of the map. */
  lemma RestartIsNotEvicted(c: Coord, id: string, older: nat)
    requires older != c.next
    ensures var t := c.Start(id).Finish(id, older);
            id in t.controllers && t.controllers[id] == c.next && t == c.Start(id)
  {
  }

  class Coordinator {
    var controllers: map<string, nat>
    var aborted: set<nat>
    var next: nat

    ghost function State(): Coord
      reads this
    {
      Coord(controllers, aborted, next)
    }

    constructor ()
      ensures State() == Coord(map[], {}, 0)
    {
      controllers, aborted, next := map[], {}, 0;
    }

    method StartUpload(clientUploadId: string) returns (controller: nat)
      modifies this
      ensures State() == old(State()).Start(clientUploadId) && controller == old(next)
    {
      controller := next;
      next := next + 1;
      controllers := controllers[clientUploadId := controller];
    }

    method FinishUpload(clientUploadId: string, controller: nat)
      modifies this
      ensures State() == old(State()).Finish(clientUploadId, controller)
    {
      if clientUploadId in controllers && controllers[clientUploadId] == controller {
        controllers := controllers - {clientUploadId};
      }
    }

    method AbortUpload(clientUploadId: string)
      modifies this
      ensures State() == old(State()).AbortOne(clientUploadId)
    {
      if clientUploadId !in controllers {
        return;
      }
      var controller := controllers[clientUploadId];
      controllers := controllers - {clientUploadId};
      aborted := aborted + {controller};
    }

    method AbortAll()
      modifies this
      ensures State() == old(State()).AbortEvery()
    {
      if |controllers| == 0 {
        return;
      }
      var rest := controllers.Keys;
      while rest != {}
        invariant rest <= controllers.Keys
        invariant controllers == old(controllers) && next == old(next)
        invariant aborted == old(aborted) + set id | id in controllers && id !in rest :: controllers[id]
      {
        var id :| id in rest;
        aborted := aborted + {controllers[id]};
        rest := rest - {id};
      }
      controllers := map[];
    }
  }
}
