/** Values shared by the two services: what they read of a submitted message,
    the location computation they call, and what their futures complete with. */
module ServiceTypes {
  import opened Common
  import opened SatelliteConstants
  import opened BasicFunctions

  /** What a service reads of a message through getName, getDistance and
      getMessage. */
  datatype Reading = Reading(name: string, distance: real, message: seq<string>)

  /** BasicFunctions.GetLocation, the three-circle intersection, taken as given:
      the distances in the roles (rKenobi, rSato, rSkywalker) of
      calculateThreeCircleIntersection, and None where it throws
      LocationProcessingException. */
  type Locator = (real, real, real) -> Option<Location>

  /** The message-source keys of the BAD_REQUEST bodies. */
  datatype Reason = ExcessiveMessagesTryAgainLater | InvalidJsonMessage | InsufficientDataMessage

  /** An exception that leaves the service's catch blocks. */
  datatype Thrown = LocationProcessingException | MessageThrown(error: MessageError)

  /** The ResponseEntity a future completes with: OK with a ResponseObject,
      BAD_REQUEST with a message key, or completion by an exception. */
  datatype Response =
    | Ok(position: Location, message: seq<string>)
    | BadRequest(reason: Reason)
    | Raised(exception: Thrown)

  /** What addSatelliteMessage hands back: the round's task, identified by the
      number of the round that created it, or a future already completed. */
  datatype Future = Pending(task: nat) | Completed(response: Response)

  /** The names, in arrival order. */
  function Names(rs: seq<Reading>): seq<string>
  {
    seq(|rs|, i requires 0 <= i < |rs| => rs[i].name)
  }

  /** The word arrays, in arrival order. */
  function Messages(rs: seq<Reading>): seq<seq<string>>
  {
    seq(|rs|, i requires 0 <= i < |rs| => rs[i].message)
  }

  /** The check of RequestObject: exactly three entries whose names, as stored,
      are pairwise different (the HashSet of names has three members). */
  predicate DistinctNames(names: seq<string>) {
    |names| == 3 && names[0] != names[1] && names[1] != names[2] && names[0] != names[2]
  }
}
