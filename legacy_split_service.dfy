/** The older SplitSatelliteMessagesProcessorService of the root package. It
    gathers rounds exactly as the services one does, but its task (run) builds
    an objects.RequestObject, hands the distances to GetLocation in arrival
    order, and catches only JsonParseException: every failure of GetLocation
    or GetMessage completes the task with that exception. The list is still
    cleared before either is called.

    The waiting itself is not modelled: Run is the task's synchronized body,
    called once the wait is over. GetLocation is the Locator parameter. */
module LegacySplitService {
  import opened Common
  import opened SatelliteConstants
  import opened BasicFunctions
  import opened ServiceTypes
  import RequestObjects
  import ObjectSatelliteMessage

  type Message = ObjectSatelliteMessage.SatelliteMessage

  /** What the task reads of the gathered messages, in arrival order. */
  function ReadingsOf(ms: seq<Message>): seq<Reading>
    reads ms
  {
    seq(|ms|, i reads ms requires 0 <= i < |ms| => ms[i].Snapshot())
  }

  /** The response once the distances have been handed to GetLocation: an
      exception of GetLocation or GetMessage completes the task with it, and
      otherwise the task answers OK with the location and a fused message. */
  ghost predicate Completion(position: Option<Location>, messages: seq<seq<string>>, r: Response)
    requires |messages| == 3
  {
    if position.None? then r == Raised(LocationProcessingException)
    else match Failure(messages)
      case Some(e) => r == Raised(MessageThrown(e))
      case None => r.Ok? && r.position == position.value && Fused(messages, r.message)
  }

  /** The response of run given what it read in arrival order:
      INVALID_JSON_MESSAGE unless the RequestObject check passes, and otherwise
      the Completion of GetLocation on the distances in arrival order and
      GetMessage on the word arrays in arrival order. */
  ghost predicate RunOutcome(snapshot: seq<Reading>, locate: Locator, r: Response) {
    if !DistinctNames(Names(snapshot)) then r == BadRequest(InvalidJsonMessage)
    else
      Completion(locate(snapshot[0].distance, snapshot[1].distance, snapshot[2].distance), Messages(snapshot), r)
  }

  /** Unlike the services variant, this one depends on the order of arrival:
      the same three reports, two of them swapped, reach GetLocation as
      different arguments, so one order can be located where the other fails. */
  lemma ArrivalOrderMatters(a: Reading, b: Reading, c: Reading, locate: Locator)
    requires DistinctNames([a.name, b.name, c.name])
    requires locate(a.distance, b.distance, c.distance).Some?
    requires locate(b.distance, a.distance, c.distance).None?
    ensures RunOutcome([b, a, c], locate, Raised(LocationProcessingException))
    ensures !RunOutcome([a, b, c], locate, Raised(LocationProcessingException))
  {
    assert Names([a, b, c]) == [a.name, b.name, c.name];
    assert Names([b, a, c]) == [b.name, a.name, c.name];
  }

  /** Names keep the caller's spelling, so two spellings of one satellite pass
      the check and reach GetLocation as if they were two satellites. */
  lemma CaseVariantsPassTheCheck(rs: seq<Reading>, locate: Locator, r: Response)
    requires |rs| == 3 && rs[0].name == "KENOBI" && rs[1].name == "kenobi" && rs[2].name == "sato"
    ensures RunOutcome(rs, locate, r) <==>
              Completion(locate(rs[0].distance, rs[1].distance, rs[2].distance), Messages(rs), r)
  {
    assert Names(rs) == ["KENOBI", "kenobi", "sato"];
  }

  class SplitSatelliteMessagesProcessorService {
    /** The synchronized list of the open round's messages, in arrival order. */
    var satelliteMessages: seq<Message>
    /** The latest round's task, named by the number of that round. */
    var task: nat
    /** The count of waitUntil3Messages. */
    var latchCount: nat
    /** How many rounds have been opened. */
    var rounds: nat
    /** What each finished task completed with. */
    var results: map<nat, Response>

    /** At most three messages; finished tasks belong to opened rounds; and while
        a round is open its task is the newest one, still unfinished, and its
        latch is released exactly when the third message has arrived. */
    ghost predicate Valid()
      reads this
    {
      && |satelliteMessages| <= 3
      && (forall id :: id in results ==> id < rounds)
      && (|satelliteMessages| > 0 ==>
            && task + 1 == rounds
            && task !in results
            && latchCount == (if |satelliteMessages| == 3 then 0 else 1))
    }

    constructor ()
      ensures Valid()
      ensures satelliteMessages == [] && rounds == 0 && results == map[]
    {
      satelliteMessages := [];
      task := 0;
      latchCount := 0;
      rounds := 0;
      results := map[];
    }

    /** addSatelliteMessage: the first message of a round opens it with a new
        latch and a task no one has seen; a message that finds three already
        gathered gets EXCESSIVE_MESSAGES_TRY_AGAIN_LATER and changes nothing;
        any other message is appended and gets the round's task, and the third
        one releases the latch. */
    method AddSatelliteMessage(message: Message) returns (f: Future)
      requires Valid()
      modifies this
      ensures Valid()
      ensures results == old(results)
      ensures old(|satelliteMessages|) == 0 ==> task == old(rounds) && rounds == old(rounds) + 1
      ensures old(|satelliteMessages|) > 0 ==> task == old(task) && rounds == old(rounds)
      ensures old(|satelliteMessages|) == 3 ==>
                && f == Completed(BadRequest(ExcessiveMessagesTryAgainLater))
                && satelliteMessages == old(satelliteMessages)
                && latchCount == old(latchCount)
      ensures old(|satelliteMessages|) < 3 ==>
                f == Pending(task) && satelliteMessages == old(satelliteMessages) + [message]
    {
      if |satelliteMessages| == 0 {
        latchCount := 1;
        task := rounds;
        rounds := rounds + 1;
      }
      if |satelliteMessages| == 3 {
        return Completed(BadRequest(ExcessiveMessagesTryAgainLater));
      }
      satelliteMessages := satelliteMessages + [message];
      if |satelliteMessages| == 3 {
        latchCount := latchCount - 1;
      }
      f := Pending(task);
    }

    /** The synchronized body of run: builds the RequestObject, reads the
        messages and distances in arrival order, clears the list and completes
        the task with the response RunOutcome describes. */
    method Run(locate: Locator) returns (r: Response)
      requires Valid() && |satelliteMessages| > 0
      modifies this
      ensures Valid()
      ensures satelliteMessages == []
      ensures RunOutcome(old(ReadingsOf(satelliteMessages)), locate, r)
      ensures results == old(results)[task := r]
      ensures task == old(task) && rounds == old(rounds) && latchCount == old(latchCount)
    {
      var snapshot := ReadingsOf(satelliteMessages);
      var req := RequestObjects.Create(Some(satelliteMessages));
      assert RequestObjects.NamesOf(satelliteMessages) == Names(snapshot);
      if req.None? {
        satelliteMessages := [];
        r := BadRequest(InvalidJsonMessage);
      } else {
        var messages := Messages(snapshot);
        var distances := [snapshot[0].distance, snapshot[1].distance, snapshot[2].distance];
        satelliteMessages := [];
        var position := locate(distances[0], distances[1], distances[2]);
        if position.None? {
          r := Raised(LocationProcessingException);
        } else {
          var decoded := GetMessage(messages);
          match decoded
          case Recovered(words) =>
            r := Ok(position.value, words);
          case Failed(e) =>
            r := Raised(MessageThrown(e));
        }
      }
      results := results[task := r];
    }
  }
}
