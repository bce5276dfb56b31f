/** services.SplitSatelliteMessagesProcessorService: gathers the reports of one
    split request, one per call, and answers all callers of a round with the
    same task. The first report of a round opens it (a new latch and a new
    task); a fourth report is turned away; the third releases the latch. The
    task, once the latch is released or its wait has timed out, reads the
    gathered reports, clears the list and completes.

    The waiting itself is not modelled: Execute is the task's synchronized
    body, called once the wait is over. GetLocation is the Locator parameter. */
module SplitService {
  import opened Common
  import opened JavaStrings
  import opened SatelliteConstants
  import opened BasicFunctions
  import opened ServiceTypes
  import EntitySatelliteMessage

  type Message = EntitySatelliteMessage.SatelliteMessage

  /** What the task reads of the gathered messages, in arrival order. */
  function ReadingsOf(ms: seq<Message>): seq<Reading>
    reads ms
  {
    seq(|ms|, i reads ms requires 0 <= i < |ms| => ms[i].Snapshot())
  }

  /** Comparator.comparing(SatelliteMessage::getName): no entry's name comes
      before the name of an entry ahead of it. */
  ghost predicate SortedByName(s: seq<Reading>) {
    forall i, j :: 0 <= i < j < |s| ==> !LessThan(s[j].name, s[i].name)
  }

  /** Puts x ahead of the first entry whose name comes after its own. */
  function Insert(x: Reading, s: seq<Reading>): (r: seq<Reading>)
    ensures |r| == |s| + 1
    ensures multiset(r) == multiset(s) + multiset{x}
  {
    if s == [] then [x]
    else if LessThan(x.name, s[0].name) then [x] + s
    else
      assert s == [s[0]] + s[1..];
      [s[0]] + Insert(x, s[1..])
  }

  /** sorted(Comparator.comparing(SatelliteMessage::getName)): a stable
      insertion sort. */
  function SortByName(rs: seq<Reading>): (s: seq<Reading>)
    ensures |s| == |rs|
    ensures multiset(s) == multiset(rs)
  {
    if rs == [] then []
    else
      assert rs == rs[..|rs| - 1] + [rs[|rs| - 1]];
      Insert(rs[|rs| - 1], SortByName(rs[..|rs| - 1]))
  }

  /** Inserting into a sorted list keeps it sorted. */
  lemma {:induction false} InsertKeepsOrder(x: Reading, s: seq<Reading>)
    requires SortedByName(s)
    ensures SortedByName(Insert(x, s))
  {
    if s == [] {
    } else if LessThan(x.name, s[0].name) {
      forall j | 0 <= j < |s| ensures !LessThan(s[j].name, x.name) {
        if LessThan(s[j].name, x.name) {
          LessThanTransitive(s[j].name, x.name, s[0].name);
          if j == 0 {
            LessThanIrreflexive(s[0].name);
          }
        }
      }
    } else {
      var t := Insert(x, s[1..]);
      InsertKeepsOrder(x, s[1..]);
      forall k | 0 <= k < |t| ensures !LessThan(t[k].name, s[0].name) {
        assert t[k] in multiset(t);
        assert t[k] == x || t[k] in multiset(s[1..]);
      }
      var r := [s[0]] + t;
      forall i, j | 0 <= i < j < |r| ensures !LessThan(r[j].name, r[i].name) {
        if i > 0 {
          assert r[i] == t[i - 1] && r[j] == t[j - 1];
        }
      }
    }
  }

  /** The sorted list is ordered by name. */
  lemma {:induction false} SortByNameSorted(rs: seq<Reading>)
    ensures SortedByName(SortByName(rs))
  {
    if rs != [] {
      SortByNameSorted(rs[..|rs| - 1]);
      InsertKeepsOrder(rs[|rs| - 1], SortByName(rs[..|rs| - 1]));
    }
  }

  /** Each of the three lower-case names is one of a, b and c. */
  ghost predicate Covers(a: string, b: string, c: string) {
    && (a == "kenobi" || b == "kenobi" || c == "kenobi")
    && (a == "sato" || b == "sato" || c == "sato")
    && (a == "skywalker" || b == "skywalker" || c == "skywalker")
  }

  /** Three distinct lower-case names are the three satellites. */
  lemma CoverLowerNames(a: string, b: string, c: string)
    requires a in LowerNames && b in LowerNames && c in LowerNames
    requires a != b && b != c && a != c
    ensures Covers(a, b, c)
  {
  }

  /** The only order of the three names that compareTo accepts. */
  lemma OrderOfLowerNames(a: string, b: string, c: string)
    requires Covers(a, b, c)
    requires !LessThan(b, a) && !LessThan(c, a) && !LessThan(c, b)
    ensures a == "kenobi" && b == "sato" && c == "skywalker"
  {
    assert LessThan("kenobi", "sato") && LessThan("kenobi", "skywalker");
    assert LessThan("sato", "skywalker") by {
      assert "sato"[1..] == "ato" && "skywalker"[1..] == "kywalker";
    }
    LessThanIrreflexive(a);
    LessThanIrreflexive(b);
  }

  /** Every entry of a list of three is one of the three entries of any
      permutation of it. */
  lemma EntriesOfPermutation(rs: seq<Reading>, s: seq<Reading>)
    requires |rs| == 3 && multiset(s) == multiset(rs)
    ensures |s| == 3
    ensures forall i :: 0 <= i < 3 ==> rs[i] == s[0] || rs[i] == s[1] || rs[i] == s[2]
    ensures forall i :: 0 <= i < 3 ==> s[i] in rs
  {
    assert |s| == |multiset(s)| == |multiset(rs)| == 3;
    forall i | 0 <= i < 3 ensures rs[i] == s[0] || rs[i] == s[1] || rs[i] == s[2] {
      assert rs[i] in multiset(s);
      assert rs[i] in s;
    }
    forall i | 0 <= i < 3 ensures s[i] in rs {
      assert s[i] in multiset(rs);
    }
  }

  /** The sorted list of three, pair by pair. */
  lemma SortedThree(rs: seq<Reading>)
    requires |rs| == 3
    ensures |SortByName(rs)| == 3
    ensures !LessThan(SortByName(rs)[1].name, SortByName(rs)[0].name)
    ensures !LessThan(SortByName(rs)[2].name, SortByName(rs)[0].name)
    ensures !LessThan(SortByName(rs)[2].name, SortByName(rs)[1].name)
  {
    SortByNameSorted(rs);
  }

  /** A list of three whose entries are those of rs, ordered by name, holds
      kenobi, sato and skywalker in this order. */
  lemma RolesInOrder(rs: seq<Reading>, s: seq<Reading>)
    requires DistinctNames(Names(rs))
    requires forall i :: 0 <= i < |rs| ==> rs[i].name in LowerNames
    requires |s| == 3
    requires forall i :: 0 <= i < 3 ==> rs[i] == s[0] || rs[i] == s[1] || rs[i] == s[2]
    requires !LessThan(s[1].name, s[0].name) && !LessThan(s[2].name, s[0].name) && !LessThan(s[2].name, s[1].name)
    ensures s[0].name == "kenobi" && s[1].name == "sato" && s[2].name == "skywalker"
  {
    CoverLowerNames(rs[0].name, rs[1].name, rs[2].name);
    assert Covers(s[0].name, s[1].name, s[2].name);
    OrderOfLowerNames(s[0].name, s[1].name, s[2].name);
  }

  /** Stored names are lower-case, so sorting three distinct ones puts kenobi,
      sato and skywalker in this order: the roles (rKenobi, rSato, rSkywalker)
      of calculateThreeCircleIntersection. */
  lemma SortedRoles(rs: seq<Reading>)
    requires DistinctNames(Names(rs))
    requires forall i :: 0 <= i < |rs| ==> rs[i].name in LowerNames
    ensures |SortByName(rs)| == 3
    ensures SortByName(rs)[0].name == "kenobi"
    ensures SortByName(rs)[1].name == "sato"
    ensures SortByName(rs)[2].name == "skywalker"
  {
    EntriesOfPermutation(rs, SortByName(rs));
    SortedThree(rs);
    RolesInOrder(rs, SortByName(rs));
  }

  /** In a list of three distinct names, an entry is known by its name. */
  lemma KnownByName(rs: seq<Reading>, x: Reading, y: Reading)
    requires DistinctNames(Names(rs)) && x in rs && y in rs && x.name == y.name
    ensures x == y
  {
  }

  /** The response once the distances have been handed to GetLocation:
      - GetLocation failing (LocationProcessingException):
        INSUFFICIENT_DATA_MESSAGE, and GetMessage is not called;
      - GetMessage recovering nothing (MessageProcessingException):
        INSUFFICIENT_DATA_MESSAGE;
      - GetMessage reading out of bounds or finding a blank position: the
        task completes with that exception, which no catch block names;
      - otherwise OK with the location and a fused message. */
  ghost predicate Completion(position: Option<Location>, messages: seq<seq<string>>, r: Response)
    requires |messages| == 3
  {
    if position.None? then r == BadRequest(InsufficientDataMessage)
    else match Failure(messages)
      case Some(NothingRecovered) => r == BadRequest(InsufficientDataMessage)
      case Some(e) => r == Raised(MessageThrown(e))
      case None => r.Ok? && r.position == position.value && Fused(messages, r.message)
  }

  /** The response the task of a round completes with, given what it read of
      the gathered messages in arrival order: INVALID_JSON_MESSAGE unless they
      are three with pairwise different names, and otherwise the Completion of
      GetLocation on the distances in name order and GetMessage on the word
      arrays in arrival order. */
  ghost predicate ExecuteOutcome(snapshot: seq<Reading>, locate: Locator, r: Response) {
    if !DistinctNames(Names(snapshot)) then r == BadRequest(InvalidJsonMessage)
    else
      var sorted := SortByName(snapshot);
      Completion(locate(sorted[0].distance, sorted[1].distance, sorted[2].distance), Messages(snapshot), r)
  }

  /** The completion depends only on which copies there are. */
  lemma SameCopiesSameCompletion(position: Option<Location>, m1: seq<seq<string>>, m2: seq<seq<string>>, r: Response)
    requires SameCopies(m1, m2)
    ensures Completion(position, m1, r) <==> Completion(position, m2, r)
  {
    SameCopiesSameOutcome(m1, m2, if r.Ok? then r.message else []);
  }

  /** A permutation has the same length and the same entries. */
  lemma PermutedReadings(rs: seq<Reading>, other: seq<Reading>)
    requires multiset(rs) == multiset(other)
    ensures |rs| == |other|
    ensures forall x :: x in rs <==> x in other
  {
    assert |rs| == |multiset(rs)| == |multiset(other)| == |other|;
    forall x ensures x in rs <==> x in other {
      assert x in rs <==> x in multiset(rs);
      assert x in other <==> x in multiset(other);
    }
  }

  /** Lists of three with the same entries agree on the name check. */
  lemma SameEntriesSameCheck(rs: seq<Reading>, other: seq<Reading>)
    requires |rs| == |other| == 3 && forall x :: x in rs <==> x in other
    ensures DistinctNames(Names(rs)) <==> DistinctNames(Names(other))
  {
    var n, o := Names(rs), Names(other);
    assert {n[0], n[1], n[2]} == {o[0], o[1], o[2]} by {
      assert rs[0] in other && rs[1] in other && rs[2] in other;
      assert other[0] in rs && other[1] in rs && other[2] in rs;
    }
    ThreeDistinct(n[0], n[1], n[2]);
    ThreeDistinct(o[0], o[1], o[2]);
  }

  /** Two lists of three entries of rs that agree on names are equal. */
  lemma SameNamesSameEntries(rs: seq<Reading>, s1: seq<Reading>, s2: seq<Reading>)
    requires DistinctNames(Names(rs))
    requires |s1| == |s2| == 3
    requires s1[0] in rs && s1[1] in rs && s1[2] in rs
    requires s2[0] in rs && s2[1] in rs && s2[2] in rs
    requires s1[0].name == s2[0].name && s1[1].name == s2[1].name && s1[2].name == s2[2].name
    ensures s1 == s2
  {
    KnownByName(rs, s1[0], s2[0]);
    KnownByName(rs, s1[1], s2[1]);
    KnownByName(rs, s1[2], s2[2]);
  }

  /** Three pairwise different names in an order compareTo accepts are in
      strictly increasing order. */
  lemma StrictlyOrdered(a: string, b: string, c: string)
    requires a != b && b != c && a != c
    requires !LessThan(b, a) && !LessThan(c, a) && !LessThan(c, b)
    ensures LessThan(a, b) && LessThan(b, c)
  {
    LessThanTotal(a, b);
    LessThanTotal(b, c);
  }

  /** Two strictly increasing arrangements of the same three names are the
      same arrangement. */
  lemma UniqueOrder(a0: string, a1: string, a2: string, b0: string, b1: string, b2: string)
    requires LessThan(a0, a1) && LessThan(a1, a2) && LessThan(b0, b1) && LessThan(b1, b2)
    requires b0 == a0 || b0 == a1 || b0 == a2
    requires b1 == a0 || b1 == a1 || b1 == a2
    requires b2 == a0 || b2 == a1 || b2 == a2
    ensures a0 == b0 && a1 == b1 && a2 == b2
  {
    LessThanTransitive(a0, a1, a2);
    LessThanTransitive(b0, b1, b2);
    LessThanIrreflexive(a0);
    LessThanIrreflexive(a1);
    LessThanIrreflexive(a2);
    if b0 != a0 {
      // a0 is b1 or b2, so b0 comes before a0, and a0 before every other name
      if b0 == a1 {
        LessThanTransitive(b0, a0, a1);
      } else {
        LessThanTransitive(b0, a0, a2);
      }
    }
    if b2 != a2 {
      if b2 == a0 {
        LessThanTransitive(a0, a2, b2);
      } else {
        LessThanTransitive(a1, a2, b2);
      }
    }
  }

  /** The sorted list of three readings with pairwise different names is in
      strictly increasing name order. */
  lemma SortedStrictly(rs: seq<Reading>)
    requires DistinctNames(Names(rs))
    ensures |SortByName(rs)| == 3
    ensures DistinctNames(Names(SortByName(rs)))
    ensures LessThan(SortByName(rs)[0].name, SortByName(rs)[1].name)
    ensures LessThan(SortByName(rs)[1].name, SortByName(rs)[2].name)
  {
    var s := SortByName(rs);
    PermutedReadings(rs, s);
    SameEntriesSameCheck(rs, s);
    SortedThree(rs);
    StrictlyOrdered(s[0].name, s[1].name, s[2].name);
  }

  /** Two strictly name-ordered lists of three, each holding the entries of rs,
      are equal. */
  lemma SameStrictArrangement(rs: seq<Reading>, s1: seq<Reading>, s2: seq<Reading>)
    requires DistinctNames(Names(rs)) && |s1| == |s2| == 3
    requires forall i :: 0 <= i < 3 ==> rs[i] == s1[0] || rs[i] == s1[1] || rs[i] == s1[2]
    requires s1[0] in rs && s1[1] in rs && s1[2] in rs
    requires s2[0] in rs && s2[1] in rs && s2[2] in rs
    requires LessThan(s1[0].name, s1[1].name) && LessThan(s1[1].name, s1[2].name)
    requires LessThan(s2[0].name, s2[1].name) && LessThan(s2[1].name, s2[2].name)
    ensures s1 == s2
  {
    forall i | 0 <= i < 3 ensures s2[i] == s1[0] || s2[i] == s1[1] || s2[i] == s1[2] {
      var j :| 0 <= j < 3 && rs[j] == s2[i];
    }
    UniqueOrder(s1[0].name, s1[1].name, s1[2].name, s2[0].name, s2[1].name, s2[2].name);
    SameNamesSameEntries(rs, s1, s2);
  }

  /** Lists of three distinct satellites with the same entries sort alike: with
      no two names equal, compareTo leaves only one order. */
  lemma SameEntriesSameSort(rs: seq<Reading>, other: seq<Reading>)
    requires |rs| == |other| == 3 && forall x :: x in rs <==> x in other
    requires DistinctNames(Names(rs)) && DistinctNames(Names(other))
    ensures SortByName(rs) == SortByName(other)
  {
    SortedStrictly(rs);
    SortedStrictly(other);
    var s1, s2 := SortByName(rs), SortByName(other);
    EntriesOfPermutation(rs, s1);
    EntriesOfPermutation(other, s2);
    assert s2[0] in other && s2[1] in other && s2[2] in other;
    SameStrictArrangement(rs, s1, s2);
  }

  /** Lists of three with the same entries hold the same message copies. */
  lemma SameEntriesSameCopies(rs: seq<Reading>, other: seq<Reading>)
    requires |rs| == |other| == 3 && forall x :: x in rs <==> x in other
    ensures SameCopies(Messages(rs), Messages(other))
  {
    var m1, m2 := Messages(rs), Messages(other);
    forall i | 0 <= i < 3
      ensures m2[i] == m1[0] || m2[i] == m1[1] || m2[i] == m1[2]
      ensures m1[i] == m2[0] || m1[i] == m2[1] || m1[i] == m2[2]
    {
      assert other[i] in rs && rs[i] in other;
    }
  }

  /** The order in which the reports arrived does not change the set of
      responses the task may complete with: distances are sorted by name, and
      the set of results GetMessage may return does not depend on the order of
      its copies. Which of them the HashSet yields can. */
  lemma ExecuteIgnoresArrivalOrder(rs: seq<Reading>, other: seq<Reading>, locate: Locator, r: Response)
    requires multiset(rs) == multiset(other)
    ensures ExecuteOutcome(rs, locate, r) <==> ExecuteOutcome(other, locate, r)
  {
    PermutedReadings(rs, other);
    if |rs| == 3 {
      SameEntriesSameCheck(rs, other);
      if DistinctNames(Names(rs)) {
        SameEntriesSameSort(rs, other);
        SameEntriesSameCopies(rs, other);
        var sorted := SortByName(rs);
        var position := locate(sorted[0].distance, sorted[1].distance, sorted[2].distance);
        SameCopiesSameCompletion(position, Messages(rs), Messages(other), r);
      }
    }
  }

  /** GetLocation receives the distances in its roles (rKenobi, rSato,
      rSkywalker): for three checked reports named kenobi, sato and
      skywalker, at whatever positions they arrived, the response is the
      Completion of GetLocation on kenobi's, sato's and skywalker's distances. */
  lemma ExecuteLocatesByRole(snapshot: seq<Reading>, locate: Locator, r: Response, i: nat, j: nat, k: nat)
    requires DistinctNames(Names(snapshot)) && i < 3 && j < 3 && k < 3
    requires snapshot[i].name == "kenobi" && snapshot[j].name == "sato" && snapshot[k].name == "skywalker"
    ensures ExecuteOutcome(snapshot, locate, r) <==>
              Completion(locate(snapshot[i].distance, snapshot[j].distance, snapshot[k].distance), Messages(snapshot), r)
  {
    forall n | 0 <= n < |snapshot| ensures snapshot[n].name in LowerNames {
      assert n == i || n == j || n == k;
    }
    var sorted := SortByName(snapshot);
    SortedRoles(snapshot);
    EntriesOfPermutation(snapshot, sorted);
    RoleEntries(snapshot, sorted, i, j, k);
  }

  /** The entries of a sorted list that carry the three names are the reports
      at i, j and k. */
  lemma RoleEntries(snapshot: seq<Reading>, sorted: seq<Reading>, i: nat, j: nat, k: nat)
    requires DistinctNames(Names(snapshot)) && i < 3 && j < 3 && k < 3 && |sorted| == 3
    requires snapshot[i].name == "kenobi" && snapshot[j].name == "sato" && snapshot[k].name == "skywalker"
    requires sorted[0] in snapshot && sorted[1] in snapshot && sorted[2] in snapshot
    requires sorted[0].name == "kenobi" && sorted[1].name == "sato" && sorted[2].name == "skywalker"
    ensures sorted[0] == snapshot[i] && sorted[1] == snapshot[j] && sorted[2] == snapshot[k]
  {
    KnownByName(snapshot, sorted[0], snapshot[i]);
    KnownByName(snapshot, sorted[1], snapshot[j]);
    KnownByName(snapshot, sorted[2], snapshot[k]);
  }

  /** Two reports under one name are refused as invalid JSON, as are fewer or
      more than three reports. */
  lemma RepeatedNameRejected(snapshot: seq<Reading>, locate: Locator, r: Response)
    requires !DistinctNames(Names(snapshot))
    ensures ExecuteOutcome(snapshot, locate, r) <==> r == BadRequest(InvalidJsonMessage)
  {
  }

  class SplitSatelliteMessagesProcessorService {
    /** The synchronized list of the open round's messages, in arrival order. */
    var satelliteMessages: seq<Message>
    /** The latest round's task, named by the number of that round. */
    var task: nat
    /** The count of waitUntil3Messages. */
    var latchCount: nat
    /** How many rounds have been opened. */
    var rounds: nat
    /** What each finished task completed with. */
    var results: map<nat, Response>

    /** At most three messages; finished tasks belong to opened rounds; and while
        a round is open its task is the newest one, still unfinished, and its
        latch is released exactly when the third message has arrived. */
    ghost predicate Valid()
      reads this
    {
      && |satelliteMessages| <= 3
      && (forall id :: id in results ==> id < rounds)
      && (|satelliteMessages| > 0 ==>
            && task + 1 == rounds
            && task !in results
            && latchCount == (if |satelliteMessages| == 3 then 0 else 1))
    }

    constructor ()
      ensures Valid()
      ensures satelliteMessages == [] && rounds == 0 && results == map[]
    {
      satelliteMessages := [];
      task := 0;
      latchCount := 0;
      rounds := 0;
      results := map[];
    }

    /** addSatelliteMessage: the first message of a round opens it with a new
        latch and a task no one has seen; a message that finds three already
        gathered gets EXCESSIVE_MESSAGES_TRY_AGAIN_LATER and changes nothing;
        any other message is appended and gets the round's task, and the third
        one releases the latch. */
    method AddSatelliteMessage(message: Message) returns (f: Future)
      requires Valid()
      modifies this
      ensures Valid()
      ensures results == old(results)
      ensures old(|satelliteMessages|) == 0 ==> task == old(rounds) && rounds == old(rounds) + 1
      ensures old(|satelliteMessages|) > 0 ==> task == old(task) && rounds == old(rounds)
      ensures old(|satelliteMessages|) == 3 ==>
                && f == Completed(BadRequest(ExcessiveMessagesTryAgainLater))
                && satelliteMessages == old(satelliteMessages)
                && latchCount == old(latchCount)
      ensures old(|satelliteMessages|) < 3 ==>
                f == Pending(task) && satelliteMessages == old(satelliteMessages) + [message]
    {
      if |satelliteMessages| == 0 {
        latchCount := 1;
        task := rounds;
        rounds := rounds + 1;
      }
      if |satelliteMessages| == 3 {
        return Completed(BadRequest(ExcessiveMessagesTryAgainLater));
      }
      satelliteMessages := satelliteMessages + [message];
      if |satelliteMessages| == 3 {
        latchCount := latchCount - 1;
      }
      f := Pending(task);
    }

    /** The synchronized body of execute, run by the open round's task: it
        reads the gathered messages, clears the list on every path and
        completes the task with the response ExecuteOutcome describes. */
    method Execute(locate: Locator) returns (r: Response)
      requires Valid() && |satelliteMessages| > 0
      modifies this
      ensures Valid()
      ensures satelliteMessages == []
      ensures ExecuteOutcome(old(ReadingsOf(satelliteMessages)), locate, r)
      ensures results == old(results)[task := r]
      ensures task == old(task) && rounds == old(rounds) && latchCount == old(latchCount)
    {
      var snapshot := ReadingsOf(satelliteMessages);
      if !DistinctNames(Names(snapshot)) {
        satelliteMessages := [];
        r := BadRequest(InvalidJsonMessage);
      } else {
        var messages := Messages(snapshot);
        var sorted := SortByName(snapshot);
        var distances := [sorted[0].distance, sorted[1].distance, sorted[2].distance];
        satelliteMessages := [];
        var position := locate(distances[0], distances[1], distances[2]);
        if position.None? {
          r := BadRequest(InsufficientDataMessage);
        } else {
          var decoded := GetMessage(messages);
          match decoded
          case Recovered(words) =>
            r := Ok(position.value, words);
          case Failed(NothingRecovered) =>
            r := BadRequest(InsufficientDataMessage);
          case Failed(e) =>
            r := Raised(MessageThrown(e));
        }
      }
      results := results[task := r];
    }
  }

  /** A full round: three callers share one task no one has seen before, the
      third releases the latch, and a fourth is turned away. */
  method RoundOfThree(service: SplitSatelliteMessagesProcessorService, a: Message, b: Message, c: Message, d: Message)
    returns (fa: Future, fb: Future, fc: Future, fd: Future)
    requires service.Valid() && service.satelliteMessages == []
    modifies service
    ensures service.Valid()
    ensures fa == fb == fc == Pending(service.task)
    ensures service.task !in old(service.results)
    ensures fd == Completed(BadRequest(ExcessiveMessagesTryAgainLater))
    ensures service.satelliteMessages == [a, b, c] && service.latchCount == 0
  {
    fa := service.AddSatelliteMessage(a);
    fb := service.AddSatelliteMessage(b);
    fc := service.AddSatelliteMessage(c);
    fd := service.AddSatelliteMessage(d);
  }

  /** Two reports and then the end of the wait: both callers get the same task,
      which completes with INVALID_JSON_MESSAGE and leaves the list empty. */
  method TimeoutWithTwoMessages(service: SplitSatelliteMessagesProcessorService, a: Message, b: Message, locate: Locator)
    returns (fa: Future, fb: Future, r: Response)
    requires service.Valid() && service.satelliteMessages == []
    modifies service
    ensures service.Valid() && service.satelliteMessages == []
    ensures fa == fb == Pending(service.task)
    ensures r == BadRequest(InvalidJsonMessage)
    ensures service.task in service.results && service.results[service.task] == r
  {
    fa := service.AddSatelliteMessage(a);
    fb := service.AddSatelliteMessage(b);
    r := service.Execute(locate);
  }
}
