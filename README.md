# Split satellite messages: a verified model

This project models the core of a service that locates a transmitter and reads its
message from what three satellites (Kenobi, Skywalker and Sato) picked up. Each
satellite reports a distance and a noisy copy of the message: a word array with
blanks where words were lost. The model covers four parts:

- **Message recovery.** `BasicFunctions.GetMessage` aligns the three copies on
  their last word. It takes the window from each copy's last non-blank index,
  takes a vote per position through a `HashSet`, and throws when nothing is
  recovered. It is modelled as a method with its loop, proved against a
  specification (`Failure`, `Fused`). Lemmas state what the vote does.
- **Rounds of a split request.** Both `SplitSatelliteMessagesProcessorService`
  classes are modelled: the current one in `services/` and the older one in the
  root package. Each gathers at most three reports per round and hands every
  caller of a round the same task. That task validates the reports, sorts the
  distances by satellite name (current variant only), clears the list and
  completes. Each class keeps its list, its task, its latch count and the
  responses of finished tasks as fields. Each `synchronized` block is one method.
- **Validation.** This covers the `SatelliteMessage` classes of `entities/`
  (stores the name lower-cased) and `objects/` (keeps the caller's spelling),
  and `objects.RequestObject` (three entries with pairwise different names).
  Java's `null` is `None`. A `JsonParseException` is a refused call that changes
  nothing.
- **The registry.** `SatelliteConstants` holds the three names and their
  coordinates.

`GetLocation` (the intersection of three circles, in floating point) is a
parameter of the services. The model calls it with the distances in the order
the code passes them.

Files:

- `java_strings.dfy`: `trim`, `toUpperCase`, `toLowerCase` and `compareTo`.
- `common.dfy`: `Option`.
- `satellite_constants.dfy`: the registry.
- `basic_functions.dfy`: message recovery.
- `service_types.dfy`: readings, responses and futures.
- `entity_satellite_message.dfy` and `object_satellite_message.dfy`: the two
  message classes.
- `request_object.dfy`: `objects.RequestObject`.
- `split_service.dfy`: the `services/` variant.
- `legacy_split_service.dfy`: the root-package variant.

What `GetMessage` does on some inputs, as the code is written:

- `GetMessage([["a","",""], ["","b",""], ["","","c"]])` returns `["b","c"]`.
  The anchor scan never looks at index 0, so the window is the highest
  non-blank index 1 or above. A copy's index 0 is read only when its length
  equals the window, and never for the copy that sets the window
  (`StaggeredCopiesLoseFirstWord`, `FullLengthCopyKeepsFirstWord`,
  `IdenticalCopiesDropFirstWord`).
- A position where all three trimmed words are blank does not yield `""`. The
  set is empty after the blank is removed, and `next()` throws
  `NoSuchElementException` (`MessageError.NoSuchElement`).
- Three pairwise different words give a blank placeholder even when one of them
  is itself blank. The code tests only that the set has three members.
- In the `services/` variant, only `LocationProcessingException` and
  `MessageProcessingException` map to `INSUFFICIENT_DATA_MESSAGE`. An
  out-of-bounds read or an empty vote completes the task with that exception.
  The list has already been cleared by then.
- The copies in `BasicFunctionsTests` have a window of 4, but the second copy
  holds three words, so `GetMessage` reads index -1 and throws
  `ArrayIndexOutOfBoundsException` (`ShortCopyReadOutOfBounds`).

## Model

| member | source | states |
|---|---|---|
| JavaStrings.Trim | src/main/java/cloudcode/BasicFunctions.java:27-29 | trim() is empty exactly when every character is at most U+0020; otherwise it starts and ends with a character above U+0020; it is never longer than its input |
| JavaStrings.TrimStartRemovesPrefix | src/main/java/cloudcode/BasicFunctions.java:27-29 | trim removes a leading run of characters up to U+0020 and nothing else at the front |
| JavaStrings.TrimEndRemovesSuffix | src/main/java/cloudcode/BasicFunctions.java:27-29 | trim removes a trailing run of characters up to U+0020 and nothing else at the back |
| JavaStrings.BlankIsSpaceOrControl | src/main/java/cloudcode/BasicFunctions.java:22 | trim().isEmpty() holds exactly when every character is at most U+0020 |
| JavaStrings.TrimOfTrimmed | src/main/java/cloudcode/BasicFunctions.java:27-29 | a string with nothing to strip at either end is left unchanged by trim |
| JavaStrings.TrimIdempotent | src/main/java/cloudcode/BasicFunctions.java:27-29 | trimming twice is trimming once |
| JavaStrings.ToUpperCase | src/main/java/cloudcode/entities/SatelliteMessage.java:18 | the result has the input's length, holds no lower-case ASCII letter, and differs from the input exactly at its lower-case ASCII letters |
| JavaStrings.ToLowerCase | src/main/java/cloudcode/entities/SatelliteMessage.java:19 | the result has the input's length, holds no upper-case ASCII letter, and differs from the input exactly at its upper-case ASCII letters |
| JavaStrings.LowerOfUpper | src/main/java/cloudcode/entities/SatelliteMessage.java:18-19 | lower-casing forgets an earlier upper-casing |
| JavaStrings.UpperOfLower | src/main/java/cloudcode/entities/SatelliteMessage.java:18-19 | upper-casing forgets an earlier lower-casing |
| JavaStrings.CaseInsensitiveEquality | src/main/java/cloudcode/entities/SatelliteMessage.java:18-19 | two names agree upper-cased exactly when they agree lower-cased |
| JavaStrings.LessThan | src/main/java/cloudcode/services/SplitSatelliteMessagesProcessorService.java:95 | compareTo(t) < 0, lexicographic with a proper prefix first; a string never precedes itself |
| JavaStrings.LessThanIrreflexive | src/main/java/cloudcode/services/SplitSatelliteMessagesProcessorService.java:95 | no name sorts before itself under compareTo |
| JavaStrings.LessThanTransitive | src/main/java/cloudcode/services/SplitSatelliteMessagesProcessorService.java:95 | the compareTo order is transitive |
| JavaStrings.LessThanTotal | src/main/java/cloudcode/services/SplitSatelliteMessagesProcessorService.java:95 | of two different names, one sorts first |
| Common.ThreeDistinct | src/main/java/cloudcode/objects/RequestObject.java:20-21 | a set built from three values has three members exactly when they are pairwise different |
| SatelliteConstants.ValueOf | src/main/java/cloudcode/entities/SatelliteConstants.java:4 | valueOf finds a constant exactly for KENOBI, SKYWALKER and SATO, and the constant found has that name |
| SatelliteConstants.ValueOfName | src/main/java/cloudcode/entities/SatelliteConstants.java:4 | valueOf inverts name() |
| SatelliteConstants.LocationOf | src/main/java/cloudcode/entities/SatelliteConstants.java:7 | the table gives KENOBI (-500,-200), SKYWALKER (100,-100) and SATO (500,100), each coordinate pair belonging to exactly one satellite |
| SatelliteConstants.UpperCaseOfName | src/main/java/cloudcode/entities/SatelliteConstants.java:4 | the constants' names are already upper-case |
| SatelliteConstants.LowerNamesAreLowerCased | src/main/java/cloudcode/entities/SatelliteConstants.java:4 | the stored names are the lower-cased names of the three constants |
| SatelliteConstants.IsValidName | src/main/java/cloudcode/entities/SatelliteMessage.java:18 | isValidEnum on the upper-cased name holds exactly when it is KENOBI, SKYWALKER or SATO |
| SatelliteConstants.ValidNameIgnoresCase | src/main/java/cloudcode/entities/SatelliteMessage.java:18 | a name passes isValidEnum on its upper-case form exactly when its lower-case form is kenobi, skywalker or sato |
| SatelliteConstants.ValidNameDenotes | src/main/java/cloudcode/entities/SatelliteMessage.java:22 | the constant a valid name selects is the one its lower-case form names |
| BasicFunctions.AnchorFrom | src/main/java/cloudcode/BasicFunctions.java:21-22 | the scan down from index i yields -1 or an index between 1 and i |
| BasicFunctions.Anchor | src/main/java/cloudcode/BasicFunctions.java:21-22 | a copy's anchor is -1 or an index in 1..len-1 |
| BasicFunctions.AnchorFromIsLastNonBlank | src/main/java/cloudcode/BasicFunctions.java:21-22 | the scan from i stops at a non-blank word, and every index above it up to i is blank |
| BasicFunctions.AnchorIsLastNonBlank | src/main/java/cloudcode/BasicFunctions.java:21-22 | the anchor is the highest index in 1..len-1 with a non-blank trimmed word, -1 exactly when there is none, and always -1 for a copy of at most one word |
| BasicFunctions.Window | src/main/java/cloudcode/BasicFunctions.java:21-22 | maxLenght is one of the three anchors and no smaller than any of them |
| BasicFunctions.Vote | src/main/java/cloudcode/BasicFunctions.java:31-38 | the words a position may get: none exactly when all three are blank, only a blank exactly when all three differ, at most two, and every non-blank one taken from the three |
| BasicFunctions.TakeVote | src/main/java/cloudcode/BasicFunctions.java:26-38 | the HashSet add/size/remove/next sequence fails exactly when the vote is empty, and otherwise yields a word of the vote |
| BasicFunctions.ShortCopyFails | src/main/java/cloudcode/BasicFunctions.java:25-29 | a copy shorter than a positive window makes GetMessage read out of bounds |
| BasicFunctions.BlankPositionFails | src/main/java/cloudcode/BasicFunctions.java:36-37 | a position where the vote is empty makes next() throw |
| BasicFunctions.CompleteVoteIsFused | src/main/java/cloudcode/BasicFunctions.java:25-39 | a full pass that took a word from every vote is a correct result |
| BasicFunctions.GetMessage | src/main/java/cloudcode/BasicFunctions.java:18-46 | throws exactly the exception Failure names (nothing recovered, out-of-bounds read, empty vote), and otherwise returns one word per window position, each allowed by that position's vote over the right-aligned copies |
| BasicFunctions.VoteUnanimous | src/main/java/cloudcode/BasicFunctions.java:35-38 | three equal non-blank words elect that word |
| BasicFunctions.VoteSingleWord | src/main/java/cloudcode/BasicFunctions.java:35-38 | one non-blank word beside blanks is elected |
| BasicFunctions.VoteSplit | src/main/java/cloudcode/BasicFunctions.java:35-37 | with two non-blank words, one of them twice, either may be picked and nothing else |
| BasicFunctions.VoteMajority | src/main/java/cloudcode/BasicFunctions.java:31-38 | an agreeing non-blank pair can always be picked, and a blank comes out exactly when all three words differ |
| BasicFunctions.VoteOfSameSet | src/main/java/cloudcode/BasicFunctions.java:26-29 | the vote depends only on the set of the three words |
| BasicFunctions.NothingRecoveredWhenAllBlank | src/main/java/cloudcode/BasicFunctions.java:41-43 | MessageProcessingException is thrown exactly when every word at index 1 or above is blank, that is when all three anchors are -1 |
| BasicFunctions.ThreeEmptyCopiesRecoverNothing | src/test/java/cloudcode/controllers/BasicFunctionsTests.java:113-121 | three copies ["", "", ""] recover nothing |
| BasicFunctions.IdenticalCopiesDropFirstWord | src/main/java/cloudcode/BasicFunctions.java:21-25 | three identical copies without blanks after index 0 give back every word but the first, trimmed, and nothing else |
| BasicFunctions.PermutedCopies | src/main/java/cloudcode/BasicFunctions.java:27-29 | a reordering of the copies holds the same copies |
| BasicFunctions.SameCopiesSameWindow | src/main/java/cloudcode/BasicFunctions.java:21-22 | the same copies give the same window and are long enough alike |
| BasicFunctions.SameCopiesSameVote | src/main/java/cloudcode/BasicFunctions.java:26-29 | the same copies give the same vote at every position |
| BasicFunctions.SameCopiesSameOutcome | src/main/java/cloudcode/BasicFunctions.java:18-46 | the same copies in any positions give the same exception or the same set of possible results |
| BasicFunctions.ArrivalOrderIrrelevant | src/main/java/cloudcode/BasicFunctions.java:18-46 | reordering the three copies leaves the exception, or the set of results GetMessage may return, unchanged |
| BasicFunctions.StaggeredCopiesLoseFirstWord | src/main/java/cloudcode/BasicFunctions.java:21-29 | ["a","",""], ["","b",""] and ["","","c"] give exactly ["b","c"]: the window is 2, so index 0 of a three-word copy is not read |
| BasicFunctions.FullLengthCopyKeepsFirstWord | src/main/java/cloudcode/BasicFunctions.java:21-29 | ["a","b"], ["x","","b"] and ["y","","b"] give exactly ["a","b"]: a copy as long as the window is read from index 0 |
| BasicFunctions.ShortCopyReadOutOfBounds | src/test/java/cloudcode/controllers/BasicFunctionsTests.java:57-61 | the test's copies have window 4 while one copy has three words, so GetMessage reads out of bounds |
| EntitySatelliteMessage.Accepts | src/main/java/cloudcode/entities/SatelliteMessage.java:18 | a message is accepted exactly when no argument is null, it has a word, and the name lower-cased is kenobi, skywalker or sato; the distance may be anything |
| EntitySatelliteMessage.LowerCasedNameIsCanonical | src/main/java/cloudcode/entities/SatelliteMessage.java:19-22 | the lower-cased name is a stored name, is a fixed point of lower-casing and selects the same satellite |
| EntitySatelliteMessage.CaseVariantsStoredAlike | src/main/java/cloudcode/entities/SatelliteMessage.java:18-22 | spellings that differ only in case are accepted alike, stored alike and located alike |
| EntitySatelliteMessage.ValidReport | src/main/java/cloudcode/entities/SatelliteMessage.java:49-63 | the getters of a valid message give some words, a lower-case name of one of the three satellites, and that satellite's location |
| EntitySatelliteMessage.SatelliteMessage.constructor | src/main/java/cloudcode/entities/SatelliteMessage.java:16-25 | stores the words and distance, the lower-cased name and that satellite's location, and is valid |
| EntitySatelliteMessage.Create | src/main/java/cloudcode/entities/SatelliteMessage.java:16-25 | yields a fresh valid object exactly when the arguments are accepted, and JsonParseException otherwise |
| EntitySatelliteMessage.SatelliteMessage.SetMessage | src/main/java/cloudcode/entities/SatelliteMessage.java:27-32 | replaces the words exactly when they are non-null and non-empty; otherwise nothing changes |
| EntitySatelliteMessage.SatelliteMessage.SetDistance | src/main/java/cloudcode/entities/SatelliteMessage.java:34-39 | replaces the distance exactly when it is non-null; otherwise nothing changes |
| EntitySatelliteMessage.SatelliteMessage.SetName | src/main/java/cloudcode/entities/SatelliteMessage.java:41-47 | replaces name (lower-cased) and location together exactly when the name is valid; otherwise neither changes |
| ObjectSatelliteMessage.PrivateLocation | src/main/java/cloudcode/objects/SatelliteMessage.java:15-26 | the private location enum agrees with the SatelliteConstants table |
| ObjectSatelliteMessage.ValidReport | src/main/java/cloudcode/objects/SatelliteMessage.java:65-79 | the getters of a valid message give some words, a name denoting one of the three satellites in any case, and that satellite's location |
| ObjectSatelliteMessage.SatelliteMessage.constructor | src/main/java/cloudcode/objects/SatelliteMessage.java:31-41 | stores words, distance and the name as given, with that satellite's location |
| ObjectSatelliteMessage.Create | src/main/java/cloudcode/objects/SatelliteMessage.java:31-41 | the same acceptance condition as the entities class, and the name's spelling is kept |
| ObjectSatelliteMessage.SatelliteMessage.SetMessage | src/main/java/cloudcode/objects/SatelliteMessage.java:43-48 | replaces the words exactly when they are non-null and non-empty; otherwise nothing changes |
| ObjectSatelliteMessage.SatelliteMessage.SetDistance | src/main/java/cloudcode/objects/SatelliteMessage.java:50-55 | replaces the distance exactly when it is non-null; otherwise nothing changes |
| ObjectSatelliteMessage.SatelliteMessage.SetName | src/main/java/cloudcode/objects/SatelliteMessage.java:57-63 | replaces name (as given) and location together exactly when the name is valid; otherwise neither changes |
| RequestObjects.NameSet | src/main/java/cloudcode/objects/RequestObject.java:17-20 | the set collects the name of every entry |
| RequestObjects.CheckSatellites | src/main/java/cloudcode/objects/RequestObject.java:19-26 | an array passes exactly when it is non-null, has three entries, and their names are pairwise different |
| RequestObjects.RequestObject.constructor | src/main/java/cloudcode/objects/RequestObject.java:22 | an accepted array is stored unchanged |
| RequestObjects.Create | src/main/java/cloudcode/objects/RequestObject.java:16-27 | a fresh object holding the array exactly when it passes the check, and JsonParseException otherwise |
| RequestObjects.RequestObject.SetSatelliteMessages | src/main/java/cloudcode/objects/RequestObject.java:33-44 | the same check; on rejection the stored array is not changed |
| RequestObjects.CaseSensitiveCheck | src/main/java/cloudcode/objects/RequestObject.java:20-21 | names are compared as stored: "KENOBI" and "kenobi" pass as two satellites, a repeated spelling does not |
| SplitService.Insert | src/main/java/cloudcode/services/SplitSatelliteMessagesProcessorService.java:95-96 | inserting adds exactly one entry and loses none |
| SplitService.SortByName | src/main/java/cloudcode/services/SplitSatelliteMessagesProcessorService.java:95-96 | the sorted list is a permutation of the readings |
| SplitService.InsertKeepsOrder | src/main/java/cloudcode/services/SplitSatelliteMessagesProcessorService.java:95-96 | inserting into a list ordered by name keeps it ordered |
| SplitService.SortByNameSorted | src/main/java/cloudcode/services/SplitSatelliteMessagesProcessorService.java:95-96 | the sorted list is ordered by name under compareTo |
| SplitService.CoverLowerNames | src/main/java/cloudcode/services/SplitSatelliteMessagesProcessorService.java:95-96 | three different stored names are kenobi, sato and skywalker in some order |
| SplitService.OrderOfLowerNames | src/main/java/cloudcode/services/SplitSatelliteMessagesProcessorService.java:95-96 | the only order of the three names that compareTo accepts is kenobi, sato, skywalker |
| SplitService.EntriesOfPermutation | src/main/java/cloudcode/services/SplitSatelliteMessagesProcessorService.java:95-96 | sorting three readings keeps each of them and adds none |
| SplitService.SortedThree | src/main/java/cloudcode/services/SplitSatelliteMessagesProcessorService.java:95-96 | the three sorted readings are ordered pairwise |
| SplitService.RolesInOrder | src/main/java/cloudcode/services/SplitSatelliteMessagesProcessorService.java:95-96 | an ordered arrangement of three different stored names is kenobi, sato, skywalker |
| SplitService.SortedRoles | src/main/java/cloudcode/services/SplitSatelliteMessagesProcessorService.java:95-96 | whatever the arrival order, the sorted distances are kenobi's, sato's and skywalker's, the roles calculateThreeCircleIntersection expects |
| SplitService.KnownByName | src/main/java/cloudcode/services/SplitSatelliteMessagesProcessorService.java:90 | among readings that passed the check, a reading is determined by its name |
| SplitService.SameCopiesSameCompletion | src/main/java/cloudcode/services/SplitSatelliteMessagesProcessorService.java:100-111 | the response after GetLocation depends only on which word arrays there are |
| SplitService.PermutedReadings | src/main/java/cloudcode/services/SplitSatelliteMessagesProcessorService.java:90 | a reordering of the readings has the same length and entries |
| SplitService.SameEntriesSameCheck | src/main/java/cloudcode/services/SplitSatelliteMessagesProcessorService.java:90 | the name check does not depend on the order of arrival |
| SplitService.StrictlyOrdered | src/main/java/cloudcode/services/SplitSatelliteMessagesProcessorService.java:95-96 | three different names in an order compareTo accepts are strictly increasing |
| SplitService.UniqueOrder | src/main/java/cloudcode/services/SplitSatelliteMessagesProcessorService.java:95-96 | two strictly increasing arrangements of the same three names are the same arrangement |
| SplitService.SortedStrictly | src/main/java/cloudcode/services/SplitSatelliteMessagesProcessorService.java:95-96 | sorting three readings with different names gives strictly increasing names |
| SplitService.SameStrictArrangement | src/main/java/cloudcode/services/SplitSatelliteMessagesProcessorService.java:95-96 | two strictly name-ordered lists of the same three checked readings are equal |
| SplitService.SameNamesSameEntries | src/main/java/cloudcode/services/SplitSatelliteMessagesProcessorService.java:95-96 | two lists of three checked readings that agree name by name are equal |
| SplitService.SameEntriesSameSort | src/main/java/cloudcode/services/SplitSatelliteMessagesProcessorService.java:95-96 | three checked readings sort alike whatever their arrival order and whatever their names |
| SplitService.SameEntriesSameCopies | src/main/java/cloudcode/services/SplitSatelliteMessagesProcessorService.java:93 | reordered readings carry the same word arrays |
| SplitService.ExecuteIgnoresArrivalOrder | src/main/java/cloudcode/services/SplitSatelliteMessagesProcessorService.java:88-113 | the set of responses a round's task may complete with does not depend on the order in which its reports arrived, whatever the names |
| SplitService.ExecuteLocatesByRole | src/main/java/cloudcode/services/SplitSatelliteMessagesProcessorService.java:94-100 | for three checked reports named kenobi, sato and skywalker at any positions, GetLocation receives kenobi's, sato's and skywalker's distances in this order |
| SplitService.RoleEntries | src/main/java/cloudcode/services/SplitSatelliteMessagesProcessorService.java:94-95 | the sorted entries named kenobi, sato and skywalker are the reports carrying those names |
| SplitService.RepeatedNameRejected | src/test/java/cloudcode/controllers/TopSecretSplitTests.java:310-344 | fewer or more than three reports, or two under one name at any two positions, give INVALID_JSON_MESSAGE and nothing else |
| SplitService.SplitSatelliteMessagesProcessorService.constructor | src/main/java/cloudcode/services/SplitSatelliteMessagesProcessorService.java:32-35 | the service starts with an empty list and no rounds |
| SplitService.SplitSatelliteMessagesProcessorService.AddSatelliteMessage | src/main/java/cloudcode/services/SplitSatelliteMessagesProcessorService.java:50-73 | a first message opens a round with a new latch and a task no one has seen; a message finding three gets EXCESSIVE_MESSAGES_TRY_AGAIN_LATER and changes nothing; otherwise it is appended and gets the round's task; the latch is released exactly at three; the list never exceeds three |
| SplitService.SplitSatelliteMessagesProcessorService.Execute | src/main/java/cloudcode/services/SplitSatelliteMessagesProcessorService.java:88-113 | the list is empty afterwards on every path, and the round's task completes with the response ExecuteOutcome gives for what was gathered |
| SplitService.RoundOfThree | src/main/java/cloudcode/services/SplitSatelliteMessagesProcessorService.java:50-73 | three callers of one round share a task no one had before, the third releases the latch, and a fourth is turned away |
| SplitService.TimeoutWithTwoMessages | src/test/java/cloudcode/controllers/TopSecretSplitTests.java:347-393 | two reports and the end of the wait give both callers the same task, completed with INVALID_JSON_MESSAGE, and an empty list |
| LegacySplitService.ArrivalOrderMatters | src/main/java/cloudcode/SplitSatelliteMessagesProcessorService.java:94 | distances reach GetLocation in arrival order, so swapping two reports can turn a located round into a LocationProcessingException |
| LegacySplitService.CaseVariantsPassTheCheck | src/main/java/cloudcode/SplitSatelliteMessagesProcessorService.java:89 | reports named "KENOBI", "kenobi" and "sato" pass the check and go on to GetLocation |
| LegacySplitService.SplitSatelliteMessagesProcessorService.constructor | src/main/java/cloudcode/SplitSatelliteMessagesProcessorService.java:31-34 | the service starts with an empty list and no rounds |
| LegacySplitService.SplitSatelliteMessagesProcessorService.AddSatelliteMessage | src/main/java/cloudcode/SplitSatelliteMessagesProcessorService.java:49-72 | the same round protocol as the services variant: open, reject the fourth, append, release at three, share the task |
| LegacySplitService.SplitSatelliteMessagesProcessorService.Run | src/main/java/cloudcode/SplitSatelliteMessagesProcessorService.java:87-106 | the list is empty afterwards on every path; a failed RequestObject check gives INVALID_JSON_MESSAGE; every failure of GetLocation or GetMessage completes the task with that exception |

## Left out

- `GetLocation` and `calculateThreeCircleIntersection` are floating-point geometry. They are the `Locator` parameter of the services, which yields a location or a failure.
- Waiting is not modelled: `CountDownLatch.await` with its timeout, the interrupted wait, `@Async` dispatch through the injected self-reference, and the locking of `synchronized`. Each locked block is one method. The end of the wait is the caller invoking `Execute` or `Run`.
- Controllers, the application bootstrap, `ResponseObject` and the `MessageSource` texts are left out. A response carries the message key (`Reason`), not its localized text.
- `entities.RequestObject` is not part of this model. The `services/` variant is modelled with the same three-distinct-names check as `objects.RequestObject`.
- JavaStrings.ToUpperCase: only the ASCII letters are mapped. Java's `toUpperCase()` uses the default locale and full Unicode case mapping, which the model does not capture.
  - "kenobı" (dotless ı, U+0131) and "ſato" (long s, U+017F) upper-case to KENOBI and SATO in Java. So `isValidEnum` accepts them.
  - Java lower-cases them to themselves. So `entities.SatelliteMessage` would store a name outside `LowerNames`. That breaks `EntitySatelliteMessage.SatelliteMessage.Valid` and `LowerCasedNameIsCanonical`.
  - In the `services/` variant, "kenobi", "kenobı" and "sato" would pass the distinct-names check as three satellites, which breaks `SplitService.SortedRoles`.
  - Under a Turkish default locale, "kenobi" upper-cases to "KENOBİ" and is refused.
- JavaStrings.ToLowerCase: only the ASCII letters are mapped. The same non-ASCII and locale cases as for `ToUpperCase` are not captured.
- EntitySatelliteMessage.Accepts: holds for Java's acceptance only under the ASCII case mapping above.
- SplitService.SortedRoles: holds for Java only under the ASCII case mapping above.
- JavaStrings.LessThan: compares Dafny chars, which are Unicode scalar values. Java's `compareTo` compares UTF-16 code units. The two orders differ between characters above U+FFFF and those in U+E000-U+FFFF.
- Distances are real numbers. `Double` rounding, NaN and infinities are not modelled.
- `null` entries inside arrays are not modelled: a null word (which `trim` would dereference) and a null satellite entry.
- Word arrays are values. The model does not capture that the stored `String[]` is shared with the caller. The service lists do hold references to the message objects.
- BasicFunctions.GetMessage: requires exactly three copies, because every caller passes the three entries of a checked request. Java's behaviour for other counts is not modelled:
  - With no copies, `max(...).get()` throws `NoSuchElementException` before the loop.
  - With one or two copies whose anchors are all -1, the loop never runs and `MessageProcessingException` is thrown.
  - With one or two copies where some anchor is 1 or more, `messages.get` on a missing copy throws `IndexOutOfBoundsException`.
  - With more than three copies, every copy still takes part in the window. So a fourth copy can widen it, which lengthens the reads from the first three and can make one of them go out of bounds. Words of copies past the third are never voted on.
- BasicFunctions.TakeVote: promises only a member of the vote, and `HashSet` iteration order is left unspecified.
  - In Java, the word picked can depend on which copy supplied it. Words in one hash bucket are iterated in insertion order, and "a" and "q" share a bucket.
  - Example: copies `["x","a"], ["x","a"], ["x","q"]` yield `["a"]`, while `["x","q"], ["x","a"], ["x","a"]` yield `["q"]`.
  - So `BasicFunctions.ArrivalOrderIrrelevant` and `SplitService.ExecuteIgnoresArrivalOrder` hold for the set of allowed results only, not for the word actually returned.
- SplitService.SplitSatelliteMessagesProcessorService.Execute: requires an open round. A task that finds the list empty is not modelled.
- LegacySplitService.SplitSatelliteMessagesProcessorService.Run: requires an open round, as `Execute` does. Its `GetLocation` call, made with a `List`, is taken to pass the three distances in list order.
