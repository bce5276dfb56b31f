/** Message recovery (BasicFunctions.GetMessage): three noisy copies of one
    word array, aligned on their right ends, are fused into one array by a vote
    per position. GetLocation, the circle intersection, is not modelled here: the
    services take it as a parameter. */
module BasicFunctions {
  import opened Common
  import opened JavaStrings

  /** What GetMessage throws. */
  datatype MessageError =
    | NothingRecovered   // MessageProcessingException: the result would be empty
    | IndexOutOfBounds   // ArrayIndexOutOfBoundsException: a copy shorter than the window
    | NoSuchElement      // iterator().next() on a set that the vote left empty

  datatype MessageResult = Recovered(words: seq<string>) | Failed(error: MessageError)

  /** The scan of one copy, from index i down to index 1: the first index found
      whose trimmed word is not empty, or -1. Index 0 is never looked at. */
  function AnchorFrom(s: seq<string>, i: int): (a: int)
    requires i < |s|
    ensures a == -1 || 1 <= a <= i
    decreases i
  {
    if i < 1 then -1
    else if !IsBlank(s[i]) then i
    else AnchorFrom(s, i - 1)
  }

  /** The anchor of a copy (lines 21-22), computed as the stream does it. */
  function Anchor(s: seq<string>): (a: int)
    ensures a == -1 || 1 <= a < |s|
  {
    AnchorFrom(s, |s| - 1)
  }

  /** The scan from i finds the highest index in 1..i whose word is not blank. */
  lemma {:induction false} AnchorFromIsLastNonBlank(s: seq<string>, i: int)
    requires i < |s|
    ensures AnchorFrom(s, i) != -1 ==> !IsBlank(s[AnchorFrom(s, i)])
    ensures forall k :: 1 <= k <= i && AnchorFrom(s, i) < k ==> IsBlank(s[k])
    decreases i
  {
    if i >= 1 && IsBlank(s[i]) {
      AnchorFromIsLastNonBlank(s, i - 1);
    }
  }

  /** The anchor of a copy is the highest index in 1..|s|-1 holding a word that
      is not blank once trimmed, and -1 exactly when there is none; index 0
      plays no part, so a copy of one word always has anchor -1. */
  lemma AnchorIsLastNonBlank(s: seq<string>)
    ensures Anchor(s) == -1 <==> forall k :: 1 <= k < |s| ==> IsBlank(s[k])
    ensures Anchor(s) != -1 ==>
              1 <= Anchor(s) < |s| && !IsBlank(s[Anchor(s)]) &&
              forall k :: Anchor(s) < k < |s| ==> IsBlank(s[k])
    ensures |s| <= 1 ==> Anchor(s) == -1
  {
    AnchorFromIsLastNonBlank(s, |s| - 1);
  }

  function Max(x: int, y: int): int {
    if x < y then y else x
  }

  /** The window, maxLenght in the code: the largest of the three anchors. */
  function Window(messages: seq<seq<string>>): (w: int)
    requires |messages| == 3
    ensures w == Anchor(messages[0]) || w == Anchor(messages[1]) || w == Anchor(messages[2])
    ensures w >= Anchor(messages[0]) && w >= Anchor(messages[1]) && w >= Anchor(messages[2])
  {
    Max(Max(Anchor(messages[0]), Anchor(messages[1])), Anchor(messages[2]))
  }

  /** Every copy has at least w words, so that all of them can be read over the
      last w positions. */
  predicate LongEnough(messages: seq<seq<string>>, w: int) {
    forall k :: 0 <= k < |messages| ==> |messages[k]| >= w
  }

  /** The trimmed word that the copy m contributes to result position j when
      the window is w: the copies are aligned on their last word. */
  function WordAt(m: seq<string>, w: int, j: int): string
    requires 0 <= j < w <= |m|
  {
    Trim(m[|m| - w + j])
  }

  /** The vote on three trimmed words, as the HashSet does it: when all three
      differ (the set has three members) the position gets a blank; otherwise the
      blank word is removed and any remaining member may be picked. The result is the set of words that
      may be emitted; empty means next() throws. */
  function Vote(a: string, b: string, c: string): (r: set<string>)
    ensures r == {} <==> a == "" && b == "" && c == ""
    ensures r == {""} <==> a != b && b != c && a != c
    ensures |r| <= 2
    ensures forall x :: x in r && x != "" ==> x == a || x == b || x == c
  {
    if a != b && b != c && a != c then {""}
    else
      assert {a, b, c} == {a, b} || {a, b, c} == {a, c} || {a, b, c} == {b, c};
      {a, b, c} - {""}
  }

  /** The vote taken at result position j. */
  function VoteAt(messages: seq<seq<string>>, w: int, j: int): set<string>
    requires |messages| == 3 && LongEnough(messages, w) && 0 <= j < w
  {
    Vote(WordAt(messages[0], w, j), WordAt(messages[1], w, j), WordAt(messages[2], w, j))
  }

  /** One pass of the loop body on the three trimmed words: they go into a
      HashSet; a set of three gives a blank, otherwise the blank word is
      removed and the iterator's first member is taken (None: next() throws). */
  method TakeVote(a: string, b: string, c: string) returns (word: Option<string>)
    ensures word.None? <==> Vote(a, b, c) == {}
    ensures word.Some? ==> word.value in Vote(a, b, c)
  {
    var temp: set<string> := {};
    temp := temp + {a};
    temp := temp + {b};
    temp := temp + {c};
    ThreeDistinct(a, b, c);
    if |temp| == 3 {
      return Some("");
    }
    temp := temp - {""};
    if temp == {} {
      return None;
    }
    var w :| w in temp;
    word := Some(w);
  }

  /** The exception GetMessage throws on these copies, if any: none is
      recovered when no copy has an anchor; a copy shorter than the window is
      read out of bounds; a position where all three words are blank leaves the
      set empty. */
  ghost function Failure(messages: seq<seq<string>>): Option<MessageError>
    requires |messages| == 3
  {
    var w := Window(messages);
    if w < 1 then Some(NothingRecovered)
    else if !LongEnough(messages, w) then Some(IndexOutOfBounds)
    else if exists j :: 0 <= j < w && VoteAt(messages, w, j) == {} then Some(NoSuchElement)
    else None
  }

  /** words is a result GetMessage may return: one word per position of the
      window, each allowed by the vote at its position. */
  ghost predicate Fused(messages: seq<seq<string>>, words: seq<string>)
    requires |messages| == 3
  {
    && Failure(messages) == None
    && |words| == Window(messages)
    && forall j :: 0 <= j < |words| ==> words[j] in VoteAt(messages, |words|, j)
  }

  lemma ShortCopyFails(messages: seq<seq<string>>)
    requires |messages| == 3 && Window(messages) >= 1 && !LongEnough(messages, Window(messages))
    ensures Failure(messages) == Some(IndexOutOfBounds)
  {
  }

  lemma BlankPositionFails(messages: seq<seq<string>>, j: int)
    requires |messages| == 3 && Window(messages) >= 1 && LongEnough(messages, Window(messages))
    requires 0 <= j < Window(messages) && VoteAt(messages, Window(messages), j) == {}
    ensures Failure(messages) == Some(NoSuchElement)
  {
  }

  lemma CompleteVoteIsFused(messages: seq<seq<string>>, words: seq<string>)
    requires |messages| == 3 && |words| == Window(messages) >= 1 && LongEnough(messages, |words|)
    requires forall j :: 0 <= j < |words| ==>
               VoteAt(messages, |words|, j) != {} && words[j] in VoteAt(messages, |words|, j)
    ensures Failure(messages) == None && Fused(messages, words)
  {
  }

  /** GetMessage: builds the result front to back, reading each copy at
      |copy| - 1 - i for i from the window minus one down to zero. */
  method GetMessage(messages: seq<seq<string>>) returns (r: MessageResult)
    requires |messages| == 3
    ensures Failure(messages).Some? ==> r == Failed(Failure(messages).value)
    ensures Failure(messages).None? ==> r.Recovered? && Fused(messages, r.words)
  {
    var maxLength := Window(messages);
    var message: seq<string> := [];
    var i := maxLength - 1;
    while i >= 0
      invariant maxLength >= 1 ==> -1 <= i < maxLength && |message| == maxLength - 1 - i
      invariant maxLength < 1 ==> message == []
      invariant message != [] ==> LongEnough(messages, maxLength)
      invariant forall j :: 0 <= j < |message| ==>
                  VoteAt(messages, maxLength, j) != {} && message[j] in VoteAt(messages, maxLength, j)
    {
      var m0, m1, m2 := messages[0], messages[1], messages[2];
      if |m0| - 1 - i < 0 || |m1| - 1 - i < 0 || |m2| - 1 - i < 0 {
        ShortCopyFails(messages);
        return Failed(IndexOutOfBounds);
      }
      assert LongEnough(messages, maxLength);
      ghost var j := |message|;
      assert |m0| - maxLength + j == |m0| - 1 - i;
      assert WordAt(m0, maxLength, j) == Trim(m0[|m0| - 1 - i]);
      assert WordAt(m1, maxLength, j) == Trim(m1[|m1| - 1 - i]);
      assert WordAt(m2, maxLength, j) == Trim(m2[|m2| - 1 - i]);
      var word := TakeVote(Trim(m0[|m0| - 1 - i]), Trim(m1[|m1| - 1 - i]), Trim(m2[|m2| - 1 - i]));
      if word.None? {
        BlankPositionFails(messages, j);
        return Failed(NoSuchElement);
      }
      message := message + [word.value];
      i := i - 1;
    }
    if |message| == 0 {
      return Failed(NothingRecovered);
    }
    CompleteVoteIsFused(messages, message);
    r := Recovered(message);
  }

  /** The trimmed form of every word. */
  function Trimmed(s: seq<string>): seq<string>
  {
    seq(|s|, i requires 0 <= i < |s| => Trim(s[i]))
  }

  /** Three equal words that are not blank elect that word. */
  lemma VoteUnanimous(x: string)
    requires x != ""
    ensures Vote(x, x, x) == {x}
  {
  }

  /** A single word that is not blank, beside blanks only, is elected. */
  lemma VoteSingleWord(a: string, b: string, c: string, x: string)
    requires x != "" && (a == x || b == x || c == x)
    requires (a == x || a == "") && (b == x || b == "") && (c == x || c == "")
    ensures Vote(a, b, c) == {x}
  {
    assert {a, b, c} - {""} == {x};
  }

  /** Two words that are not blank, one of them twice: either may be picked, and
      nothing else. */
  lemma VoteSplit(a: string, b: string, c: string, x: string, y: string)
    requires x != "" && y != "" && x != y
    requires multiset{a, b, c} == multiset{x, x, y}
    ensures Vote(a, b, c) == {x, y}
  {
    assert a in multiset{x, x, y} && b in multiset{x, x, y} && c in multiset{x, x, y};
    assert x in multiset{a, b, c} && y in multiset{a, b, c};
    assert {a, b, c} == {x, y};
  }

  /** Whenever two of the three words agree and are not blank, that word can
      be picked; and a blank is picked only when the three words all differ. */
  lemma VoteMajority(a: string, b: string, c: string)
    ensures a == b && a != "" ==> a in Vote(a, b, c)
    ensures a == c && a != "" ==> a in Vote(a, b, c)
    ensures b == c && b != "" ==> b in Vote(a, b, c)
    ensures "" in Vote(a, b, c) <==> a != b && b != c && a != c
  {
  }

  /** The vote depends on the set of words only, not on which copy holds which. */
  lemma VoteOfSameSet(a: string, b: string, c: string, x: string, y: string, z: string)
    requires {a, b, c} == {x, y, z}
    ensures Vote(a, b, c) == Vote(x, y, z)
  {
    ThreeDistinct(a, b, c);
    ThreeDistinct(x, y, z);
  }

  /** MessageProcessingException is thrown exactly when no copy holds a word
      that is not blank at an index of 1 or more, that is when every anchor is -1. */
  lemma NothingRecoveredWhenAllBlank(messages: seq<seq<string>>)
    requires |messages| == 3
    ensures Failure(messages) == Some(NothingRecovered) <==>
              forall k, i :: 0 <= k < 3 && 1 <= i < |messages[k]| ==> IsBlank(messages[k][i])
    ensures Failure(messages) == Some(NothingRecovered) <==>
              Anchor(messages[0]) == Anchor(messages[1]) == Anchor(messages[2]) == -1
  {
    AnchorIsLastNonBlank(messages[0]);
    AnchorIsLastNonBlank(messages[1]);
    AnchorIsLastNonBlank(messages[2]);
    if forall k, i :: 0 <= k < 3 && 1 <= i < |messages[k]| ==> IsBlank(messages[k][i]) {
      forall k | 0 <= k < 3 ensures Anchor(messages[k]) == -1 {
        AnchorIsLastNonBlank(messages[k]);
      }
    }
  }

  /** Three copies ["", "", ""] recover nothing. */
  lemma ThreeEmptyCopiesRecoverNothing()
    ensures Failure([["", "", ""], ["", "", ""], ["", "", ""]]) == Some(NothingRecovered)
  {
    var m := ["", "", ""];
    assert IsBlank(m[1]) && IsBlank(m[2]);
    AnchorIsLastNonBlank(m);
  }

  /** Three identical copies whose words after the first are not blank give
      back those words, trimmed: the first word is always dropped. */
  lemma IdenticalCopiesDropFirstWord(s: seq<string>, words: seq<string>)
    requires |s| >= 2 && forall i :: 1 <= i < |s| ==> !IsBlank(s[i])
    ensures Failure([s, s, s]) == None
    ensures Fused([s, s, s], words) <==> words == Trimmed(s[1..])
  {
    var messages := [s, s, s];
    AnchorIsLastNonBlank(s);
    var w := |s| - 1;
    assert Anchor(s) == w;
    assert Window(messages) == w && LongEnough(messages, w);
    forall j | 0 <= j < w ensures VoteAt(messages, w, j) == {Trimmed(s[1..])[j]} {
      assert WordAt(s, w, j) == Trim(s[j + 1]) == Trimmed(s[1..])[j];
      VoteUnanimous(Trim(s[j + 1]));
    }
    assert Failure(messages) == None;
  }

  /** Each of the three copies of one list is a copy of the other. */
  ghost predicate SameCopies(messages: seq<seq<string>>, other: seq<seq<string>>) {
    && |messages| == 3 && |other| == 3
    && (forall i :: 0 <= i < 3 ==> other[i] == messages[0] || other[i] == messages[1] || other[i] == messages[2])
    && (forall i :: 0 <= i < 3 ==> messages[i] == other[0] || messages[i] == other[1] || messages[i] == other[2])
  }

  lemma PermutedCopies(messages: seq<seq<string>>, other: seq<seq<string>>)
    requires |messages| == 3 && multiset(messages) == multiset(other)
    ensures SameCopies(messages, other)
  {
    assert |other| == |multiset(other)| == |multiset(messages)| == 3;
    forall i | 0 <= i < 3
      ensures other[i] == messages[0] || other[i] == messages[1] || other[i] == messages[2]
      ensures messages[i] == other[0] || messages[i] == other[1] || messages[i] == other[2]
    {
      assert other[i] in multiset(messages) && messages[i] in multiset(other);
      assert other[i] in messages && messages[i] in other;
    }
  }

  lemma SameCopiesSameWindow(messages: seq<seq<string>>, other: seq<seq<string>>)
    requires SameCopies(messages, other)
    ensures Window(messages) == Window(other)
    ensures forall w :: LongEnough(messages, w) <==> LongEnough(other, w)
  {
    var a := {Anchor(messages[0]), Anchor(messages[1]), Anchor(messages[2])};
    assert a == {Anchor(other[0]), Anchor(other[1]), Anchor(other[2])};
  }

  lemma SameCopiesSameVote(messages: seq<seq<string>>, other: seq<seq<string>>, w: int, j: int)
    requires SameCopies(messages, other) && LongEnough(messages, w) && LongEnough(other, w) && 0 <= j < w
    ensures VoteAt(messages, w, j) == VoteAt(other, w, j)
  {
    var m := {WordAt(messages[0], w, j), WordAt(messages[1], w, j), WordAt(messages[2], w, j)};
    var o := {WordAt(other[0], w, j), WordAt(other[1], w, j), WordAt(other[2], w, j)};
    assert m == o;
    VoteOfSameSet(WordAt(messages[0], w, j), WordAt(messages[1], w, j), WordAt(messages[2], w, j),
                  WordAt(other[0], w, j), WordAt(other[1], w, j), WordAt(other[2], w, j));
  }

  /** GetMessage does not depend on the order of the three copies: the same
      exception, or the same set of possible results. */
  lemma ArrivalOrderIrrelevant(messages: seq<seq<string>>, other: seq<seq<string>>, words: seq<string>)
    requires |messages| == 3 && multiset(messages) == multiset(other)
    ensures |other| == 3
    ensures Failure(messages) == Failure(other)
    ensures Fused(messages, words) <==> Fused(other, words)
  {
    PermutedCopies(messages, other);
    SameCopiesSameOutcome(messages, other, words);
  }

  /** Only which copies there are matters, not which position each holds. */
  lemma SameCopiesSameOutcome(messages: seq<seq<string>>, other: seq<seq<string>>, words: seq<string>)
    requires SameCopies(messages, other)
    ensures Failure(messages) == Failure(other)
    ensures Fused(messages, words) <==> Fused(other, words)
  {
    SameCopiesSameWindow(messages, other);
    var w := Window(messages);
    if w >= 1 && LongEnough(messages, w) {
      forall j | 0 <= j < w ensures VoteAt(messages, w, j) == VoteAt(other, w, j) {
        SameCopiesSameVote(messages, other, w, j);
      }
    }
  }

  /** ["a", "", ""], ["", "b", ""] and ["", "", "c"] give ["b", "c"]: the
      anchor scan skips index 0, so the window is 2 and the "a" of the first
      copy, at index 0 of a copy of three words, is never read. */
  lemma StaggeredCopiesLoseFirstWord(words: seq<string>)
    ensures Failure([["a", "", ""], ["", "b", ""], ["", "", "c"]]) == None
    ensures Fused([["a", "", ""], ["", "b", ""], ["", "", "c"]], words) <==> words == ["b", "c"]
  {
    var m0, m1, m2 := ["a", "", ""], ["", "b", ""], ["", "", "c"];
    assert Trim("b") == "b" && Trim("c") == "c" && Trim("") == "";
    assert IsBlank(m0[1]) && IsBlank(m0[2]) && IsBlank(m1[2]) && !IsBlank(m1[1]) && !IsBlank(m2[2]);
    AnchorIsLastNonBlank(m0);
    AnchorIsLastNonBlank(m1);
    AnchorIsLastNonBlank(m2);
    assert Anchor(m0) == -1 && Anchor(m1) == 1 && Anchor(m2) == 2;
    var messages := [m0, m1, m2];
    assert Window(messages) == 2;
    assert VoteAt(messages, 2, 0) == Vote("", "b", "") == {"b"};
    assert VoteAt(messages, 2, 1) == Vote("", "", "c") == {"c"};
    assert Failure(messages) == None;
  }

  /** A copy whose length equals the window is read from index 0: in
      ["a", "b"], ["x", "", "b"] and ["y", "", "b"] the window is 2, so the
      "a" of the first copy is recovered, while "x" and "y" are not. */
  lemma FullLengthCopyKeepsFirstWord(words: seq<string>)
    ensures Failure([["a", "b"], ["x", "", "b"], ["y", "", "b"]]) == None
    ensures Fused([["a", "b"], ["x", "", "b"], ["y", "", "b"]], words) <==> words == ["a", "b"]
  {
    var m0, m1, m2 := ["a", "b"], ["x", "", "b"], ["y", "", "b"];
    assert Trim("a") == "a" && Trim("b") == "b" && Trim("") == "";
    assert Anchor(m0) == 1 && Anchor(m1) == 2 && Anchor(m2) == 2;
    var messages := [m0, m1, m2];
    assert Window(messages) == 2;
    assert WordAt(m0, 2, 0) == "a" && WordAt(m1, 2, 0) == "" && WordAt(m2, 2, 0) == "";
    assert WordAt(m0, 2, 1) == "b" && WordAt(m1, 2, 1) == "b" && WordAt(m2, 2, 1) == "b";
    assert VoteAt(messages, 2, 0) == Vote("a", "", "") == {"a"};
    assert VoteAt(messages, 2, 1) == Vote("b", "b", "b") == {"b"};
    assert Failure(messages) == None;
  }

  /** The copies of BasicFunctionsTests: the window is 4 while the second copy
      holds three words, so the read at index -1 throws. */
  lemma ShortCopyReadOutOfBounds()
    ensures Failure([["aaaaaaaaaaaaa", "", "cccccccccccc", "   "],
                     ["", "55555", ""],
                     ["", "", "7777777", " ", "qqqqq"]]) == Some(IndexOutOfBounds)
  {
    var m0 := ["aaaaaaaaaaaaa", "", "cccccccccccc", "   "];
    var m1 := ["", "55555", ""];
    var m2 := ["", "", "7777777", " ", "qqqqq"];
    assert Trim("   ") == "" && Trim("") == "" && Trim(" ") == "";
    assert Trim("cccccccccccc") != "" && Trim("55555") != "" && Trim("qqqqq") != "";
    assert Anchor(m0) == 2 && Anchor(m1) == 1 && Anchor(m2) == 4;
    assert Window([m0, m1, m2]) == 4;
  }
}
