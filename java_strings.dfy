/** The java.lang.String operations the core relies on: trim(), toUpperCase(),
    toLowerCase() and compareTo(). A string is a sequence of Dafny chars, which
    are Unicode scalar values; Java's UTF-16 code units are not modelled. */
module JavaStrings {

  /** The characters trim() removes: space and the control characters, every
      character whose code is at most U+0020. */
  predicate IsSpaceOrControl(c: char) {
    c <= ' '
  }

  /** The string without its leading characters up to U+0020. */
  function TrimStart(s: string): string {
    if s != [] && IsSpaceOrControl(s[0]) then TrimStart(s[1..]) else s
  }

  /** The string without its trailing characters up to U+0020. */
  function TrimEnd(s: string): string {
    if s != [] && IsSpaceOrControl(s[|s| - 1]) then TrimEnd(s[..|s| - 1]) else s
  }

  /** TrimStart removes a prefix made only of characters up to U+0020, and what
      remains does not start with one. */
  lemma {:induction false} TrimStartRemovesPrefix(s: string)
    ensures |TrimStart(s)| <= |s| && TrimStart(s) == s[|s| - |TrimStart(s)|..]
    ensures forall i :: 0 <= i < |s| - |TrimStart(s)| ==> IsSpaceOrControl(s[i])
    ensures TrimStart(s) != [] ==> !IsSpaceOrControl(TrimStart(s)[0])
  {
    if s != [] && IsSpaceOrControl(s[0]) {
      var t := s[1..];
      TrimStartRemovesPrefix(t);
      assert TrimStart(s) == TrimStart(t);
      assert s[|s| - |TrimStart(s)|..] == t[|t| - |TrimStart(t)|..];
      forall i | 0 <= i < |s| - |TrimStart(s)| ensures IsSpaceOrControl(s[i]) {
        if i > 0 {
          assert s[i] == t[i - 1];
        }
      }
    } else {
      assert TrimStart(s) == s;
    }
  }

  /** TrimEnd removes a suffix made only of characters up to U+0020, and what
      remains does not end with one. */
  lemma {:induction false} TrimEndRemovesSuffix(s: string)
    ensures |TrimEnd(s)| <= |s| && TrimEnd(s) == s[..|TrimEnd(s)|]
    ensures forall i :: |TrimEnd(s)| <= i < |s| ==> IsSpaceOrControl(s[i])
    ensures TrimEnd(s) != [] ==> !IsSpaceOrControl(TrimEnd(s)[|TrimEnd(s)| - 1])
  {
    if s != [] && IsSpaceOrControl(s[|s| - 1]) {
      var t := s[..|s| - 1];
      TrimEndRemovesSuffix(t);
      assert TrimEnd(s) == TrimEnd(t);
      assert s[..|TrimEnd(s)|] == t[..|TrimEnd(t)|];
      forall i | |TrimEnd(s)| <= i < |s| ensures IsSpaceOrControl(s[i]) {
        if i < |s| - 1 {
          assert s[i] == t[i];
        }
      }
    } else {
      assert TrimEnd(s) == s;
    }
  }

  /** String.trim(): empty exactly when every character of s is at most U+0020,
      and otherwise starting and ending with a character above U+0020. */
  function Trim(s: string): (r: string)
    ensures |r| <= |s|
    ensures r == [] <==> forall i :: 0 <= i < |s| ==> IsSpaceOrControl(s[i])
    ensures r != [] ==> !IsSpaceOrControl(r[0]) && !IsSpaceOrControl(r[|r| - 1])
  {
    TrimStartRemovesPrefix(s);
    TrimEndRemovesSuffix(TrimStart(s));
    TrimEnd(TrimStart(s))
  }

  /** String.trim().isEmpty() */
  predicate IsBlank(s: string) {
    Trim(s) == []
  }

  /** A string is blank exactly when every character is space or a control
      character. */
  lemma BlankIsSpaceOrControl(s: string)
    ensures IsBlank(s) <==> forall i :: 0 <= i < |s| ==> IsSpaceOrControl(s[i])
  {
  }

  /** trim() leaves alone a string that has nothing to remove at either end. */
  lemma TrimOfTrimmed(s: string)
    requires s == [] || (!IsSpaceOrControl(s[0]) && !IsSpaceOrControl(s[|s| - 1]))
    ensures Trim(s) == s
  {
    assert TrimStart(s) == s;
  }

  /** trim() is idempotent. */
  lemma TrimIdempotent(s: string)
    ensures Trim(Trim(s)) == Trim(s)
  {
    TrimOfTrimmed(Trim(s));
  }

  /** Character.toUpperCase on the ASCII letters; other characters are kept. */
  function UpperChar(c: char): char {
    if 'a' <= c <= 'z' then (c as int - 32) as char else c
  }

  /** Character.toLowerCase on the ASCII letters; other characters are kept. */
  function LowerChar(c: char): char {
    if 'A' <= c <= 'Z' then (c as int + 32) as char else c
  }

  /** String.toUpperCase(), character by character: the result holds no
      lower-case ASCII letter, and differs from s exactly where s holds one. */
  function ToUpperCase(s: string): (r: string)
    ensures |r| == |s|
    ensures forall i :: 0 <= i < |r| ==> !('a' <= r[i] <= 'z')
    ensures forall i :: 0 <= i < |s| ==> (r[i] != s[i] <==> 'a' <= s[i] <= 'z')
  {
    seq(|s|, i requires 0 <= i < |s| => UpperChar(s[i]))
  }

  /** String.toLowerCase(), character by character: the result holds no
      upper-case ASCII letter, and differs from s exactly where s holds one. */
  function ToLowerCase(s: string): (r: string)
    ensures |r| == |s|
    ensures forall i :: 0 <= i < |r| ==> !('A' <= r[i] <= 'Z')
    ensures forall i :: 0 <= i < |s| ==> (r[i] != s[i] <==> 'A' <= s[i] <= 'Z')
  {
    seq(|s|, i requires 0 <= i < |s| => LowerChar(s[i]))
  }

  /** Lower-casing forgets an earlier upper-casing. */
  lemma LowerOfUpper(s: string)
    ensures ToLowerCase(ToUpperCase(s)) == ToLowerCase(s)
  {
    var l, u := ToLowerCase(ToUpperCase(s)), ToLowerCase(s);
    assert |l| == |u|;
    forall i | 0 <= i < |s| ensures l[i] == u[i] {
      assert LowerChar(UpperChar(s[i])) == LowerChar(s[i]);
    }
  }

  /** Upper-casing forgets an earlier lower-casing. */
  lemma UpperOfLower(s: string)
    ensures ToUpperCase(ToLowerCase(s)) == ToUpperCase(s)
  {
    var u, l := ToUpperCase(ToLowerCase(s)), ToUpperCase(s);
    assert |u| == |l|;
    forall i | 0 <= i < |s| ensures u[i] == l[i] {
      assert UpperChar(LowerChar(s[i])) == UpperChar(s[i]);
    }
  }

  /** Two strings agree when upper-cased exactly when they agree when lower-cased. */
  lemma CaseInsensitiveEquality(s: string, t: string)
    ensures ToUpperCase(s) == ToUpperCase(t) <==> ToLowerCase(s) == ToLowerCase(t)
  {
    if ToUpperCase(s) == ToUpperCase(t) {
      LowerOfUpper(s);
      LowerOfUpper(t);
    }
    if ToLowerCase(s) == ToLowerCase(t) {
      UpperOfLower(s);
      UpperOfLower(t);
    }
  }

  /** String.compareTo(t) < 0: lexicographic order on characters, a proper
      prefix coming first; a string never comes before itself. */
  predicate LessThan(s: string, t: string): (b: bool)
    ensures b ==> s != t
  {
    if s == [] then t != []
    else if t == [] then false
    else if s[0] != t[0] then s[0] < t[0]
    else LessThan(s[1..], t[1..])
  }

  /** compareTo is a strict order: irreflexive ... */
  lemma {:induction false} LessThanIrreflexive(s: string)
    ensures !LessThan(s, s)
  {
    if s != [] {
      LessThanIrreflexive(s[1..]);
    }
  }

  /** ... transitive ... */
  lemma {:induction false} LessThanTransitive(s: string, t: string, u: string)
    requires LessThan(s, t) && LessThan(t, u)
    ensures LessThan(s, u)
  {
    if s != [] && t != [] && u != [] && s[0] == t[0] && t[0] == u[0] {
      LessThanTransitive(s[1..], t[1..], u[1..]);
    }
  }

  /** ... and total: of two different strings, one comes first. */
  lemma {:induction false} LessThanTotal(s: string, t: string)
    ensures s == t || LessThan(s, t) || LessThan(t, s)
  {
    if s != [] && t != [] && s[0] == t[0] {
      LessThanTotal(s[1..], t[1..]);
      if s[1..] == t[1..] {
        assert s == [s[0]] + s[1..] && t == [t[0]] + t[1..];
      }
    }
  }
}
