/**
 * The string primitives the registry relies on: `trim` and its one-sided
 * variants, `split` with a string separator, `toUpperCase` on ASCII text,
 * and the relational operators on two strings.
 * A string is a sequence of characters; see README for UTF-16.
 */
module Text {
  import opened Wrappers

  /**
   * The characters JavaScript's `trim` removes: the WhiteSpace and
   * LineTerminator code points of section 12.2 and 12.3 of ECMA-262
   * (tab, vertical tab, form feed, space, no-break space, the byte order
   * mark, the Unicode space separators, and the four line terminators).
   */
  predicate IsWhiteSpace(c: char) {
    || c == '\t' || c == '\n' || c == '\U{000B}' || c == '\U{000C}' || c == '\r'
    || c == ' ' || c == '\U{00A0}' || c == '\U{1680}'
    || ('\U{2000}' <= c <= '\U{200A}')
    || c == '\U{2028}' || c == '\U{2029}' || c == '\U{202F}' || c == '\U{205F}'
    || c == '\U{3000}' || c == '\U{FEFF}'
  }

  /** Nothing but white space. */
  predicate AllWhiteSpace(s: string) {
    forall i :: 0 <= i < |s| ==> IsWhiteSpace(s[i])
  }

  /** `trimLeft`: the suffix left after removing all leading white space. */
  function TrimStart(s: string): (r: string)
    ensures |r| <= |s| && r == s[|s| - |r|..]
    ensures AllWhiteSpace(s[..|s| - |r|])
    ensures r != [] ==> !IsWhiteSpace(r[0])
  {
    if s != [] && IsWhiteSpace(s[0]) then TrimStart(s[1..]) else s
  }

  /** `trimRight`: the prefix left after removing all trailing white space. */
  function TrimEnd(s: string): (r: string)
    ensures |r| <= |s| && r == s[..|r|]
    ensures AllWhiteSpace(s[|r|..])
    ensures r != [] ==> !IsWhiteSpace(r[|r| - 1])
  {
    if s != [] && IsWhiteSpace(s[|s| - 1]) then TrimEnd(s[..|s| - 1]) else s
  }

  /**
   * `trim`: white space removed from both ends. What is left is a
   * contiguous piece of `s` with only white space around it.
   */
  function Trim(s: string): (r: string)
    ensures r != [] ==> !IsWhiteSpace(r[0]) && !IsWhiteSpace(r[|r| - 1])
    ensures exists i :: Surrounded(s, r, i)
  {
    TrimSurrounded(s);
    TrimEnd(TrimStart(s))
  }

  /** Trimming keeps the piece of `s` that starts after its leading white space. */
  lemma TrimSurrounded(s: string)
    ensures Surrounded(s, TrimEnd(TrimStart(s)), |s| - |TrimStart(s)|)
  {
    var t := TrimStart(s);
    var r := TrimEnd(t);
    var i := |s| - |t|;
    assert r == s[i..i + |r|];
    assert t[|r|..] == s[i + |r|..];
  }

  /** `r` sits in `s` at index `i` with nothing but white space before and after it. */
  ghost predicate Surrounded(s: string, r: string, i: int) {
    && 0 <= i <= |s| - |r|
    && r == s[i..i + |r|]
    && AllWhiteSpace(s[..i])
    && AllWhiteSpace(s[i + |r|..])
  }

  /** Trimming twice trims nothing more. */
  lemma TrimIdempotent(s: string)
    ensures Trim(Trim(s)) == Trim(s)
  {
    var r := Trim(s);
    assert r == [] || (!IsWhiteSpace(r[0]) && !IsWhiteSpace(r[|r| - 1]));
  }

  /** `sep` occurs in `s` at index `j`. */
  predicate OccursAt(s: string, sep: string, j: int) {
    0 <= j && j + |sep| <= |s| && s[j..j + |sep|] == sep
  }

  /** The first index at or after `from` where `sep` occurs, as `indexOf` finds it. */
  function IndexOf(s: string, sep: string, from: nat): (r: Option<nat>)
    requires sep != []
    ensures r.Some? ==> from <= r.value && OccursAt(s, sep, r.value)
    ensures r.Some? ==> forall j :: from <= j < r.value ==> !OccursAt(s, sep, j)
    ensures r.None? ==> forall j :: from <= j ==> !OccursAt(s, sep, j)
    decreases |s| - from
  {
    if from + |sep| > |s| then None
    else if s[from..from + |sep|] == sep then Some(from)
    else IndexOf(s, sep, from + 1)
  }

  /**
   * `s.split(sep)` for a string separator: the pieces between successive
   * occurrences of `sep`, found from the left; an empty separator splits
   * the string into its characters.
   */
  function Split(s: string, sep: string): (parts: seq<string>)
    decreases |s|
  {
    if sep == [] then seq(|s|, i requires 0 <= i < |s| => [s[i]])
    else
      match IndexOf(s, sep, 0)
      case None => [s]
      case Some(i) => [s[..i]] + Split(s[i + |sep|..], sep)
  }

  /** `parts.join(sep)`. */
  function Join(parts: seq<string>, sep: string): string {
    if parts == [] then []
    else if |parts| == 1 then parts[0]
    else parts[0] + sep + Join(parts[1..], sep)
  }

  /** Joining the pieces with the separator gives back the string that was split. */
  lemma {:induction false} SplitJoin(s: string, sep: string)
    ensures Join(Split(s, sep), sep) == s
    decreases |s|
  {
    if sep == [] {
      JoinChars(s);
    } else {
      match IndexOf(s, sep, 0)
      case None =>
      case Some(i) =>
        var rest := s[i + |sep|..];
        SplitJoin(rest, sep);
        SplitNonEmpty(rest, sep);
        assert s == s[..i] + sep + rest;
    }
  }

  lemma {:induction false} JoinChars(s: string)
    ensures Join(seq(|s|, i requires 0 <= i < |s| => [s[i]]), []) == s
    decreases |s|
  {
    if |s| > 1 {
      var chars := seq(|s|, i requires 0 <= i < |s| => [s[i]]);
      assert chars[1..] == seq(|s| - 1, i requires 0 <= i < |s| - 1 => [s[1..][i]]);
      JoinChars(s[1..]);
      assert s == [s[0]] + s[1..];
    } else if |s| == 1 {
      assert s == [s[0]];
    }
  }

  lemma SplitNonEmpty(s: string, sep: string)
    requires sep != []
    ensures Split(s, sep) != []
  {
  }

  /** With a non-empty separator, no piece contains the separator. */
  lemma {:induction false} SplitPiecesFree(s: string, sep: string, k: nat, j: int)
    requires sep != [] && k < |Split(s, sep)|
    ensures !OccursAt(Split(s, sep)[k], sep, j)
    decreases |s|
  {
    match IndexOf(s, sep, 0)
    case None =>
      assert Split(s, sep) == [s];
    case Some(i) =>
      var rest := s[i + |sep|..];
      assert Split(s, sep) == [s[..i]] + Split(rest, sep);
      if k == 0 {
        PrefixBeforeFirstFree(s, sep, i, j);
      } else {
        SplitPiecesFree(rest, sep, k - 1, j);
      }
  }

  /** Nothing before the first occurrence contains the separator. */
  lemma PrefixBeforeFirstFree(s: string, sep: string, i: nat, j: int)
    requires sep != [] && IndexOf(s, sep, 0) == Some(i)
    ensures !OccursAt(s[..i], sep, j)
  {
    if OccursAt(s[..i], sep, j) {
      assert s[..i][j..j + |sep|] == s[j..j + |sep|];
      assert OccursAt(s, sep, j);
    }
  }

  /** The upper-case form of an ASCII character: a-z move to A-Z, everything else stays. */
  function UpperChar(c: char): char {
    if 'a' <= c <= 'z' then (c as int - 32) as char else c
  }

  /** The lower-case form of an ASCII character: A-Z move to a-z, everything else stays. */
  function LowerChar(c: char): char {
    if 'A' <= c <= 'Z' then (c as int + 32) as char else c
  }

  /** `toUpperCase` on text made only of ASCII characters; None for anything else. */
  function ToUpperAscii(s: string): (r: Option<string>)
    ensures r.Some? <==> forall i :: 0 <= i < |s| ==> s[i] < '\U{0080}'
    ensures r.Some? ==> |r.value| == |s|
    ensures r.Some? ==> forall i :: 0 <= i < |s| ==> !('a' <= r.value[i] <= 'z')
    ensures r.Some? ==> forall i :: 0 <= i < |s| ==> (r.value[i] == s[i] || ('a' <= s[i] <= 'z' && r.value[i] as int == s[i] as int - 32))
  {
    if s == [] then Some([])
    else if s[0] >= '\U{0080}' then None
    else
      match ToUpperAscii(s[1..])
      case None => None
      case Some(rest) =>
        assert forall i :: 1 <= i < |s| ==> s[i] == s[1..][i - 1];
        Some([UpperChar(s[0])] + rest)
  }

  /** `toLowerCase` on text made only of ASCII characters; None for anything else. */
  function ToLowerAscii(s: string): (r: Option<string>)
    ensures r.Some? <==> forall i :: 0 <= i < |s| ==> s[i] < '\U{0080}'
    ensures r.Some? ==> |r.value| == |s|
    ensures r.Some? ==> forall i :: 0 <= i < |s| ==> !('A' <= r.value[i] <= 'Z')
    ensures r.Some? ==> forall i :: 0 <= i < |s| ==> (r.value[i] == s[i] || ('A' <= s[i] <= 'Z' && r.value[i] as int == s[i] as int + 32))
  {
    if s == [] then Some([])
    else if s[0] >= '\U{0080}' then None
    else
      match ToLowerAscii(s[1..])
      case None => None
      case Some(rest) =>
        assert forall i :: 1 <= i < |s| ==> s[i] == s[1..][i - 1];
        Some([LowerChar(s[0])] + rest)
  }

  /** Upper-casing forgets an earlier lower-casing: both give the same upper-case text. */
  lemma {:induction false} UpperOfLower(s: string)
    requires ToLowerAscii(s).Some?
    ensures ToUpperAscii(ToLowerAscii(s).value) == ToUpperAscii(s)
    decreases |s|
  {
    if s != [] {
      UpperOfLower(s[1..]);
      var l, rest := ToLowerAscii(s).value, ToLowerAscii(s[1..]).value;
      assert l == [LowerChar(s[0])] + rest;
      assert l[1..] == rest;
      assert UpperChar(LowerChar(s[0])) == UpperChar(s[0]);
    }
  }

  /** `a < b` on two strings: character by character, a proper prefix first. */
  predicate Less(a: string, b: string) {
    if a == [] then b != []
    else if b == [] then false
    else a[0] < b[0] || (a[0] == b[0] && Less(a[1..], b[1..]))
  }

  /** The order on strings is total and strict: exactly one of a < b, a == b, b < a. */
  lemma {:induction false} LessTrichotomy(a: string, b: string)
    ensures Less(a, b) || a == b || Less(b, a)
    ensures !(Less(a, b) && Less(b, a))
    decreases |a|
  {
    if a != [] && b != [] {
      LessTrichotomy(a[1..], b[1..]);
      if a[0] == b[0] && a[1..] == b[1..] {
        assert a == [a[0]] + a[1..] && b == [b[0]] + b[1..];
      }
    }
  }
}
