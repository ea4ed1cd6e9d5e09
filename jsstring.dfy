/** The JavaScript string primitives the parser relies on: the `\s` character
    class of regular expressions, `String.prototype.indexOf` and
    `String.prototype.split` with a string separator. A Dafny `char` is a
    Unicode scalar value, so these agree with JavaScript, which counts UTF-16
    code units, only on text within the Basic Multilingual Plane. */
module JsString {

  /** The `\s` class of a JavaScript regular expression: WhiteSpace and
      LineTerminator characters. */
  predicate IsSpace(c: char) {
    || c == '\t' || c == '\n' || c == '\U{B}' || c == '\U{C}' || c == '\r' || c == ' '
    || c == '\U{A0}' || c == '\U{1680}' || ('\U{2000}' <= c <= '\U{200A}')
    || c == '\U{2028}' || c == '\U{2029}' || c == '\U{202F}' || c == '\U{205F}'
    || c == '\U{3000}' || c == '\U{FEFF}'
  }

  /** The characters the regular-expression `.` does not match. */
  predicate IsLineTerminator(c: char) {
    c == '\n' || c == '\r' || c == '\U{2028}' || c == '\U{2029}'
  }

  /** `t` occurs in `s` starting at index `k`. */
  predicate OccursAt(s: string, t: string, k: nat) {
    k + |t| <= |s| && s[k..k + |t|] == t
  }

  /** `s.indexOf(t, from)`: the least index at or after `from` where `t`
      occurs, or -1 when there is none. */
  function IndexFrom(s: string, t: string, from: nat): (r: int)
    ensures r == -1 || (from <= r && OccursAt(s, t, r))
    ensures r == -1 <==> forall k: nat {:trigger OccursAt(s, t, k)} :: from <= k ==> !OccursAt(s, t, k)
    ensures r >= 0 ==> forall k: nat {:trigger OccursAt(s, t, k)} :: from <= k < r ==> !OccursAt(s, t, k)
    decreases |s| - from
  {
    if from + |t| > |s| then -1
    else if s[from..from + |t|] == t then from
    else IndexFrom(s, t, from + 1)
  }

  /** `s.indexOf(t)`. */
  function IndexOf(s: string, t: string): (r: int)
    ensures -1 <= r <= |s|
    ensures r == -1 <==> forall k: nat {:trigger OccursAt(s, t, k)} :: !OccursAt(s, t, k)
    ensures r >= 0 ==> OccursAt(s, t, r) && forall k: nat {:trigger OccursAt(s, t, k)} :: k < r ==> !OccursAt(s, t, k)
  {
    IndexFrom(s, t, 0)
  }

  /** `s.split(sep)`: the pieces between successive leftmost non-overlapping
      occurrences of `sep`. An empty separator splits into single characters
      (and the empty string into no piece at all); JavaScript splits into
      single code units, which agree for Basic Multilingual Plane text. */
  function Split(s: string, sep: string): (parts: seq<string>)
    ensures sep != [] ==> |parts| >= 1
    ensures sep == [] ==> |parts| == |s|
    decreases |s|
  {
    if sep == [] then seq(|s|, i requires 0 <= i < |s| => [s[i]])
    else
      var p := IndexOf(s, sep);
      if p < 0 then [s] else [s[..p]] + Split(s[p + |sep|..], sep)
  }

  /** `parts.join(sep)`, the inverse of `Split`. */
  function Join(parts: seq<string>, sep: string): string
  {
    if |parts| == 0 then []
    else if |parts| == 1 then parts[0]
    else parts[0] + sep + Join(parts[1..], sep)
  }

  lemma {:induction false} SplitCharsJoin(s: string)
    ensures Join(Split(s, []), []) == s
    decreases |s|
  {
    if |s| > 1 {
      assert Split(s, [])[1..] == Split(s[1..], []);
      SplitCharsJoin(s[1..]);
      assert s == [s[0]] + s[1..];
    }
  }

  /** Splitting at the first occurrence of a non-empty separator. */
  lemma SplitAtFirst(s: string, sep: string, p: nat)
    requires sep != [] && p == IndexOf(s, sep)
    ensures Split(s, sep) == [s[..p]] + Split(s[p + |sep|..], sep)
    ensures s == s[..p] + sep + s[p + |sep|..]
  {
    assert s[p..p + |sep|] == sep;
    assert s == s[..p] + s[p..p + |sep|] + s[p + |sep|..];
  }

  lemma JoinCons(head: string, tail: seq<string>, sep: string)
    requires |tail| >= 1
    ensures Join([head] + tail, sep) == head + sep + Join(tail, sep)
  {
    assert ([head] + tail)[1..] == tail;
  }

  /** Joining the pieces again with the separator gives back the text. */
  lemma {:induction false} SplitJoin(s: string, sep: string)
    ensures Join(Split(s, sep), sep) == s
    decreases |s|
  {
    if sep == [] {
      SplitCharsJoin(s);
    } else if IndexOf(s, sep) >= 0 {
      var p := IndexOf(s, sep);
      var rest := s[p + |sep|..];
      SplitAtFirst(s, sep, p);
      SplitJoin(rest, sep);
      JoinCons(s[..p], Split(rest, sep), sep);
    }
  }

  /** The text before the first occurrence holds no occurrence. */
  lemma BeforeFirstFree(s: string, sep: string, p: nat)
    requires sep != [] && p == IndexOf(s, sep)
    ensures IndexOf(s[..p], sep) == -1
  {
    var head := s[..p];
    forall k: nat ensures !OccursAt(head, sep, k) {
      if k + |sep| <= p {
        assert forall i :: k <= i < k + |sep| ==> head[i] == s[i];
        assert head[k..k + |sep|] == s[k..k + |sep|];
        assert !OccursAt(s, sep, k);
      }
    }
  }

  /** With a non-empty separator no piece contains the separator. */
  lemma {:induction false} SplitPiecesFree(s: string, sep: string)
    requires sep != []
    ensures forall i :: 0 <= i < |Split(s, sep)| ==> IndexOf(Split(s, sep)[i], sep) == -1
    decreases |s|
  {
    var p := IndexOf(s, sep);
    if p >= 0 {
      var rest := s[p + |sep|..];
      BeforeFirstFree(s, sep, p);
      SplitPiecesFree(rest, sep);
      var parts := Split(s, sep);
      assert parts == [s[..p]] + Split(rest, sep);
      forall i | 0 <= i < |parts| ensures IndexOf(parts[i], sep) == -1 {
        if i > 0 {
          assert parts[i] == Split(rest, sep)[i - 1];
        }
      }
    }
  }
}
