/** The Python string operations the event parser uses, on strings as
    sequences of characters: str.isspace, str.strip, str.split(sep),
    str.partition(sep) for a one-character separator, and sep.join. */
module Text {
  import opened Wrappers

  /** str.isspace() for one character: the characters Python treats as
      whitespace. */
  predicate IsSpace(c: char) {
    c == ' ' || ('\t' <= c <= '\r') || ('\U{1C}' <= c <= '\U{1F}')
    || c == '\U{85}' || c == '\U{A0}' || c == '\U{1680}'
    || ('\U{2000}' <= c <= '\U{200A}') || c == '\U{2028}' || c == '\U{2029}'
    || c == '\U{202F}' || c == '\U{205F}' || c == '\U{3000}'
  }

  ghost predicate AllSpace(s: string) {
    forall i :: 0 <= i < |s| ==> IsSpace(s[i])
  }

  /** The end of the run of whitespace starting at `from`. */
  function SpaceRunEnd(s: string, from: nat): (k: nat)
    requires from <= |s|
    ensures from <= k <= |s|
    ensures forall i :: from <= i < k ==> IsSpace(s[i])
    ensures k < |s| ==> !IsSpace(s[k])
    decreases |s| - from
  {
    if from < |s| && IsSpace(s[from]) then SpaceRunEnd(s, from + 1) else from
  }

  /** The start of the run of whitespace ending just before `to`. */
  function SpaceRunStart(s: string, to: nat): (k: nat)
    requires to <= |s|
    ensures k <= to
    ensures forall i :: k <= i < to ==> IsSpace(s[i])
    ensures k > 0 ==> !IsSpace(s[k - 1])
  {
    if to > 0 && IsSpace(s[to - 1]) then SpaceRunStart(s, to - 1) else to
  }

  /** str.strip(): the string with its leading and trailing whitespace removed. */
  function Strip(s: string): (r: string)
    ensures r == [] || (!IsSpace(r[0]) && !IsSpace(r[|r| - 1]))
  {
    var a := SpaceRunEnd(s, 0);
    if a == |s| then
      []
    else
      var b := SpaceRunStart(s, |s|);
      assert a < b;
      s[a..b]
  }

  /** What str.strip keeps: a middle section of the string, with only
      whitespace before and after it. With Strip's own contract, that no
      whitespace is left at either end, this fixes the result. */
  lemma StripKeepsMiddle(s: string)
    ensures exists a, b :: 0 <= a <= b <= |s| && Strip(s) == s[a..b] && AllSpace(s[..a]) && AllSpace(s[b..])
  {
    var a := SpaceRunEnd(s, 0);
    if a == |s| {
      assert Strip(s) == s[a..a] && AllSpace(s[..a]) && AllSpace(s[a..]);
    } else {
      var b := SpaceRunStart(s, |s|);
      assert Strip(s) == s[a..b] && AllSpace(s[..a]) && AllSpace(s[b..]);
    }
  }

  /** A string strips to "" exactly when it is all whitespace. */
  lemma StripEmptyIffAllSpace(s: string)
    ensures Strip(s) == [] <==> AllSpace(s)
  {
  }

  // ---------------------------------------------------------------------------
  // split

  predicate OccursAt(s: string, sep: string, j: nat) {
    j + |sep| <= |s| && s[j..j + |sep|] == sep
  }

  /** The first occurrence of sep in s at or after position `from`. */
  function FindFrom(s: string, sep: string, from: nat): (r: Option<nat>)
    requires from <= |s|
    ensures r.Some? ==> from <= r.value && OccursAt(s, sep, r.value)
                        && forall j :: from <= j < r.value ==> !OccursAt(s, sep, j)
    ensures r.None? ==> forall j :: from <= j ==> !OccursAt(s, sep, j)
    decreases |s| - from
  {
    if OccursAt(s, sep, from) then Some(from)
    else if from + |sep| >= |s| then
      None
    else FindFrom(s, sep, from + 1)
  }

  function Find(s: string, sep: string): (r: Option<nat>)
    ensures r.Some? ==> OccursAt(s, sep, r.value) && forall j :: 0 <= j < r.value ==> !OccursAt(s, sep, j)
    ensures r.None? ==> forall j :: !OccursAt(s, sep, j)
  {
    FindFrom(s, sep, 0)
  }

  /** str.split(sep) for a non-empty separator: the pieces between the
      leftmost non-overlapping occurrences of sep. */
  function Split(s: string, sep: string): (r: seq<string>)
    requires |sep| > 0
    ensures |r| >= 1
    decreases |s|
  {
    match Find(s, sep)
    case None => [s]
    case Some(i) => [s[..i]] + Split(s[i + |sep|..], sep)
  }

  /** sep.join(parts). */
  function Join(parts: seq<string>, sep: string): string {
    if |parts| == 0 then ""
    else if |parts| == 1 then parts[0]
    else parts[0] + sep + Join(parts[1..], sep)
  }

  lemma Decompose(s: string, i: nat, n: nat)
    requires i + n <= |s|
    ensures s == s[..i] + s[i..i + n] + s[i + n..]
  {
  }

  lemma JoinCons(head: string, tail: seq<string>, sep: string)
    requires |tail| >= 1
    ensures Join([head] + tail, sep) == head + sep + Join(tail, sep)
  {
    assert ([head] + tail)[1..] == tail;
  }

  /** Splitting loses nothing: joining the pieces with the separator gives
      back the original string. */
  lemma {:induction false} SplitJoin(s: string, sep: string)
    requires |sep| > 0
    ensures Join(Split(s, sep), sep) == s
    decreases |s|
  {
    var f := Find(s, sep);
    if f.None? {
      assert Split(s, sep) == [s];
    } else {
      var i := f.value;
      var rest := s[i + |sep|..];
      var tail := Split(rest, sep);
      assert Split(s, sep) == [s[..i]] + tail;
      assert Join(tail, sep) == rest by { SplitJoin(rest, sep); }
      assert s[..i] + sep + rest == s by { Decompose(s, i, |sep|); }
      JoinCons(s[..i], tail, sep);
    }
  }

  /** No piece of a split contains the separator. */
  lemma {:induction false} SplitPiecesFree(s: string, sep: string)
    requires |sep| > 0
    ensures forall p, j :: p in Split(s, sep) ==> !OccursAt(p, sep, j)
    decreases |s|
  {
    match Find(s, sep)
    case None =>
    case Some(i) =>
      var rest := s[i + |sep|..];
      SplitPiecesFree(rest, sep);
      forall j: nat ensures !OccursAt(s[..i], sep, j) {
        if OccursAt(s[..i], sep, j) {
          assert s[..i][j..j + |sep|] == s[j..j + |sep|];
          assert OccursAt(s, sep, j);
          assert false;
        }
      }
  }

  /** Each piece ends at the first occurrence of the separator in what is
      left of the string from that piece on, and the last piece holds none:
      together with SplitJoin this fixes the split, overlapping separators
      included. */
  lemma {:induction false} SplitAtFirstOccurrences(s: string, sep: string)
    requires |sep| > 0
    ensures var r := Split(s, sep);
            (forall k :: 0 <= k < |r| - 1 ==> Find(Join(r[k..], sep), sep) == Some(|r[k]|))
            && Find(r[|r| - 1], sep) == None
    decreases |s|
  {
    var r := Split(s, sep);
    match Find(s, sep)
    case None =>
      assert r == [s];
    case Some(i) =>
      var rest := s[i + |sep|..];
      var tail := Split(rest, sep);
      assert r == [s[..i]] + tail;
      SplitAtFirstOccurrences(rest, sep);
      forall k | 0 <= k < |r| - 1
        ensures Find(Join(r[k..], sep), sep) == Some(|r[k]|)
      {
        if k == 0 {
          assert r[0..] == r;
          SplitJoin(s, sep);
        } else {
          assert r[k..] == tail[k - 1..];
          assert r[k] == tail[k - 1];
        }
      }
      assert r[|r| - 1] == tail[|tail| - 1];
  }

  // ---------------------------------------------------------------------------
  // partition

  /** The first position of x in s, or None when s does not hold it: what
      str.partition searches for, and what list.index returns (None where it
      raises ValueError). */
  function IndexOf<T(==)>(s: seq<T>, x: T): (r: Option<nat>)
    ensures r.Some? ==> r.value < |s| && s[r.value] == x && forall j :: 0 <= j < r.value ==> s[j] != x
    ensures r.None? ==> x !in s
  {
    if s == [] then None
    else if s[0] == x then Some(0)
    else match IndexOf(s[1..], x)
      case None => None
      case Some(i) => Some(i + 1)
  }

  /** str.partition(c): the text before the first c, the separator found
      (empty when there is none), and the text after it. */
  function Partition(s: string, c: char): (r: (string, string, string))
    ensures r.0 + r.1 + r.2 == s
    ensures r.1 == [] ==> c !in s && r.0 == s && r.2 == []
    ensures r.1 != [] ==> r.1 == [c] && c !in r.0
  {
    match IndexOf(s, c)
    case None => (s, "", "")
    case Some(i) =>
      assert s == s[..i] + [c] + s[i + 1..];
      (s[..i], [c], s[i + 1..])
  }
}
