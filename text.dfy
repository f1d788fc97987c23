/**
 * The pieces of Python's `str` behaviour the filters rely on: `strip` with and
 * without an argument, `startswith`, `split` on a separator, `in` between two
 * strings, and the lower-casing used by a case-insensitive "contains".
 */
module PyText {
  import opened Results

  /** The characters `str.isspace` accepts, which a bare `str.strip()` removes. */
  predicate IsPyWhitespace(c: char)
  {
    || ('\t' <= c <= '\r')
    || ('\U{1C}' <= c <= ' ')
    || c == '\U{85}' || c == '\U{A0}' || c == '\U{1680}'
    || ('\U{2000}' <= c <= '\U{200A}')
    || c == '\U{2028}' || c == '\U{2029}' || c == '\U{202F}' || c == '\U{205F}'
    || c == '\U{3000}'
  }

  /** What a `strip` call removes: the characters of its argument, or whitespace. */
  datatype CharClass = AnyOf(chars: set<char>) | Whitespace

  predicate InClass(c: char, cls: CharClass)
  {
    match cls
    case AnyOf(chars) => c in chars
    case Whitespace => IsPyWhitespace(c)
  }

  predicate AllIn(s: string, cls: CharClass)
  {
    forall k :: 0 <= k < |s| ==> InClass(s[k], cls)
  }

  /**
   * The scan from the left that `strip` performs: the first index at or after
   * `i` whose character is not in the class, or `|s|`.
   */
  function LeadingEnd(s: string, cls: CharClass, i: nat): (j: nat)
    requires i <= |s|
    ensures i <= j <= |s|
    ensures forall k :: i <= k < j ==> InClass(s[k], cls)
    ensures j < |s| ==> !InClass(s[j], cls)
    decreases |s| - i
  {
    if i < |s| && InClass(s[i], cls) then LeadingEnd(s, cls, i + 1) else i
  }

  /**
   * The scan from the right, which stops at `lo`: the least index `e` at or
   * above `lo` such that every character from `e` to `j` is in the class.
   */
  function TrailingStart(s: string, cls: CharClass, lo: nat, j: nat): (e: nat)
    requires lo <= j <= |s|
    ensures lo <= e <= j
    ensures forall k :: e <= k < j ==> InClass(s[k], cls)
    ensures e > lo ==> !InClass(s[e - 1], cls)
    decreases j
  {
    if j > lo && InClass(s[j - 1], cls) then TrailingStart(s, cls, lo, j - 1) else j
  }

  /** Where the result of `strip` starts in `s`: the number of characters cut from the left. */
  function StripStart(s: string, cls: CharClass): nat
  {
    LeadingEnd(s, cls, 0)
  }

  /**
   * `s.strip(...)`: the slice of `s` from `StripStart` on whose ends are not
   * in the class; it is empty exactly when every character is.
   */
  function Strip(s: string, cls: CharClass): (r: string)
    ensures var i := StripStart(s, cls);
            i + |r| <= |s| && r == s[i..i + |r|]
    ensures r != [] ==> !InClass(r[0], cls) && !InClass(r[|r| - 1], cls)
    ensures r == [] <==> AllIn(s, cls)
  {
    var i := LeadingEnd(s, cls, 0);
    var j := TrailingStart(s, cls, i, |s|);
    assert AllIn(s, cls) ==> i == |s|;
    s[i..j]
  }

  /** What `strip` cuts off on either side belongs to the class. */
  lemma {:induction false} StripCutsOnlyClass(s: string, cls: CharClass)
    ensures var i := StripStart(s, cls);
            var r := Strip(s, cls);
            AllIn(s[..i], cls) && AllIn(s[i + |r|..], cls)
  {
    var i := StripStart(s, cls);
    var j := i + |Strip(s, cls)|;
    assert j == TrailingStart(s, cls, i, |s|);
    forall k | 0 <= k < |s[j..]| ensures InClass(s[j..][k], cls) {
      assert s[j..][k] == s[j + k];
    }
  }

  /** `s.startswith(p)`. */
  predicate StartsWith(s: string, p: string)
  {
    p <= s
  }

  /** Python's `t in s` for two strings: `t` is a substring of `s`. */
  predicate IsSubstring(t: string, s: string)
    decreases |s|
  {
    t <= s || (s != [] && IsSubstring(t, s[1..]))
  }

  /** `sep` occurs in `s` starting at index `i`. */
  predicate OccursAt(s: string, sep: string, i: int)
  {
    0 <= i && i + |sep| <= |s| && s[i..i + |sep|] == sep
  }

  /** The first occurrence of `sep` in `s` at or after index `from`. */
  function FindFrom(s: string, sep: string, from: nat): (r: Option<nat>)
    requires from <= |s|
    ensures r.Some? ==> from <= r.value && OccursAt(s, sep, r.value)
    ensures r.Some? ==> forall j :: from <= j < r.value ==> !OccursAt(s, sep, j)
    ensures r.None? ==> forall j :: from <= j ==> !OccursAt(s, sep, j)
    decreases |s| - from
  {
    if from + |sep| > |s| then None
    else if s[from..from + |sep|] == sep then Some(from)
    else FindFrom(s, sep, from + 1)
  }

  /** `s.find(sep)`, with `None` for Python's -1. */
  function IndexOf(s: string, sep: string): (r: Option<nat>)
    ensures r.Some? ==> OccursAt(s, sep, r.value)
    ensures r.Some? ==> forall j :: 0 <= j < r.value ==> !OccursAt(s, sep, j)
    ensures r.None? ==> forall j :: !OccursAt(s, sep, j)
  {
    FindFrom(s, sep, 0)
  }

  /** No occurrence of `sep` anywhere in `s`. */
  predicate FreeOf(s: string, sep: string)
  {
    forall j | 0 <= j < |s| :: !OccursAt(s, sep, j)
  }

  /** `"sep".join(parts)`. */
  function Join(parts: seq<string>, sep: string): string
  {
    if |parts| == 0 then ""
    else if |parts| == 1 then parts[0]
    else parts[0] + sep + Join(parts[1..], sep)
  }

  /**
   * `s.split(sep)` for a non-empty separator: the pieces between the
   * left-to-right, non-overlapping occurrences of `sep`. There is always at
   * least one piece and no piece contains the separator.
   */
  function Split(s: string, sep: string): (parts: seq<string>)
    requires sep != []
    ensures |parts| >= 1
    ensures forall k :: 0 <= k < |parts| ==> FreeOf(parts[k], sep)
    decreases |s|
  {
    match IndexOf(s, sep)
    case None => [s]
    case Some(i) =>
      var head := s[..i];
      assert FreeOf(head, sep) by {
        forall j ensures !OccursAt(head, sep, j) {
          if OccursAt(head, sep, j) {
            assert head[j..j + |sep|] == s[j..j + |sep|];
            assert OccursAt(s, sep, j);
          }
        }
      }
      [head] + Split(s[i + |sep|..], sep)
  }

  /** Splitting and re-joining with the same separator gives back the string. */
  lemma {:induction false} SplitJoin(s: string, sep: string)
    requires sep != []
    ensures Join(Split(s, sep), sep) == s
    decreases |s|
  {
    match IndexOf(s, sep)
    case None =>
    case Some(i) =>
      var rest := s[i + |sep|..];
      SplitJoin(rest, sep);
      SplitAt(s, sep, i);
      JoinCons(s[..i], Split(rest, sep), sep);
      Reassemble(s, sep, i);
  }

  /**
   * `split` cuts the string exactly when it contains the separator, and then
   * at its leftmost occurrence (`SplitAt` gives the rest: the split of what
   * follows that occurrence).
   */
  lemma {:induction false} SplitCutsAtFirst(s: string, sep: string)
    requires sep != []
    ensures var parts := Split(s, sep);
            && (|parts| == 1 <==> IndexOf(s, sep).None?)
            && (|parts| > 1 ==> IndexOf(s, sep) == Some(|parts[0]|))
  {
    match IndexOf(s, sep)
    case None =>
    case Some(i) =>
      SplitAt(s, sep, i);
  }

  /** A separator that overlaps itself is cut at its leftmost occurrence: `"a___b".split("__")`. */
  lemma {:induction false} SplitOverlappingSeparator()
    ensures Split("a___b", "__") == ["a", "_b"]
  {
    var s, sep := "a___b", "__";
    assert s[0..2][0] == 'a';
    assert s[1..3] == sep;
    assert IndexOf(s, sep) == Some(1);
    SplitAt(s, sep, 1);
    assert s[..1] == "a" && s[3..] == "_b";
    assert "_b"[0..2][1] == 'b';
    assert IndexOf("_b", sep).None?;
  }

  /** One step of `split`: the piece before the first separator, then the split of the rest. */
  lemma {:induction false} SplitAt(s: string, sep: string, i: nat)
    requires sep != [] && IndexOf(s, sep) == Some(i)
    ensures i + |sep| <= |s|
    ensures Split(s, sep) == [s[..i]] + Split(s[i + |sep|..], sep)
  {
  }

  lemma {:induction false} JoinCons(head: string, parts: seq<string>, sep: string)
    requires parts != []
    ensures Join([head] + parts, sep) == head + sep + Join(parts, sep)
  {
    assert ([head] + parts)[1..] == parts;
  }

  lemma {:induction false} Reassemble(s: string, sep: string, i: nat)
    requires OccursAt(s, sep, i)
    ensures s == s[..i] + sep + s[i + |sep|..]
  {
    assert s[i..i + |sep|] == sep;
  }

  /** ASCII lower-casing, which is what SQL `lower()` is taken to do here. */
  function LowerChar(c: char): char
  {
    if 'A' <= c <= 'Z' then (c as int + 32) as char else c
  }

  function Lower(s: string): (r: string)
    ensures |r| == |s|
    ensures forall k :: 0 <= k < |s| ==> r[k] == LowerChar(s[k])
  {
    seq(|s|, k requires 0 <= k < |s| => LowerChar(s[k]))
  }

  /** SQL `lower(s) LIKE '%' || lower(t) || '%'` without wildcard characters in `t`. */
  predicate ContainsIgnoringCase(s: string, t: string)
  {
    IsSubstring(Lower(t), Lower(s))
  }
}
