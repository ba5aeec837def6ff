/**
 * The Python string operations the task store relies on, `str.lower` and
 * `str.split(sep)`, with the separator search and `sep.join` that are used
 * to specify `split`.
 */
module Text {
  import opened Wrappers

  /** `str.lower` on one character, for the ASCII range. */
  function LowerChar(c: char): (r: char)
    ensures !('A' <= r <= 'Z')
    ensures !('A' <= c <= 'Z') ==> r == c
    ensures 'A' <= c <= 'Z' ==> 'a' <= r <= 'z' && r as int - c as int == 'a' as int - 'A' as int
  {
    if 'A' <= c <= 'Z' then (c as int + 32) as char else c
  }

  /** `str.lower` on a whole string (ASCII letters only). */
  function Lower(s: string): (r: string)
    ensures |r| == |s|
    ensures forall i :: 0 <= i < |s| ==> r[i] == LowerChar(s[i])
  {
    if s == [] then [] else [LowerChar(s[0])] + Lower(s[1..])
  }

  /** A string with no upper-case ASCII letter is its own lower-case form. */
  lemma {:induction false} LowerOfLowerCase(s: string)
    requires forall i :: 0 <= i < |s| ==> !('A' <= s[i] <= 'Z')
    ensures Lower(s) == s
  {
    if s != [] {
      LowerOfLowerCase(s[1..]);
    }
  }

  /** Lower-casing twice is lower-casing once. */
  lemma LowerIdempotent(s: string)
    ensures Lower(Lower(s)) == Lower(s)
  {
    LowerOfLowerCase(Lower(s));
  }

  /** `pat` occurs in `s` starting at index `i`. */
  predicate OccursAt(s: string, pat: string, i: nat)
  {
    i + |pat| <= |s| && s[i..i + |pat|] == pat
  }

  /** Python's `pat in s`. */
  predicate Contains(s: string, pat: string)
  {
    exists j | 0 <= j <= |s| :: OccursAt(s, pat, j)
  }

  /** Python's `s.find(pat, i)`: the leftmost occurrence of `pat` at or after `i`. */
  function FindFrom(s: string, pat: string, i: nat): (r: Option<nat>)
    requires |pat| > 0
    ensures r.Some? ==> i <= r.value && OccursAt(s, pat, r.value)
    ensures r.Some? ==> forall j :: i <= j < r.value ==> !OccursAt(s, pat, j)
    ensures r.None? ==> forall j :: i <= j ==> !OccursAt(s, pat, j)
    decreases |s| - i
  {
    if i + |pat| > |s| then None
    else if OccursAt(s, pat, i) then Some(i)
    else FindFrom(s, pat, i + 1)
  }

  /** The first occurrence of `pat` in `s`, if any; it exists exactly when `s` contains `pat`. */
  function Find(s: string, pat: string): (r: Option<nat>)
    requires |pat| > 0
    ensures r.Some? <==> Contains(s, pat)
    ensures r.Some? ==> OccursAt(s, pat, r.value) && forall j: nat :: j < r.value ==> !OccursAt(s, pat, j)
  {
    FindFrom(s, pat, 0)
  }

  /** `sep.join(parts)`. */
  function Join(parts: seq<string>, sep: string): string
  {
    if |parts| == 0 then ""
    else if |parts| == 1 then parts[0]
    else parts[0] + sep + Join(parts[1..], sep)
  }

  /**
   * Python's `s.split(sep)` for a non-empty separator: cut at the leftmost
   * occurrence and carry on after it. The fields joined by `sep` give back
   * `s`, no field contains `sep`, and every cut is at the leftmost occurrence:
   * no separator starts inside a field and runs on into the separator after it.
   */
  function Split(s: string, sep: string): (r: seq<string>)
    requires |sep| > 0
    ensures |r| >= 1
    ensures Join(r, sep) == s
    ensures forall k :: 0 <= k < |r| ==> !Contains(r[k], sep)
    ensures forall k :: 0 <= k < |r| - 1 ==> !Contains(r[k] + sep[..|sep| - 1], sep)
    decreases |s|
  {
    match Find(s, sep)
    case None => [s]
    case Some(i) =>
      var head, tail := s[..i], s[i + |sep|..];
      assert s == head + sep + tail by {
        assert s[i..i + |sep|] == sep;
      }
      assert !Contains(head, sep) by {
        forall j | 0 <= j <= |head| && OccursAt(head, sep, j)
          ensures false
        {
          assert head[j..j + |sep|] == s[j..j + |sep|];
          assert OccursAt(s, sep, j);
        }
      }
      var probe := head + sep[..|sep| - 1];
      assert probe <= s;
      assert !Contains(probe, sep) by {
        forall j | 0 <= j <= |probe| && OccursAt(probe, sep, j)
          ensures false
        {
          OccursInPrefix(probe, s, sep, j);
        }
      }
      var r := [head] + Split(tail, sep);
      assert r[0] + sep[..|sep| - 1] == probe;
      r
  }

  /** Separators that overlap are cut leftmost first, as Python does: `" | | ".split(" | ")` is `["", "| "]`. */
  lemma SplitOverlappingSeparators()
    ensures Split(" | | ", " | ") == ["", "| "]
  {
    assert OccursAt(" | | ", " | ", 0);
    assert " | | "[3..] == "| ";
    assert !OccursAt("| ", " | ", 0);
  }

  /** Occurrences in a prefix `p` of `s` are occurrences in `s`, and conversely while they fit in `p`. */
  lemma OccursInPrefix(p: string, s: string, pat: string, j: nat)
    requires p <= s
    requires j + |pat| <= |p|
    ensures OccursAt(p, pat, j) <==> OccursAt(s, pat, j)
  {
    assert p[j..j + |pat|] == s[j..j + |pat|];
  }
}
