/**
 * String helpers shared by the model: ASCII digits, substring search
 * (Python's `in` and `str.split(sep)[0]`) and `"".join`.
 * Python's `s.startswith(p)` is Dafny's prefix test `p <= s`.
 */
module Text {
  import opened Wrappers

  /** The value the program records when a lookup finds nothing. */
  const Unknown := "Tidak diketahui"

  predicate IsDigit(c: char) {
    '0' <= c <= '9'
  }

  predicate AllDigits(s: string) {
    forall i :: 0 <= i < |s| ==> IsDigit(s[i])
  }

  function DigitValue(c: char): (d: nat)
    requires IsDigit(c)
    ensures d < 10
  {
    c as int - '0' as int
  }

  /** True when `pat` occurs in `s` starting at position `i`. */
  predicate OccursAt(s: string, pat: string, i: nat) {
    i + |pat| <= |s| && s[i..i + |pat|] == pat
  }

  /** The position of the first occurrence of `pat` in `s`, as Python's `str.find`. */
  function IndexOf(s: string, pat: string): (r: Option<nat>)
    ensures r.Some? ==> OccursAt(s, pat, r.value)
    ensures r.Some? ==> forall j: nat :: j < r.value ==> !OccursAt(s, pat, j)
    ensures r.None? ==> forall j: nat :: !OccursAt(s, pat, j)
    decreases |s|
  {
    if pat <= s then
      Some(0)
    else if s == [] then
      None
    else
      var rest := IndexOf(s[1..], pat);
      ShiftOccurrence(s, pat);
      assert !OccursAt(s, pat, 0);
      match rest
      case Some(k) => Some(k + 1)
      case None => None
  }

  /** An occurrence in the tail of `s` is an occurrence in `s` one position later. */
  lemma ShiftOccurrence(s: string, pat: string)
    requires s != []
    ensures forall j: nat :: 1 <= j ==> (OccursAt(s, pat, j) <==> OccursAt(s[1..], pat, j - 1))
  {
    forall j: nat | 1 <= j
      ensures OccursAt(s, pat, j) <==> OccursAt(s[1..], pat, j - 1)
    {
      if j + |pat| <= |s| {
        assert s[1..][j - 1..j - 1 + |pat|] == s[j..j + |pat|];
      }
    }
  }

  /** Python's `pat in s`. */
  predicate Contains(s: string, pat: string) {
    IndexOf(s, pat).Some?
  }

  /** Python's `s.split(sep)[0]` for a non-empty separator: the text before the first `sep`. */
  function BeforeFirst(s: string, sep: string): (r: string)
    requires sep != []
    ensures r <= s
    ensures !Contains(r, sep)
    ensures r == s || OccursAt(s, sep, |r|)
    ensures forall j: nat :: j < |r| ==> !OccursAt(s, sep, j)
  {
    match IndexOf(s, sep)
    case Some(k) =>
      assert forall j: nat :: OccursAt(s[..k], sep, j) ==> OccursAt(s, sep, j) && j < k by {
        forall j: nat | OccursAt(s[..k], sep, j)
          ensures OccursAt(s, sep, j) && j < k
        {
          assert s[..k][j..j + |sep|] == s[j..j + |sep|];
        }
      }
      s[..k]
    case None => s
  }

  /** With no `sep` anywhere in `s`, nothing is cut. */
  lemma BeforeFirstNone(s: string, sep: string)
    requires sep != [] && forall j: nat :: j < |s| ==> !OccursAt(s, sep, j)
    ensures BeforeFirst(s, sep) == s
  {
    var r := IndexOf(s, sep);
    if r.Some? {
      assert OccursAt(s, sep, r.value);
    }
  }

  /** With the first `sep` of `s` at `k`, the cut is at `k`. */
  lemma BeforeFirstCut(s: string, sep: string, k: nat)
    requires sep != [] && OccursAt(s, sep, k) && forall j: nat :: j < k ==> !OccursAt(s, sep, j)
    ensures BeforeFirst(s, sep) == s[..k]
  {
    var r := IndexOf(s, sep);
    assert r.Some?;
    assert !(r.value < k) && !(k < r.value);
  }

  /** Python's `"".join(parts)`. */
  function Concat(parts: seq<string>): string
  {
    if parts == [] then [] else Concat(parts[..|parts| - 1]) + parts[|parts| - 1]
  }

  /** Dropping the last element of `a + b`, for a non-empty `b`, drops the last element of `b`. */
  lemma InitOfAppend<T>(a: seq<T>, b: seq<T>)
    requires b != []
    ensures (a + b)[..|a + b| - 1] == a + b[..|b| - 1]
    ensures (a + b)[|a + b| - 1] == b[|b| - 1]
  {
  }

  /** An occurrence inside a prefix is an occurrence in the whole string. */
  lemma OccursInPrefix(y: string, x: string, pat: string, i: nat)
    requires y <= x && OccursAt(y, pat, i)
    ensures OccursAt(x, pat, i)
  {
    assert x[i..i + |pat|] == y[i..i + |pat|];
  }

  /** A prefix of a string without `pat` has no `pat` either. */
  lemma NoneInPrefix(y: string, x: string, pat: string)
    requires y <= x && !Contains(x, pat)
    ensures !Contains(y, pat)
  {
    var r := IndexOf(y, pat);
    if r.Some? {
      OccursInPrefix(y, x, pat, r.value);
    }
  }
}
