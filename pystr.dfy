/**
 * The Python `str` operations the tutor and the chunker rely on, with Python's
 * semantics: `isspace`, `strip`, `lower` (on ASCII letters), `startswith`,
 * `endswith`, `in`, `split(sep)`, `split(sep, 1)`, `sep.join`, `replace`, and
 * `split()` without a separator.
 */
module PyStr {
  import opened Wrappers

  /** `c.isspace()`: the ASCII whitespace and separator controls and the Unicode space characters. */
  predicate IsSpace(c: char) {
    || c == ' '
    || '\U{9}' <= c <= '\U{D}'
    || '\U{1C}' <= c <= '\U{1F}'
    || c == '\U{85}' || c == '\U{A0}' || c == '\U{1680}'
    || '\U{2000}' <= c <= '\U{200A}'
    || c == '\U{2028}' || c == '\U{2029}' || c == '\U{202F}' || c == '\U{205F}' || c == '\U{3000}'
  }

  predicate AllSpace(s: string) {
    forall i :: 0 <= i < |s| ==> IsSpace(s[i])
  }

  predicate NoSpace(s: string) {
    forall i :: 0 <= i < |s| ==> !IsSpace(s[i])
  }

  /** `s.startswith(p)`. */
  predicate StartsWith(s: string, p: string) {
    p <= s
  }

  /** `s.endswith(p)`. */
  predicate EndsWith(s: string, p: string) {
    |p| <= |s| && s[|s| - |p|..] == p
  }

  // ---------------------------------------------------------------- strip

  /** `s.lstrip()`: `s` once its leading whitespace is dropped. */
  function TrimLeft(s: string): string {
    if s != [] && IsSpace(s[0]) then TrimLeft(s[1..]) else s
  }

  /** `s.rstrip()`: `s` once its trailing whitespace is dropped. */
  function TrimRight(s: string): string {
    if s != [] && IsSpace(s[|s| - 1]) then TrimRight(s[..|s| - 1]) else s
  }

  /** `s.strip()`. */
  function Strip(s: string): string {
    TrimRight(TrimLeft(s))
  }

  /** `lstrip` drops a whitespace-only prefix and nothing more: what is left is empty or starts with a non-space. */
  lemma {:induction false} TrimLeftIsSuffix(s: string)
    ensures |TrimLeft(s)| <= |s| && TrimLeft(s) == s[|s| - |TrimLeft(s)|..]
    ensures AllSpace(s[..|s| - |TrimLeft(s)|])
    ensures TrimLeft(s) == [] || !IsSpace(TrimLeft(s)[0])
  {
    if s != [] && IsSpace(s[0]) {
      TrimLeftIsSuffix(s[1..]);
      var r := TrimLeft(s[1..]);
      assert s[..|s| - |r|] == [s[0]] + s[1..][..|s| - 1 - |r|];
    }
  }

  /** `rstrip` drops a whitespace-only suffix and nothing more: what is left is empty or ends with a non-space. */
  lemma {:induction false} TrimRightIsPrefix(s: string)
    ensures |TrimRight(s)| <= |s| && TrimRight(s) == s[..|TrimRight(s)|]
    ensures AllSpace(s[|TrimRight(s)|..])
    ensures TrimRight(s) == [] || !IsSpace(TrimRight(s)[|TrimRight(s)| - 1])
  {
    if s != [] && IsSpace(s[|s| - 1]) {
      TrimRightIsPrefix(s[..|s| - 1]);
      var r := TrimRight(s[..|s| - 1]);
      assert s[|r|..] == s[..|s| - 1][|r|..] + [s[|s| - 1]];
    }
  }

  /** Neither end of `s.strip()` is whitespace, and it is no longer than `s`. */
  lemma StripEnds(s: string)
    ensures |Strip(s)| <= |s|
    ensures Strip(s) == [] || (!IsSpace(Strip(s)[0]) && !IsSpace(Strip(s)[|Strip(s)| - 1]))
  {
    TrimLeftIsSuffix(s);
    TrimRightIsPrefix(TrimLeft(s));
    var t := TrimLeft(s);
    var r := TrimRight(t);
    if r != [] {
      assert r[0] == t[0];
    }
  }

  /** `s.strip()` is the slice of `s` between a whitespace-only prefix and a whitespace-only suffix. */
  lemma StripIsSlice(s: string) returns (i: nat)
    ensures i + |Strip(s)| <= |s| && Strip(s) == s[i..i + |Strip(s)|]
    ensures AllSpace(s[..i]) && AllSpace(s[i + |Strip(s)|..])
  {
    var t := TrimLeft(s);
    TrimLeftIsSuffix(s);
    TrimRightIsPrefix(t);
    i := |s| - |t|;
    var r := TrimRight(t);
    assert r == Strip(s);
    assert t == s[i..];
    assert r == s[i..i + |r|] by { assert t[..|r|] == s[i..i + |r|]; }
    assert s[i + |r|..] == t[|r|..];
  }

  /** A string strips to "" exactly when every character of it is whitespace. */
  lemma BlankIffAllSpace(s: string)
    ensures Strip(s) == [] <==> AllSpace(s)
  {
    var i := StripIsSlice(s);
    if Strip(s) == [] {
      forall k | 0 <= k < |s| ensures IsSpace(s[k]) {
        if k < i {
          assert s[k] == s[..i][k];
        } else {
          assert s[k] == s[i..][k - i];
        }
      }
    } else {
      StripEnds(s);
      assert Strip(s)[0] == s[i];
    }
  }

  // ---------------------------------------------------------------- lower

  function LowerChar(c: char): char {
    if 'A' <= c <= 'Z' then (c as int + 32) as char else c
  }

  /** `s.lower()` for ASCII letters: upper-case letters become lower-case, everything else stays. */
  function Lower(s: string): (r: string)
    ensures |r| == |s|
    ensures forall i :: 0 <= i < |s| ==> !('A' <= r[i] <= 'Z')
    ensures forall i :: 0 <= i < |s| && !('A' <= s[i] <= 'Z') ==> r[i] == s[i]
    ensures forall i :: 0 <= i < |s| && 'A' <= s[i] <= 'Z' ==> r[i] as int == s[i] as int + 32
  {
    if s == [] then [] else [LowerChar(s[0])] + Lower(s[1..])
  }

  /** A string without upper-case ASCII letters is its own lower-case form, so `lower` is idempotent. */
  lemma LowerOfLower(s: string)
    requires forall i :: 0 <= i < |s| ==> !('A' <= s[i] <= 'Z')
    ensures Lower(s) == s
  {
  }

  // ---------------------------------------------------------------- find, in

  /** `p` occurs in `s` starting at index `i`. */
  predicate OccursAt(s: string, p: string, i: int) {
    0 <= i && i + |p| <= |s| && s[i..i + |p|] == p
  }

  lemma OccursAtTail(s: string, p: string, j: int)
    requires s != [] && 0 <= j
    ensures OccursAt(s, p, j + 1) <==> OccursAt(s[1..], p, j)
  {
    if j + 1 + |p| <= |s| {
      assert s[j + 1..j + 1 + |p|] == s[1..][j..j + |p|];
    }
  }

  /** `s.find(p)`, `None` standing for Python's -1. */
  function Find(s: string, p: string): (r: Option<nat>)
    ensures r.Some? ==> r.value + |p| <= |s|
    decreases |s|
  {
    if |s| < |p| then None
    else if p <= s then Some(0)
    else match Find(s[1..], p)
      case None => None
      case Some(i) => Some(i + 1)
  }

  /** `s.find(p)` is the first index at which `p` occurs in `s`, and `None` when it occurs nowhere. */
  lemma {:induction false} FindIsFirstOccurrence(s: string, p: string)
    ensures Find(s, p).Some? ==> OccursAt(s, p, Find(s, p).value)
    ensures Find(s, p).Some? ==> forall j :: 0 <= j < Find(s, p).value ==> !OccursAt(s, p, j)
    ensures Find(s, p).None? ==> forall j :: !OccursAt(s, p, j)
    decreases |s|
  {
    if |s| < |p| {
    } else if p <= s {
      assert s[0..|p|] == p;
    } else {
      assert !OccursAt(s, p, 0) by { assert s[0..|p|] == s[..|p|]; }
      FindIsFirstOccurrence(s[1..], p);
      forall j | 0 <= j ensures OccursAt(s, p, j + 1) <==> OccursAt(s[1..], p, j) {
        OccursAtTail(s, p, j);
      }
      match Find(s[1..], p)
      case None =>
        forall j ensures !OccursAt(s, p, j) {
          if j > 0 {
            assert !OccursAt(s[1..], p, j - 1);
          }
        }
      case Some(i) =>
        forall j | 0 <= j < i + 1 ensures !OccursAt(s, p, j) {
          if j > 0 {
            assert !OccursAt(s[1..], p, j - 1);
          }
        }
    }
  }

  /** `i` is where `p` first occurs in `s`. */
  ghost predicate FirstAt(s: string, p: string, i: int) {
    OccursAt(s, p, i) && forall j :: 0 <= j < i ==> !OccursAt(s, p, j)
  }

  /** `s.find(p)` finds the first occurrence. */
  lemma FindIsFirst(s: string, p: string, i: int)
    requires FirstAt(s, p, i)
    ensures Find(s, p) == Some(i)
  {
    FindIsFirstOccurrence(s, p);
  }

  /** An occurrence in a suffix is an occurrence in the whole string, shifted. */
  lemma OccursAtDrop(s: string, p: string, m: nat, j: int)
    requires m <= |s| && 0 <= j
    ensures OccursAt(s[m..], p, j) <==> OccursAt(s, p, m + j)
  {
    if m + j + |p| <= |s| {
      assert s[m..][j..j + |p|] == s[m + j..m + j + |p|];
    }
  }

  /** `p in s`. */
  predicate Contains(s: string, p: string) {
    Find(s, p).Some?
  }

  /** The text before the first occurrence of `p` does not contain `p`. */
  lemma BeforeFirstIsFree(s: string, p: string, i: nat)
    requires p != [] && Find(s, p) == Some(i)
    ensures !Contains(s[..i], p)
  {
    var t := s[..i];
    FindIsFirstOccurrence(s, p);
    FindIsFirstOccurrence(t, p);
    if Find(t, p).Some? {
      var j := Find(t, p).value;
      assert OccursAt(t, p, j);
      assert j + |p| <= i;
      assert t[j..j + |p|] == s[j..j + |p|];
      assert OccursAt(s, p, j);
    }
  }

  // ---------------------------------------------------------------- split, join, replace

  /** `sep.join(parts)`. */
  function Join(parts: seq<string>, sep: string): string
  {
    if parts == [] then ""
    else if |parts| == 1 then parts[0]
    else parts[0] + sep + Join(parts[1..], sep)
  }

  /** `s.split(sep)` for a non-empty separator: the pieces between the occurrences of `sep`, scanning from the left. */
  function Split(s: string, sep: string): (r: seq<string>)
    requires sep != []
    ensures |r| >= 1
    decreases |s|
  {
    match Find(s, sep)
    case None => [s]
    case Some(i) => [s[..i]] + Split(s[i + |sep|..], sep)
  }

  /** A string is the concatenation of its three slices at `i` and `j`. */
  lemma SliceThree(s: string, i: nat, j: nat)
    requires i <= j <= |s|
    ensures s == s[..i] + s[i..j] + s[j..]
  {
    assert s[..j] == s[..i] + s[i..j];
    assert s == s[..j] + s[j..];
  }

  lemma JoinCons(a: string, rest: seq<string>, sep: string)
    requires rest != []
    ensures Join([a] + rest, sep) == a + sep + Join(rest, sep)
  {
    assert ([a] + rest)[1..] == rest;
  }

  /** Joining the pieces of a split with the same separator gives back the string. */
  lemma {:induction false} JoinSplit(s: string, sep: string)
    requires sep != []
    ensures Join(Split(s, sep), sep) == s
    decreases |s|
  {
    match Find(s, sep)
    case None =>
    case Some(i) =>
      var rest := s[i + |sep|..];
      assert Split(s, sep) == [s[..i]] + Split(rest, sep);
      JoinSplit(rest, sep);
      JoinCons(s[..i], Split(rest, sep), sep);
      FindIsFirstOccurrence(s, sep);
      SliceThree(s, i, i + |sep|);
  }

  /** The first piece of a split runs up to the first occurrence of the separator, or to the end when there is none. */
  lemma FirstPieceUpTo(s: string, sep: string, k: nat)
    requires sep != [] && k <= |s|
    requires forall j :: 0 <= j < k ==> !OccursAt(s, sep, j)
    requires k == |s| || OccursAt(s, sep, k)
    ensures Split(s, sep)[0] == s[..k]
  {
    FindIsFirstOccurrence(s, sep);
    match Find(s, sep)
    case None =>
      assert s[..|s|] == s;
    case Some(f) =>
      assert f == k;
  }

  /**
   * The second piece of a split runs from the end of the first occurrence of
   * the separator (at `i`) up to the second occurrence (at `k`), or to the end.
   */
  lemma SecondPieceUpTo(s: string, sep: string, i: nat, k: nat)
    requires sep != [] && FirstAt(s, sep, i)
    requires i + |sep| <= k <= |s|
    requires forall j :: i + |sep| <= j < k ==> !OccursAt(s, sep, j)
    requires k == |s| || OccursAt(s, sep, k)
    ensures |Split(s, sep)| >= 2 && Split(s, sep)[1] == s[i + |sep|..k]
  {
    FindIsFirst(s, sep, i);
    SplitAtFirst(s, sep, i);
    FirstPieceOfDrop(s, sep, i + |sep|, k);
  }

  /** Once the text before `m` is dropped, the first piece runs from `m` to the next `sep` at `k`, or to the end. */
  lemma FirstPieceOfDrop(s: string, sep: string, m: nat, k: nat)
    requires sep != [] && m <= k <= |s|
    requires forall j :: m <= j < k ==> !OccursAt(s, sep, j)
    requires k == |s| || OccursAt(s, sep, k)
    ensures Split(s[m..], sep)[0] == s[m..k]
  {
    var rest := s[m..];
    FreeAfterDrop(s, sep, m, k);
    if k < |s| {
      OccursAtDrop(s, sep, m, k - m);
    }
    FirstPieceUpTo(rest, sep, k - m);
    assert rest[..k - m] == s[m..k];
  }

  /** Where `find` puts the first `sep`, the split makes its first cut. */
  lemma SplitAtFirst(s: string, sep: string, i: nat)
    requires sep != [] && Find(s, sep) == Some(i)
    ensures Split(s, sep) == [s[..i]] + Split(s[i + |sep|..], sep)
  {
  }

  /** A stretch of `s` free of `p` stays free once the text before it is dropped. */
  lemma FreeAfterDrop(s: string, p: string, m: nat, k: nat)
    requires m <= k <= |s|
    requires forall j :: m <= j < k ==> !OccursAt(s, p, j)
    ensures forall j :: 0 <= j < k - m ==> !OccursAt(s[m..], p, j)
  {
    forall j | 0 <= j < k - m ensures !OccursAt(s[m..], p, j) {
      OccursAtDrop(s, p, m, j);
    }
  }

  /** No piece of a split contains the separator. */
  lemma {:induction false} SplitPiecesFree(s: string, sep: string)
    requires sep != []
    ensures forall k :: 0 <= k < |Split(s, sep)| ==> !Contains(Split(s, sep)[k], sep)
    decreases |s|
  {
    match Find(s, sep)
    case None =>
    case Some(i) =>
      var rest := s[i + |sep|..];
      var parts, tail := Split(s, sep), Split(rest, sep);
      assert parts == [s[..i]] + tail;
      SplitPiecesFree(rest, sep);
      BeforeFirstIsFree(s, sep, i);
      forall k | 0 <= k < |parts| ensures !Contains(parts[k], sep) {
        if k > 0 {
          assert parts[k] == tail[k - 1];
        }
      }
  }

  /** `s.split(sep, 1)`: the text before the first `sep` and, when there is one, the whole text after it. */
  function SplitOnce(s: string, sep: string): (r: seq<string>)
    requires sep != []
    ensures 1 <= |r| <= 2
    ensures |r| == 2 <==> Contains(s, sep)
  {
    match Find(s, sep)
    case None => [s]
    case Some(i) => [s[..i], s[i + |sep|..]]
  }

  /** The pieces of `s.split(sep, 1)` joined by `sep` give back `s`, and the first holds no `sep`. */
  lemma SplitOnceRejoins(s: string, sep: string)
    requires sep != []
    ensures Join(SplitOnce(s, sep), sep) == s
    ensures !Contains(SplitOnce(s, sep)[0], sep)
  {
    match Find(s, sep)
    case None =>
    case Some(i) =>
      BeforeFirstIsFree(s, sep, i);
      FindIsFirstOccurrence(s, sep);
      SliceThree(s, i, i + |sep|);
  }

  /** `s.replace(pat, with)`: the first occurrence of `pat` becomes `with`, and the scan goes on after it. */
  function Replace(s: string, pat: string, with: string): string
    requires pat != []
    decreases |s|
  {
    match Find(s, pat)
    case None => s
    case Some(i) => s[..i] + with + Replace(s[i + |pat|..], pat, with)
  }

  /** `s.replace(pat, with)` is `with.join(s.split(pat))`: every occurrence the split cuts at is replaced. */
  lemma {:induction false} ReplaceIsJoinOfSplit(s: string, pat: string, with: string)
    requires pat != []
    ensures Replace(s, pat, with) == Join(Split(s, pat), with)
    decreases |s|
  {
    match Find(s, pat)
    case None =>
    case Some(i) =>
      var rest := s[i + |pat|..];
      assert Split(s, pat) == [s[..i]] + Split(rest, pat);
      ReplaceIsJoinOfSplit(rest, pat, with);
      JoinCons(s[..i], Split(rest, pat), with);
  }

  // ---------------------------------------------------------------- split()

  /** Length of the run of non-whitespace characters at the start of `s`. */
  function WordLength(s: string): (n: nat)
    ensures n <= |s| && NoSpace(s[..n])
    ensures n < |s| ==> IsSpace(s[n])
    ensures s != [] && !IsSpace(s[0]) ==> n >= 1
  {
    if s == [] || IsSpace(s[0]) then 0
    else
      var n := 1 + WordLength(s[1..]);
      assert s[..n] == [s[0]] + s[1..][..n - 1];
      n
  }

  /** `s.split()`: the maximal runs of non-whitespace characters of `s`, in order. */
  function Words(s: string): (r: seq<string>)
    ensures forall k :: 0 <= k < |r| ==> r[k] != [] && NoSpace(r[k])
    decreases |s|
  {
    if s == [] then []
    else if IsSpace(s[0]) then Words(s[1..])
    else
      var n := WordLength(s);
      [s[..n]] + Words(s[n..])
  }

  /** The concatenation of a sequence of strings. */
  function Concat(ss: seq<string>): string
  {
    if ss == [] then "" else ss[0] + Concat(ss[1..])
  }

  /** The non-whitespace characters of `s`, in order. */
  function NonSpaceChars(s: string): string
  {
    if s == [] then "" else (if IsSpace(s[0]) then "" else [s[0]]) + NonSpaceChars(s[1..])
  }

  lemma {:induction false} NonSpaceCharsOfWord(s: string, n: nat)
    requires n <= |s| && NoSpace(s[..n])
    ensures NonSpaceChars(s) == s[..n] + NonSpaceChars(s[n..])
    decreases n
  {
    if n > 0 {
      assert s[0] == s[..n][0];
      assert s[1..][..n - 1] == s[1..n];
      NonSpaceCharsOfWord(s[1..], n - 1);
      assert s[1..][n - 1..] == s[n..];
      assert [s[0]] + s[1..n] == s[..n];
    }
  }

  /** `s.split()` loses only whitespace: its words, concatenated, are the non-whitespace characters of `s`. */
  lemma {:induction false} WordsKeepEveryNonSpace(s: string)
    ensures Concat(Words(s)) == NonSpaceChars(s)
    decreases |s|
  {
    if s == [] {
    } else if IsSpace(s[0]) {
      WordsKeepEveryNonSpace(s[1..]);
    } else {
      var n := WordLength(s);
      WordsKeepEveryNonSpace(s[n..]);
      NonSpaceCharsOfWord(s, n);
      assert Words(s) == [s[..n]] + Words(s[n..]);
    }
  }

  /** `s.split()` is empty exactly when `s` is empty or all whitespace. */
  lemma {:induction false} WordsEmptyIffBlank(s: string)
    ensures Words(s) == [] <==> AllSpace(s)
    decreases |s|
  {
    if s != [] && IsSpace(s[0]) {
      WordsEmptyIffBlank(s[1..]);
      if AllSpace(s[1..]) {
        forall k | 0 <= k < |s| ensures IsSpace(s[k]) {
          if k > 0 { assert s[k] == s[1..][k - 1]; }
        }
      }
    }
  }

  lemma {:induction false} WordLengthOfWord(w: string, t: string)
    requires NoSpace(w) && (t == [] || IsSpace(t[0]))
    ensures WordLength(w + t) == |w|
    decreases |w|
  {
    if w != [] {
      assert (w + t)[0] == w[0];
      assert (w + t)[1..] == w[1..] + t;
      WordLengthOfWord(w[1..], t);
    } else {
      assert w + t == t;
    }
  }

  /** A word list: non-empty words with no whitespace inside. */
  predicate IsWordList(ws: seq<string>) {
    forall k :: 0 <= k < |ws| ==> ws[k] != [] && NoSpace(ws[k])
  }

  /** Splitting the single-space join of a word list gives the word list back. */
  lemma {:induction false} WordsOfJoin(ws: seq<string>)
    requires IsWordList(ws)
    ensures Words(Join(ws, " ")) == ws
    decreases |ws|
  {
    if ws == [] {
    } else if |ws| == 1 {
      var w := ws[0];
      WordLengthOfWord(w, "");
      assert w + "" == w;
      assert w[|w|..] == "";
      assert w[..|w|] == w;
    } else {
      var w := ws[0];
      var j := Join(ws[1..], " ");
      var s := w + " " + j;
      assert Join(ws, " ") == s;
      WordLengthOfWord(w, " " + j);
      assert s == w + (" " + j);
      assert s[..|w|] == w;
      assert s[|w|..] == " " + j;
      assert (" " + j)[1..] == j;
      WordsOfJoin(ws[1..]);
      assert Words(s) == [w] + Words(" " + j);
    }
  }

  /** A non-empty string with no whitespace at either end whose whitespace characters are lone spaces. */
  predicate SingleSpaced(s: string) {
    && s != []
    && !IsSpace(s[0]) && !IsSpace(s[|s| - 1])
    && forall i :: 0 <= i < |s| - 1 && IsSpace(s[i]) ==> s[i] == ' ' && !IsSpace(s[i + 1])
  }

  /** The single-space join of a non-empty word list is single-spaced. */
  lemma {:induction false} JoinIsSingleSpaced(ws: seq<string>)
    requires ws != [] && IsWordList(ws)
    ensures SingleSpaced(Join(ws, " "))
    decreases |ws|
  {
    if |ws| > 1 {
      var w := ws[0];
      var j := Join(ws[1..], " ");
      JoinIsSingleSpaced(ws[1..]);
      var s := w + " " + j;
      assert Join(ws, " ") == s;
      forall i | 0 <= i < |s| - 1 && IsSpace(s[i]) ensures s[i] == ' ' && !IsSpace(s[i + 1]) {
        if i > |w| {
          assert s[i] == j[i - |w| - 1] && s[i + 1] == j[i - |w|];
        }
      }
    }
  }
}
