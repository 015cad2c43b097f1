/**
  Windows path text as the .NET `Path` class treats it: `Path.Combine` on
  strings, and the list of directory names a path string denotes.
 */
module Paths {
  import opened Base

  /** A path as the sequence of directory and file names it walks through. */
  type Path = seq<string>

  /** `\` (the directory separator) and `/` (the alternative separator). */
  predicate IsSeparator(c: char) {
    c == '\\' || c == '/'
  }

  /** `Path.IsPathRooted`: a leading separator, or a drive letter followed by a colon. */
  predicate IsPathRooted(s: string) {
    (|s| >= 1 && IsSeparator(s[0]))
    || (|s| >= 2 && (('A' <= s[0] <= 'Z') || ('a' <= s[0] <= 'z')) && s[1] == ':')
  }

  /** `Path.Combine(a, b)`: an empty part is skipped, a rooted `b` replaces `a`, otherwise one separator joins them. */
  function Combine(a: string, b: string): (r: string)
  {
    if b == "" then a
    else if a == "" then b
    else if IsPathRooted(b) then b
    else if IsSeparator(a[|a| - 1]) then a + b
    else a + "\\" + b
  }

  /** The number of characters before the first separator. */
  function NameLength(s: string): (n: nat)
    ensures n <= |s|
    ensures forall i :: 0 <= i < n ==> !IsSeparator(s[i])
    ensures n < |s| ==> IsSeparator(s[n])
  {
    if s == [] || IsSeparator(s[0]) then 0 else 1 + NameLength(s[1..])
  }

  /** The names a path string walks through: the text between separators, with empty pieces dropped. */
  function Segments(s: string): (r: Path)
    ensures forall i :: 0 <= i < |r| ==> r[i] != "" && forall j :: 0 <= j < |r[i]| ==> !IsSeparator(r[i][j])
    decreases |s|
  {
    if s == [] then []
    else if IsSeparator(s[0]) then Segments(s[1..])
    else var n := NameLength(s); [s[..n]] + Segments(s[n..])
  }

  /** A non-empty string without separators names exactly one entry. */
  lemma {:induction false} SingleName(s: string)
    requires s != [] && forall i :: 0 <= i < |s| ==> !IsSeparator(s[i])
    ensures Segments(s) == [s]
  {
    NameLengthOfName(s);
    assert !IsSeparator(s[0]);
    assert s[..|s|] == s && s[|s|..] == [];
    assert Segments(s[|s|..]) == [];
  }

  lemma {:induction false} NameLengthOfName(s: string)
    requires forall i :: 0 <= i < |s| ==> !IsSeparator(s[i])
    ensures NameLength(s) == |s|
  {
    if s != [] {
      NameLengthOfName(s[1..]);
    }
  }

  lemma {:induction false} NameLengthStopsAt(a: string, c: char, b: string)
    requires IsSeparator(c)
    ensures NameLength(a + [c] + b) == NameLength(a)
  {
    if a != [] && !IsSeparator(a[0]) {
      assert (a + [c] + b)[1..] == a[1..] + [c] + b;
      NameLengthStopsAt(a[1..], c, b);
    } else if a == [] {
      assert (a + [c] + b)[0] == c;
    }
  }

  /** A separator splits the names on its left from those on its right. */
  lemma {:induction false} SegmentsSplit(a: string, c: char, b: string)
    requires IsSeparator(c)
    ensures Segments(a + [c] + b) == Segments(a) + Segments(b)
    decreases |a|
  {
    var s := a + [c] + b;
    if a == [] {
      assert s[1..] == b;
    } else if IsSeparator(a[0]) {
      assert s[1..] == a[1..] + [c] + b;
      SegmentsSplit(a[1..], c, b);
    } else {
      NameLengthStopsAt(a, c, b);
      var n := NameLength(a);
      assert s[..n] == a[..n];
      assert s[n..] == a[n..] + [c] + b;
      SegmentsSplit(a[n..], c, b);
    }
  }

  /** `Path.Combine` with a part that is not rooted appends that part's names. */
  lemma SegmentsCombine(a: string, b: string)
    requires !IsPathRooted(b)
    ensures Segments(Combine(a, b)) == Segments(a) + Segments(b)
  {
    if b == "" || a == "" {
    } else if IsSeparator(a[|a| - 1]) {
      SegmentsAfterSeparator(a, b);
    } else {
      assert a + "\\" + b == a + ['\\'] + b;
      SegmentsSplit(a, '\\', b);
    }
  }

  /** A string ending in a separator splits its names from whatever follows. */
  lemma SegmentsAfterSeparator(a: string, b: string)
    requires a != [] && IsSeparator(a[|a| - 1])
    ensures Segments(a + b) == Segments(a) + Segments(b)
  {
    var a' := a[..|a| - 1];
    var c := a[|a| - 1];
    assert a' + [c] + [] == a;
    assert a' + [c] + b == a + b;
    assert Segments([]) == [];
    SegmentsSplit(a', c, []);
    SegmentsSplit(a', c, b);
  }

  /** A plain entry name: non-empty, no separator, not rooted. */
  predicate IsPlainName(s: string) {
    s != [] && !IsPathRooted(s) && forall i :: 0 <= i < |s| ==> !IsSeparator(s[i])
  }

  /** Combining with a plain name appends exactly that name. */
  lemma CombineName(a: string, name: string)
    requires IsPlainName(name)
    ensures Segments(Combine(a, name)) == Segments(a) + [name]
  {
    SegmentsCombine(a, name);
    SingleName(name);
  }
}
