/**
 * The few Python string operations the renamer relies on, over `string` (`seq<char>`):
 * `str.rfind` of one character, `str.split(sep)`, `sep.join(parts)` and `str.rstrip(c)`.
 */
module Strings {

  /** `s.rfind(c)`: the index of the last `c` in `s`, or -1 when there is none. */
  function RFind(s: string, c: char): (r: int)
    ensures -1 <= r < |s|
    ensures r >= 0 ==> s[r] == c
    ensures forall j :: r < j < |s| ==> s[j] != c
    decreases |s|
  {
    if |s| == 0 then -1
    else if s[|s| - 1] == c then |s| - 1
    else RFind(s[..|s| - 1], c)
  }

  /**
   * `s.split(sep)` with an explicit separator: never empty, and no part contains the separator;
   * `JoinSplit` and `SplitJoin` pin the parts down. Defined from the last character so that the
   * last part, the one the renamer overwrites, is the one the recursion builds.
   */
  function Split(s: string, sep: char): (parts: seq<string>)
    ensures |parts| >= 1
    ensures forall i :: 0 <= i < |parts| ==> sep !in parts[i]
    decreases |s|
  {
    if |s| == 0 then [""]
    else
      var init := Split(s[..|s| - 1], sep);
      var c := s[|s| - 1];
      if c == sep then init + [""]
      else init[..|init| - 1] + [init[|init| - 1] + [c]]
  }

  /** `sep.join(parts)`: the parts with one separator between neighbours. */
  function Join(parts: seq<string>, sep: char): string
  {
    if |parts| == 0 then ""
    else if |parts| == 1 then parts[0]
    else Join(parts[..|parts| - 1], sep) + [sep] + parts[|parts| - 1]
  }

  /** `s.rstrip(c)`: `s` without its trailing run of `c`. */
  function RStrip(s: string, c: char): (r: string)
    ensures r <= s
    ensures |r| == 0 || r[|r| - 1] != c
    ensures forall j :: |r| <= j < |s| ==> s[j] == c
    decreases |s|
  {
    if |s| > 0 && s[|s| - 1] == c then RStrip(s[..|s| - 1], c) else s
  }

  /** In `x + y`, where `x` is empty or ends with `c` and `y` has no `c`, the last `c` closes `x`. */
  lemma RFindOfAppend(x: string, y: string, c: char)
    requires x == "" || x[|x| - 1] == c
    requires c !in y
    ensures RFind(x + y, c) == |x| - 1
  {
    var s := x + y;
    assert forall j :: |x| <= j < |s| ==> s[j] == y[j - |x|];
    if x != "" {
      assert s[|x| - 1] == c;
    }
  }

  /** Joining the parts of a split gives back the original string. */
  lemma {:induction false} JoinSplit(s: string, sep: char)
    ensures Join(Split(s, sep), sep) == s
    decreases |s|
  {
    if |s| > 0 {
      var s' := s[..|s| - 1];
      var c := s[|s| - 1];
      var init := Split(s', sep);
      JoinSplit(s', sep);
      if c == sep {
        JoinSnoc(init, sep, "");
      } else {
        JoinExtendLast(init, sep, c);
      }
      assert s == s' + [c];
    }
  }

  /** Appending a character to the last part appends it to the join. */
  lemma JoinExtendLast(parts: seq<string>, sep: char, c: char)
    requires |parts| >= 1
    ensures Join(parts[..|parts| - 1] + [parts[|parts| - 1] + [c]], sep) == Join(parts, sep) + [c]
  {
  }

  /** `Join` of a list of at least two parts ends with a separator and the last part. */
  lemma JoinSnoc(init: seq<string>, sep: char, t: string)
    requires |init| >= 1
    ensures Join(init + [t], sep) == Join(init, sep) + [sep] + t
  {
  }

  /** Joining separator-free parts puts exactly one separator between neighbours, and no other. */
  lemma {:induction false} JoinCountsSeparators(parts: seq<string>, sep: char)
    requires |parts| >= 1
    requires forall i :: 0 <= i < |parts| ==> sep !in parts[i]
    ensures multiset(Join(parts, sep))[sep] == |parts| - 1
    decreases |parts|
  {
    if |parts| > 1 {
      var init, last := parts[..|parts| - 1], parts[|parts| - 1];
      JoinCountsSeparators(init, sep);
      assert Join(parts, sep) == Join(init, sep) + [sep] + last;
      assert multiset(last)[sep] == 0;
    }
  }

  /** A string without the separator splits into itself alone. */
  lemma {:induction false} SplitWithoutSeparator(s: string, sep: char)
    requires sep !in s
    ensures Split(s, sep) == [s]
    decreases |s|
  {
    if |s| > 0 {
      SplitWithoutSeparator(s[..|s| - 1], sep);
      assert s == s[..|s| - 1] + [s[|s| - 1]];
    }
  }

  /** Appending a separator and a separator-free part appends exactly that part to the split. */
  lemma {:induction false} SplitAppend(a: string, sep: char, p: string)
    requires sep !in p
    ensures Split(a + [sep] + p, sep) == Split(a, sep) + [p]
    decreases |p|
  {
    var s := a + [sep] + p;
    if |p| == 0 {
      assert s[..|s| - 1] == a;
    } else {
      var p' := p[..|p| - 1];
      SplitAppend(a, sep, p');
      assert s[..|s| - 1] == a + [sep] + p';
      assert p == p' + [p[|p| - 1]];
    }
  }

  /** Splitting a join of separator-free parts gives back the parts. */
  lemma {:induction false} SplitJoin(parts: seq<string>, sep: char)
    requires |parts| >= 1
    requires forall i :: 0 <= i < |parts| ==> sep !in parts[i]
    ensures Split(Join(parts, sep), sep) == parts
    decreases |parts|
  {
    if |parts| == 1 {
      SplitWithoutSeparator(parts[0], sep);
    } else {
      var init, last := parts[..|parts| - 1], parts[|parts| - 1];
      assert init + [last] == parts;
      JoinSnoc(init, sep, last);
      SplitJoin(init, sep);
      SplitAppend(Join(init, sep), sep, last);
    }
  }

  /** The step of `SplitReplaceLast` for a string that ends with the separator. */
  lemma ReplaceLastAfterSeparator(s: string, sep: char, t: string)
    requires |s| > 0 && s[|s| - 1] == sep
    ensures var parts := Split(s, sep);
            Join(parts[|parts| - 1 := t], sep) == s[..RFind(s, sep) + 1] + t
  {
    var s' := s[..|s| - 1];
    var init := Split(s', sep);
    SplitEndingInSeparator(s, sep);
    assert (init + [""])[|init| := t] == init + [t];
    JoinSnoc(init, sep, t);
    JoinSplit(s', sep);
    PrefixThroughLastSeparator(s, sep);
  }

  /** A string that ends with the separator splits into the parts before it and an empty last part. */
  lemma SplitEndingInSeparator(s: string, sep: char)
    requires |s| > 0 && s[|s| - 1] == sep
    ensures Split(s, sep) == Split(s[..|s| - 1], sep) + [""]
  {
  }

  /** A string that ends with the separator is, up to its last separator, all of itself. */
  lemma PrefixThroughLastSeparator(s: string, sep: char)
    requires |s| > 0 && s[|s| - 1] == sep
    ensures s[..RFind(s, sep) + 1] == s[..|s| - 1] + [sep]
  {
    assert s == s[..|s| - 1] + [sep];
  }

  /** The step of `SplitReplaceLast` for a string that ends with another character. */
  lemma ReplaceLastWithinPart(s: string, sep: char, t: string)
    requires |s| > 0 && s[|s| - 1] != sep
    requires var s' := s[..|s| - 1]; var parts := Split(s', sep);
             Join(parts[|parts| - 1 := t], sep) == s'[..RFind(s', sep) + 1] + t
    ensures var parts := Split(s, sep);
            Join(parts[|parts| - 1 := t], sep) == s[..RFind(s, sep) + 1] + t
  {
    var s' := s[..|s| - 1];
    var init := Split(s', sep);
    var parts := Split(s, sep);
    assert parts[|parts| - 1 := t] == init[|init| - 1 := t];
    assert RFind(s, sep) == RFind(s', sep);
    assert s[..RFind(s, sep) + 1] == s'[..RFind(s', sep) + 1];
  }

  /**
   * Overwriting the last part of a split and joining again keeps `s` up to and including its
   * last separator and puts `t` after it.
   */
  lemma {:induction false} SplitReplaceLast(s: string, sep: char, t: string)
    ensures var parts := Split(s, sep);
            Join(parts[|parts| - 1 := t], sep) == s[..RFind(s, sep) + 1] + t
    decreases |s|
  {
    if |s| > 0 {
      if s[|s| - 1] == sep {
        ReplaceLastAfterSeparator(s, sep, t);
      } else {
        SplitReplaceLast(s[..|s| - 1], sep, t);
        ReplaceLastWithinPart(s, sep, t);
      }
    }
  }
}
