/**
 * POSIX path arithmetic as Python's `posixpath` does it for `basename`, `dirname` and two-argument
 * `join`, on `/`-separated strings. No normalisation: `a//b` and `./b` stay as spelled.
 */
module PosixPath {
  import Strings

  /** Every character of `s` is a slash (true of the empty string). */
  predicate AllSlashes(s: string)
  {
    forall i :: 0 <= i < |s| ==> s[i] == '/'
  }

  /** `basename(p)`: what follows the last slash, or all of `p`. */
  function Basename(p: string): (b: string)
    ensures '/' !in b
    ensures |b| <= |p| && p[|p| - |b|..] == b
    ensures |b| < |p| ==> p[|p| - |b| - 1] == '/'
  {
    p[Strings.RFind(p, '/') + 1..]
  }

  /**
   * `dirname(p)`: everything up to the last slash, with trailing slashes removed unless it is
   * made of slashes only.
   */
  function Dirname(p: string): (d: string)
    ensures d <= p
    ensures '/' !in p ==> d == ""
    ensures d == "" || AllSlashes(d) || d[|d| - 1] != '/'
  {
    DirOfHead(p[..Strings.RFind(p, '/') + 1])
  }

  /** The `dirname` of a path whose part up to and including its last slash is `head`. */
  function DirOfHead(head: string): (d: string)
    ensures d <= head
    ensures d == "" || AllSlashes(d) || d[|d| - 1] != '/'
  {
    if head != "" && !AllSlashes(head) then Strings.RStrip(head, '/') else head
  }

  /**
   * For a path with a slash, `dirname` is not empty and only cuts slashes off the part up to the
   * last slash: `dirname("a//b")` is `"a"`.
   */
  lemma DirnameStripsSlashes(p: string)
    requires Strings.RFind(p, '/') >= 0
    ensures Dirname(p) != "" && |Dirname(p)| <= Strings.RFind(p, '/') + 1
    ensures AllSlashes(p[|Dirname(p)|..Strings.RFind(p, '/') + 1])
  {
    var head := p[..Strings.RFind(p, '/') + 1];
    HeadStrips(head);
    var d := DirOfHead(head);
    assert p[|d|..|head|] == head[|d|..];
  }

  /** A non-empty head keeps a non-empty `dirname` and loses only slashes. */
  lemma HeadStrips(head: string)
    requires head != ""
    ensures var d := DirOfHead(head);
            d != "" && AllSlashes(head[|d|..])
  {
    if !AllSlashes(head) {
      RStripKeepsNonSlash(head);
    }
  }

  /** Stripping trailing slashes from a string with another character leaves it non-empty and cuts only slashes. */
  lemma RStripKeepsNonSlash(s: string)
    requires !AllSlashes(s)
    ensures var r := Strings.RStrip(s, '/');
            r != "" && AllSlashes(s[|r|..])
  {
    var r := Strings.RStrip(s, '/');
    var k :| 0 <= k < |s| && s[k] != '/';
    assert k < |r|;
  }

  /** When everything up to the last slash is slashes, `dirname` keeps all of it: `dirname("//b")` is `"//"`. */
  lemma DirnameOfSlashRun(p: string)
    requires AllSlashes(p[..Strings.RFind(p, '/') + 1])
    ensures Dirname(p) == p[..Strings.RFind(p, '/') + 1]
  {
  }

  /** `join(a, b)`: an absolute `b` replaces `a`; otherwise one slash between them when needed. */
  function Join(a: string, b: string): (r: string)
    ensures |b| <= |r| && r[|r| - |b|..] == b
    ensures |b| > 0 && b[0] == '/' ==> r == b
    ensures (|b| == 0 || b[0] != '/') ==> a <= r
    ensures |r| <= |a| + 1 + |b|
    ensures (a == "" || a[|a| - 1] == '/') && (|b| == 0 || b[0] != '/') ==> r == a + b
    ensures a != "" && a[|a| - 1] != '/' && (|b| == 0 || b[0] != '/') ==> r == a + "/" + b
  {
    if |b| > 0 && b[0] == '/' then b
    else if a == "" || a[|a| - 1] == '/' then a + b
    else a + "/" + b
  }

  /** A name without slashes is its own basename, has an empty dirname, and joins onto `""` unchanged. */
  lemma BareName(p: string)
    requires '/' !in p
    ensures Basename(p) == p && Dirname(p) == "" && Join("", p) == p
  {
  }

  /** A file name without slashes joined onto any directory is the basename of the result. */
  lemma BasenameOfJoin(dir: string, name: string)
    requires '/' !in name
    ensures Basename(Join(dir, name)) == name
  {
    if dir == "" || dir[|dir| - 1] == '/' {
      BasenameAfterSlash(dir, name);
    } else {
      BasenameAfterSlash(dir + "/", name);
    }
  }

  /** What follows a prefix that is empty or ends in a slash, when it has no slash, is the basename. */
  lemma BasenameAfterSlash(x: string, name: string)
    requires x == "" || x[|x| - 1] == '/'
    requires '/' !in name
    ensures Basename(x + name) == name
  {
    Strings.RFindOfAppend(x, name, '/');
    assert (x + name)[|x|..] == name;
  }

  /** Joining a file name onto a `dirname` result lands back in that same directory. */
  lemma DirnameOfJoin(p: string, name: string)
    requires '/' !in name
    ensures Dirname(Join(Dirname(p), name)) == Dirname(p)
  {
    DirnameOfJoinOnto(Dirname(p), name);
  }

  /**
   * Joining a file name onto a directory spelled as `dirname` spells them (empty, all slashes, or
   * not ending in a slash) lands back in that same directory.
   */
  lemma DirnameOfJoinOnto(d: string, name: string)
    requires d == "" || AllSlashes(d) || d[|d| - 1] != '/'
    requires '/' !in name
    ensures Dirname(Join(d, name)) == d
  {
    if d == "" {
      BareName(name);
    } else if AllSlashes(d) {
      DirnameOfJoinOntoSlashes(d, name);
    } else {
      DirnameOfJoinOntoDir(d, name);
    }
  }

  /** The case of `DirnameOfJoin` for a directory made of slashes only, such as the root. */
  lemma DirnameOfJoinOntoSlashes(d: string, name: string)
    requires d != "" && AllSlashes(d)
    requires '/' !in name
    ensures Dirname(Join(d, name)) == d
  {
  }

  /** The case of `DirnameOfJoin` for a directory that does not end in a slash. */
  lemma DirnameOfJoinOntoDir(d: string, name: string)
    requires d != "" && d[|d| - 1] != '/'
    requires '/' !in name
    ensures Dirname(Join(d, name)) == d
  {
    var x := d + "/";
    assert Join(d, name) == x + name;
    Strings.RFindOfAppend(x, name, '/');
    assert (x + name)[..|x|] == x;
    assert !AllSlashes(x) by {
      assert x[|d| - 1] != '/';
    }
    assert Strings.RStrip(x, '/') == d by {
      assert x[..|x| - 1] == d;
      assert Strings.RStrip(x, '/') == Strings.RStrip(d, '/');
    }
  }

  /**
   * Joining a file name onto a directory with trailing slashes lands in the directory without them:
   * `dirname(join("out/", name))` is `"out"`.
   */
  lemma DirnameOfJoinOntoStripped(wd: string, name: string)
    requires Strings.RStrip(wd, '/') != "" && '/' !in name
    ensures Dirname(Join(wd, name)) == Strings.RStrip(wd, '/')
  {
    var r := Strings.RStrip(wd, '/');
    if wd[|wd| - 1] != '/' {
      assert r == wd;
      DirnameOfJoinOntoDir(wd, name);
    } else {
      assert Join(wd, name) == wd + name;
      Strings.RFindOfAppend(wd, name, '/');
      assert (wd + name)[..|wd|] == wd;
      assert !AllSlashes(wd) by {
        assert wd[|r| - 1] == r[|r| - 1];
      }
    }
  }

  /** When the last slash of `p` is at `i >= 1` and not doubled, `dirname` drops it and what follows. */
  lemma DirnameBeforeSingleSlash(p: string, i: int)
    requires 1 <= i && i == Strings.RFind(p, '/') && p[i - 1] != '/'
    ensures Dirname(p) == p[..i]
  {
  }

  /** A string is what comes before index `i`, the character at `i`, and what follows. */
  lemma SplitAround(s: string, i: int)
    requires 0 <= i < |s|
    ensures s == s[..i] + [s[i]] + s[i + 1..]
  {
  }

  /** The case of `JoinDirnameBasename` where the last slash is not the first character. */
  lemma JoinAroundSingleSlash(p: string, i: int)
    requires 1 <= i && i == Strings.RFind(p, '/') && p[i - 1] != '/'
    ensures Join(Dirname(p), Basename(p)) == p
  {
    var d, b := p[..i], p[i + 1..];
    assert Dirname(p) == d by {
      DirnameBeforeSingleSlash(p, i);
    }
    assert Basename(p) == b;
    assert Join(d, b) == p by {
      assert d[|d| - 1] == p[i - 1];
      assert p[i] == '/';
      SplitAround(p, i);
    }
  }

  /**
   * Splitting a path into `dirname` and `basename` and joining them again gives the path back,
   * provided the last slash is not doubled or the slashes up to it are all there is before it
   * (`a//b` comes back as `a/b`, while `//b` comes back as `//b`).
   */
  lemma JoinDirnameBasename(p: string)
    requires var i := Strings.RFind(p, '/'); i < 1 || p[i - 1] != '/' || AllSlashes(p[..i + 1])
    ensures Join(Dirname(p), Basename(p)) == p
  {
    var i := Strings.RFind(p, '/');
    if i == -1 {
      JoinWithoutSlash(p);
    } else if i >= 1 && p[i - 1] != '/' {
      JoinAroundSingleSlash(p, i);
    } else {
      if i == 0 {
        SlashHead(p[..1]);
      }
      JoinAroundSlashRun(p);
    }
  }

  /** The case of `JoinDirnameBasename` for a path without slashes. */
  lemma JoinWithoutSlash(p: string)
    requires Strings.RFind(p, '/') == -1
    ensures Join(Dirname(p), Basename(p)) == p
  {
    assert '/' !in p;
    BareName(p);
  }

  /** The case of `JoinDirnameBasename` where everything up to the last slash is slashes. */
  lemma JoinAroundSlashRun(p: string)
    requires Strings.RFind(p, '/') >= 0 && AllSlashes(p[..Strings.RFind(p, '/') + 1])
    ensures Join(Dirname(p), Basename(p)) == p
  {
    DirnameOfSlashRun(p);
    SlashRunJoin(p);
  }

  /** Everything up to the last slash, joined with the basename, is the path again. */
  lemma SlashRunJoin(p: string)
    requires Strings.RFind(p, '/') >= 0
    ensures Join(p[..Strings.RFind(p, '/') + 1], Basename(p)) == p
  {
    LastSlashSplits(p);
    JoinAfterSlash(p[..Strings.RFind(p, '/') + 1], Basename(p));
  }

  /** A path with a slash is everything up to its last slash, which ends in that slash, then the basename. */
  lemma LastSlashSplits(p: string)
    requires Strings.RFind(p, '/') >= 0
    ensures var a := p[..Strings.RFind(p, '/') + 1];
            a != "" && a[|a| - 1] == '/' && a + Basename(p) == p
  {
    assert p[..Strings.RFind(p, '/') + 1] + p[Strings.RFind(p, '/') + 1..] == p;
  }

  /** Joining a slash-free name onto a path that ends in a slash adds nothing between them. */
  lemma JoinAfterSlash(a: string, b: string)
    requires a != "" && a[|a| - 1] == '/' && '/' !in b
    ensures Join(a, b) == a + b
  {
  }

  /** A one-character string made of a slash is all slashes. */
  lemma SlashHead(head: string)
    requires |head| == 1 && head[0] == '/'
    ensures AllSlashes(head)
  {
  }
}
