/** Key paths in `registry_base`: `_join_registry_paths` (Windows `os.path.join`
    followed by turning '/' into '\'), the Windows `os.path.split` that
    `delete_registry_key` uses, and how the registry itself reads a path. */
module RegistryPaths {
  import opened Wrappers
  import opened OsRegistry

  /** A separator for the Windows path functions. The registry itself separates
      key names by '\' only. */
  predicate IsSep(c: char)
  {
    c == '\\' || c == '/'
  }

  /** The root of a path (a leading separator) and the rest. */
  function SplitRoot(p: string): (parts: (string, string))
    ensures parts.0 + parts.1 == p
    ensures parts.0 == "" || (|parts.0| == 1 && IsSep(parts.0[0]))
  {
    if |p| > 0 && IsSep(p[0]) then (p[..1], p[1..]) else ("", p)
  }

  /** Windows `os.path.join(a, b)`: an absolute `b` replaces `a`; otherwise a
      backslash is put between them unless `a` is empty or already ends in a
      separator. */
  function NtJoin(a: string, b: string): string
  {
    var (ra, pa) := SplitRoot(a);
    var (rb, pb) := SplitRoot(b);
    if rb != "" then rb + pb
    else ra + (if pa != "" && !IsSep(pa[|pa| - 1]) then pa + "\\" else pa) + pb
  }

  /** What `NtJoin` yields: an absolute `b` alone, otherwise `a`, then one
      backslash exactly when `a` is non-empty and does not end in a separator,
      then `b`. */
  lemma NtJoinParts(a: string, b: string)
    ensures b != "" && IsSep(b[0]) ==> NtJoin(a, b) == b
    ensures b == "" || !IsSep(b[0]) ==>
      NtJoin(a, b) == a + (if a != "" && !IsSep(a[|a| - 1]) then "\\" else "") + b
  {
    var (ra, pa) := SplitRoot(a);
    var (rb, pb) := SplitRoot(b);
    if rb == "" {
      assert pb == b && ra + pa == a;
      if pa != "" && !IsSep(pa[|pa| - 1]) {
        assert a[|a| - 1] == pa[|pa| - 1];
        assert ra + (pa + "\\") + pb == a + "\\" + b;
      } else {
        assert a == "" || IsSep(a[|a| - 1]);
        assert ra + pa + pb == a + b;
      }
    }
  }

  /** `s.replace('/', '\\')`. */
  function ReplaceSlashes(s: string): (r: string)
    ensures |r| == |s|
    ensures forall k :: 0 <= k < |s| ==> r[k] == if s[k] == '/' then '\\' else s[k]
    ensures '/' !in r
  {
    seq(|s|, k requires 0 <= k < |s| => if s[k] == '/' then '\\' else s[k])
  }

  /** `_join_registry_paths`: an empty side yields the other side unchanged. */
  function JoinRegistryPaths(prefix: string, path: string): (r: string)
    ensures prefix == "" ==> r == path
    ensures prefix != "" && path == "" ==> r == prefix
    ensures prefix != "" && path != "" ==> '/' !in r
  {
    if prefix == "" then path
    else if path == "" then prefix
    else ReplaceSlashes(NtJoin(prefix, path))
  }

  /** A relative path: non-empty, no '/', and no '\' at either end. */
  predicate PlainPath(p: string)
  {
    p != "" && '/' !in p && p[0] != '\\' && p[|p| - 1] != '\\'
  }

  /** Joining two plain paths puts exactly one backslash between them. */
  lemma JoinPlain(prefix: string, path: string)
    requires PlainPath(prefix) && PlainPath(path)
    ensures JoinRegistryPaths(prefix, path) == prefix + "\\" + path
  {
    var j := prefix + "\\" + path;
    assert SplitRoot(prefix) == ("", prefix);
    assert SplitRoot(path) == ("", path);
    assert NtJoin(prefix, path) == j;
    assert '/' !in j;
    ReplaceSlashesNoSlash(j);
  }

  /** A path without '/' is left as it is by `ReplaceSlashes`. */
  lemma ReplaceSlashesNoSlash(s: string)
    requires '/' !in s
    ensures ReplaceSlashes(s) == s
  {
  }

  /** An absolute path discards the prefix it is joined to. */
  lemma JoinAbsolute(prefix: string, path: string)
    requires prefix != "" && path != "" && IsSep(path[0])
    ensures JoinRegistryPaths(prefix, path) == ReplaceSlashes(path)
  {
    assert path[..1] + path[1..] == path;
  }

  /** The index just past the last separator of `s`, or 0. */
  function AfterLastSep(s: string): (i: nat)
    ensures i <= |s|
    ensures i > 0 ==> IsSep(s[i - 1])
    ensures forall k :: i <= k < |s| ==> !IsSep(s[k])
    decreases |s|
  {
    if |s| == 0 then 0
    else if IsSep(s[|s| - 1]) then |s|
    else AfterLastSep(s[..|s| - 1])
  }

  /** `s.rstrip('\\/')`: only separators are removed, and all the trailing ones. */
  function StripTrailingSeps(s: string): (r: string)
    ensures |r| <= |s| && r == s[..|r|]
    ensures r == "" || !IsSep(r[|r| - 1])
    ensures forall k :: |r| <= k < |s| ==> IsSep(s[k])
    decreases |s|
  {
    if |s| > 0 && IsSep(s[|s| - 1]) then StripTrailingSeps(s[..|s| - 1]) else s
  }

  /** Windows `os.path.split`: the part after the last separator of either kind,
      and what precedes it without trailing separators (a root is kept). */
  function NtSplit(p: string): (string, string)
  {
    var (root, rest) := SplitRoot(p);
    var i := AfterLastSep(rest);
    (root + StripTrailingSeps(rest[..i]), rest[i..])
  }

  /** What `NtSplit` yields: a head that is a prefix of the path and a tail that
      is a suffix, with only separators between them and none in the tail. */
  lemma {:induction false} NtSplitParts(p: string, head: string, tail: string)
    requires NtSplit(p) == (head, tail)
    ensures |head| + |tail| <= |p|
    ensures p[..|head|] == head && p[|p| - |tail|..] == tail
    ensures forall k :: |head| <= k < |p| - |tail| ==> IsSep(p[k])
    ensures forall k :: 0 <= k < |tail| ==> !IsSep(tail[k])
  {
    var (root, rest) := SplitRoot(p);
    var i := AfterLastSep(rest);
    StrippedBeforeLastSep(rest);
    SplitShape(p, root, rest, i, StripTrailingSeps(rest[..i]), head, tail);
  }

  /** The shape of a split: a head that keeps the root and a prefix of the rest,
      separators up to `i`, and a separator-free tail from `i`. */
  lemma SplitShape(p: string, root: string, rest: string, i: nat, stripped: string, head: string, tail: string)
    requires root + rest == p && |root| <= 1
    requires |stripped| <= i <= |rest| && rest[..|stripped|] == stripped
    requires forall k :: |stripped| <= k < i ==> IsSep(rest[k])
    requires forall k :: i <= k < |rest| ==> !IsSep(rest[k])
    requires head == root + stripped && tail == rest[i..]
    ensures |head| + |tail| <= |p|
    ensures p[..|head|] == head && p[|p| - |tail|..] == tail
    ensures forall k :: |head| <= k < |p| - |tail| ==> IsSep(p[k])
    ensures forall k :: 0 <= k < |tail| ==> !IsSep(tail[k])
  {
    assert p[..|head|] == root + rest[..|stripped|];
    assert forall k :: |root| <= k < |p| ==> p[k] == rest[k - |root|];
  }

  /** The part of `s` before its last separator, with trailing separators
      stripped, is a prefix of `s` followed only by separators up to there. */
  lemma {:induction false} StrippedBeforeLastSep(s: string)
    ensures var i := AfterLastSep(s);
      var stripped := StripTrailingSeps(s[..i]);
      && |stripped| <= i && s[..|stripped|] == stripped
      && forall k :: |stripped| <= k < i ==> IsSep(s[k])
  {
    var i := AfterLastSep(s);
    var stripped := StripTrailingSeps(s[..i]);
    assert forall k :: |stripped| <= k < i ==> s[k] == s[..i][k];
  }


  /** The parent path and the last key name of a registry path, splitting at the
      last backslash only, as the registry itself does. */
  function SplitKeyPath(p: string): (parts: (string, string))
    ensures '\\' !in parts.1
  {
    match LastIndexOf(p, '\\')
      case None =>
        assert forall k :: 0 <= k < |p| ==> p[k] != '\\';
        ("", p)
      case Some(i) => (p[..i], p[i + 1..])
  }

  /** A key path whose names are all non-empty. */
  predicate WellFormedKeyPath(p: string)
  {
    p != "" && forall k :: 0 <= k < |Pieces(p)| ==> Pieces(p)[k] != ""
  }

  /** Splitting a well-formed path names the key it addresses: the parent's
      names followed by the last name. */
  lemma SplitKeyPathAddressesSameKey(p: string)
    requires WellFormedKeyPath(p)
    ensures var (parent, name) := SplitKeyPath(p);
      name != "" && Segments(name) == [name] && Segments(parent) + [name] == Segments(p)
  {
    var (parent, name) := SplitKeyPath(p);
    match LastIndexOf(p, '\\')
    case None =>
    case Some(i) =>
      assert Pieces(p) == Pieces(p[..i]) + [p[i + 1..]];
      assert Pieces(p)[0] != "";
      assert p[..i] != "";
      assert Segments(parent) == Pieces(p[..i]);
      assert Pieces(p)[|Pieces(p)| - 1] == name;
  }

  /** A path whose first name is non-empty does not start with a backslash. */
  lemma {:induction false} FirstPieceNonEmpty(p: string)
    requires Pieces(p)[0] != ""
    ensures p != "" && p[0] != '\\'
    decreases |p|
  {
    match LastIndexOf(p, '\\')
    case None =>
    case Some(i) =>
      assert Pieces(p) == Pieces(p[..i]) + [p[i + 1..]];
      assert Pieces(p[..i])[0] == Pieces(p)[0];
      FirstPieceNonEmpty(p[..i]);
  }

  /** A path whose last name is non-empty does not end with a backslash. */
  lemma LastPieceNonEmpty(p: string)
    requires Pieces(p)[|Pieces(p)| - 1] != ""
    ensures p != "" && p[|p| - 1] != '\\'
  {
  }

  /** Without '/', the last separator of either kind is the last backslash. */
  lemma AfterLastSepNoSlash(p: string)
    requires '/' !in p
    ensures AfterLastSep(p) == match LastIndexOf(p, '\\') case None => 0 case Some(j) => j + 1
  {
    var i := AfterLastSep(p);
    match LastIndexOf(p, '\\')
    case None =>
    case Some(j) =>
      assert IsSep(p[j]);
      assert i > 0 && p[i - 1] == '\\';
  }

  /** A path without a root splits after its last separator. */
  lemma NtSplitUnrooted(p: string)
    requires p != "" && !IsSep(p[0])
    ensures NtSplit(p) == (StripTrailingSeps(p[..AfterLastSep(p)]), p[AfterLastSep(p)..])
  {
    var (root, rest) := SplitRoot(p);
    assert root == "" && rest == p;
    var head := StripTrailingSeps(p[..AfterLastSep(p)]);
    assert root + head == head;
  }

  /** Stripping the one backslash after a name that does not end in a separator. */
  lemma StripOneBackslash(p: string, j: nat)
    requires j < |p| && p[j] == '\\'
    requires p[..j] != "" && !IsSep(p[j - 1])
    ensures StripTrailingSeps(p[..j + 1]) == p[..j]
  {
    assert p[..j + 1][..j] == p[..j];
  }

  /** For a well-formed key path without '/', the Windows split and the
      registry's own split agree. Every path joined below a non-empty prefix has
      no '/', so the two differ only on key paths given without a prefix. */
  lemma NtSplitAgrees(p: string)
    requires WellFormedKeyPath(p) && '/' !in p
    ensures NtSplit(p) == SplitKeyPath(p)
  {
    FirstPieceNonEmpty(p);
    NtSplitUnrooted(p);
    AfterLastSepNoSlash(p);
    match LastIndexOf(p, '\\')
    case None =>
      assert p[..0] == "" && p[0..] == p;
    case Some(j) =>
      assert Pieces(p) == Pieces(p[..j]) + [p[j + 1..]];
      assert Pieces(p[..j])[|Pieces(p[..j])| - 1] in Pieces(p);
      LastPieceNonEmpty(p[..j]);
      assert p[j - 1] == p[..j][j - 1];
      StripOneBackslash(p, j);
  }

  /** The last occurrence is determined by where `c` occurs. */
  lemma LastIndexOfAt(p: string, c: char, i: nat)
    requires i < |p| && p[i] == c
    requires forall k :: i < k < |p| ==> p[k] != c
    ensures LastIndexOf(p, c) == Some(i)
  {
  }

  /** A string without `c` has no last occurrence of it. */
  lemma LastIndexOfNone(p: string, c: char)
    requires c !in p
    ensures LastIndexOf(p, c) == None
  {
  }

  /** Where the last backslash of `a + "\\" + b` is. */
  lemma LastSepOfJoined(a: string, b: string)
    ensures LastIndexOf(a + "\\" + b, '\\') ==
      match LastIndexOf(b, '\\')
        case None => Some(|a|)
        case Some(j) => Some(|a| + 1 + j)
  {
    var s := a + "\\" + b;
    var i := match LastIndexOf(b, '\\') case None => |a| case Some(j) => |a| + 1 + j;
    assert s[|a|] == '\\';
    forall k | i < k < |s|
      ensures s[k] != '\\'
    {
      assert s[k] == b[k - |a| - 1];
    }
    if LastIndexOf(b, '\\').Some? {
      assert s[i] == b[i - |a| - 1];
    }
    LastIndexOfAt(s, '\\', i);
  }

  /** The names of a joined path are the names of its halves. */
  lemma {:induction false} PiecesOfJoined(a: string, b: string)
    ensures Pieces(a + "\\" + b) == Pieces(a) + Pieces(b)
    decreases |b|
  {
    var s := a + "\\" + b;
    LastSepOfJoined(a, b);
    match LastIndexOf(b, '\\')
    case None =>
      assert s[..|a|] == a;
      assert s[|a| + 1..] == b;
      assert Pieces(s) == Pieces(a) + [b];
      assert Pieces(b) == [b];
    case Some(j) =>
      var front := a + "\\" + b[..j];
      assert s[..|a| + 1 + j] == front;
      assert s[|a| + 1 + j + 1..] == b[j + 1..];
      assert Pieces(s) == Pieces(front) + [b[j + 1..]];
      assert Pieces(b) == Pieces(b[..j]) + [b[j + 1..]];
      PiecesOfJoined(a, b[..j]);
      assert Pieces(front) == Pieces(a) + Pieces(b[..j]);
  }

  /** The key path naming `names`, one backslash between consecutive names. */
  function JoinNames(names: seq<string>): string
    requires |names| >= 1
  {
    if |names| == 1 then names[0] else JoinNames(names[..|names| - 1]) + "\\" + names[|names| - 1]
  }

  /** Reading a path back into names undoes joining them, when no name holds a
      backslash. */
  lemma {:induction false} PiecesOfJoinNames(names: seq<string>)
    requires |names| >= 1
    requires forall k :: 0 <= k < |names| ==> '\\' !in names[k]
    ensures Pieces(JoinNames(names)) == names
    decreases |names|
  {
    var last := names[|names| - 1];
    assert LastIndexOf(last, '\\').None?;
    if |names| > 1 {
      var front := names[..|names| - 1];
      PiecesOfJoinNames(front);
      PiecesOfJoined(JoinNames(front), last);
      assert front + [last] == names;
    }
  }

  /** Joining the names of a path gives the path back. */
  lemma {:induction false} JoinNamesOfPieces(p: string)
    ensures JoinNames(Pieces(p)) == p
    decreases |p|
  {
    match LastIndexOf(p, '\\')
    case None =>
    case Some(i) =>
      var front := Pieces(p[..i]);
      assert Pieces(p) == front + [p[i + 1..]];
      assert Pieces(p)[..|Pieces(p)| - 1] == front;
      JoinNamesOfPieces(p[..i]);
      assert p[..i] + "\\" + p[i + 1..] == p;
  }

  /** A plain path joined under a plain prefix addresses the key below the
      prefix's key. */
  lemma JoinedPathSegments(prefix: string, path: string)
    requires PlainPath(prefix) && PlainPath(path)
    ensures Segments(JoinRegistryPaths(prefix, path)) == Segments(prefix) + Segments(path)
  {
    JoinPlain(prefix, path);
    PiecesOfJoined(prefix, path);
  }
}
